/** The speaker registry (speaker_struct.c), adding only: a flat store of speakers and,
    for every line and channel, a growing list of pointers into it. A pointer is the
    number of the slot it points at. */
module Speakers {
  import opened Wrappers

  const MAX_COUNT := 255
  const LINE_MAX := 255
  const CHANNEL_MAX := 19
  const GROW_STEP := 10
  const DEFAULT_LINE := 0
  const LISTS := LINE_MAX * CHANNEL_MAX

  datatype State = Unused | Online | Offline | Deleted

  datatype Speaker = Speaker(idx: nat, id: nat, line: nat, channel: nat, state: State, dport: nat)

  datatype ChannelList = ChannelList(max: nat, speakers: seq<nat>)

  /** The static variables: the flat slots and how many are used, and all channel lists. */
  datatype Store = Store(flat: seq<Speaker>, len: nat, lists: seq<ChannelList>)

  function Uint8(x: nat): nat {
    x % 256
  }

  /** The sizes of the static variables. */
  predicate Sized(s: Store) {
    |s.flat| == MAX_COUNT && s.len <= MAX_COUNT && |s.lists| == LISTS
  }

  predicate ValidPlace(line: nat, channel: nat) {
    line < LINE_MAX && channel < CHANNEL_MAX
  }

  /** Where speakers_list_ch[line][channel] lies. */
  function Place(line: nat, channel: nat): (place: nat)
    requires ValidPlace(line, channel)
    ensures place < LISTS
  {
    line * CHANNEL_MAX + channel
  }

  lemma PlaceInjective(line: nat, channel: nat, line': nat, channel': nat)
    requires ValidPlace(line, channel) && ValidPlace(line', channel')
    ensures Place(line, channel) == Place(line', channel') <==> line == line' && channel == channel'
  {
  }

  function InitialList(place: nat): ChannelList {
    ChannelList(if place / CHANNEL_MAX == DEFAULT_LINE then GROW_STEP else 0, [])
  }

  /** After speaker_init: only the default line's lists have room. */
  function Initial(flat: seq<Speaker>): Store {
    Store(flat, 0, seq(LISTS, (place: nat) => InitialList(place)))
  }

  // ---------- add_speaker ----------

  /** The first used slot from i on whose speaker has that id. */
  function FindFrom(s: Store, i: nat, id: nat): Option<nat>
    requires s.len <= |s.flat|
    decreases s.len - i
  {
    if i >= s.len then None
    else if s.flat[i].id == id then Some(i)
    else FindFrom(s, i + 1, id)
  }

  /** grow_speakerlist: None when the list may not grow. */
  function Grown(list: ChannelList): Option<ChannelList> {
    if |list.speakers| < list.max then Some(list)
    else if list.max >= MAX_COUNT then None
    else Some(list.(max := list.max + GROW_STEP))
  }

  /** The list a slot is about to be appended to. */
  function Ready(list: ChannelList, slot: nat): Option<ChannelList> {
    if slot in list.speakers then Some(list) else Grown(list)
  }

  /** The next slot filled in; it keeps whatever id it had. */
  function Filled(s: Store, line: nat, channel: nat): seq<Speaker>
    requires s.len < |s.flat|
  {
    s.flat[s.len := s.flat[s.len].(idx := Uint8(s.len), state := Offline, dport := 0, line := line, channel := channel)]
  }

  function WithNew(s: Store, line: nat, channel: nat): Store
    requires s.len < |s.flat| && ValidPlace(line, channel) && |s.lists| == LISTS
    requires Ready(s.lists[Place(line, channel)], s.len).Some?
  {
    var list := Ready(s.lists[Place(line, channel)], s.len).value;
    s.(flat := Filled(s, line, channel), len := s.len + 1,
       lists := s.lists[Place(line, channel) := list.(speakers := list.speakers + [s.len])])
  }

  // ---------- What add_speaker does, by its effects ----------

  predicate HasId(s: Store, id: nat)
    requires s.len <= |s.flat|
  {
    exists k :: 0 <= k < s.len && s.flat[k].id == id
  }

  /** The list can take one more slot, grown if need be. */
  predicate HasRoom(list: ChannelList, slot: nat) {
    |list.speakers| < list.max || list.max < 255 || slot in list.speakers
  }

  /** The speaker in the first free slot, filed under its line and channel; everything else
      stays as it was. */
  ghost predicate Filed(s: Store, s': Store, line: nat, channel: nat)
    requires Sized(s) && Sized(s') && s.len < MAX_COUNT && ValidPlace(line, channel)
  {
    var slot, place := s.len, Place(line, channel);
    && s'.len == slot + 1
    && s'.flat[slot] == Speaker(slot, s.flat[slot].id, line, channel, Offline, 0)
    && (forall k :: 0 <= k < MAX_COUNT && k != slot ==> s'.flat[k] == s.flat[k])
    && s'.lists[place].speakers == s.lists[place].speakers + [slot]
    && (|s.lists[place].speakers| < s.lists[place].max ==> s'.lists[place].max == s.lists[place].max)
    && (|s.lists[place].speakers| >= s.lists[place].max && slot !in s.lists[place].speakers ==>
          s'.lists[place].max == s.lists[place].max + 10)
    && forall p :: 0 <= p < LISTS && p != place ==> s'.lists[p] == s.lists[p]
  }

  /** Nothing has changed but what the first free slot holds. */
  ghost predicate RolledBack(s: Store, s': Store)
    requires Sized(s) && Sized(s')
  {
    s'.len == s.len && s'.lists == s.lists && forall k :: 0 <= k < s.len ==> s'.flat[k] == s.flat[k]
  }

  ghost predicate IsAdded(s: Store, s': Store, id: nat, line: nat, channel: nat, slot: Option<nat>)
    requires Sized(s) && Sized(s') && ValidPlace(line, channel)
  {
    if HasId(s, id) then
      s' == s && slot.Some? && slot.value < s.len && s.flat[slot.value].id == id
      && forall k :: 0 <= k < slot.value ==> s.flat[k].id != id
    else if s.len == 255 then
      s' == s && slot == None
    else if HasRoom(s.lists[Place(line, channel)], s.len) then
      slot == Some(s.len) && Filed(s, s', line, channel)
    else
      slot == None && RolledBack(s, s')
  }

  lemma {:induction false} FindsFirst(s: Store, i: nat, id: nat)
    requires i <= s.len <= |s.flat|
    ensures match FindFrom(s, i, id)
            case Some(k) => i <= k < s.len && s.flat[k].id == id && forall j :: i <= j < k ==> s.flat[j].id != id
            case None => forall j :: i <= j < s.len ==> s.flat[j].id != id
    decreases s.len - i
  {
    if i < s.len {
      FindsFirst(s, i + 1, id);
    }
  }

  /** add_speaker returns the speaker with the id, or files a new one under the line and
      channel asked for, or does nothing. */
  lemma AddSpeakerAdds(s: Store, id: nat, line: nat, channel: nat)
    requires Sized(s) && ValidPlace(line, channel)
    ensures var (s', slot) := AddSpeaker(s, id, line, channel);
            Sized(s') && IsAdded(s, s', id, line, channel, slot)
  {
    FindsFirst(s, 0, id);
  }

  // ---------- What holds over every run ----------

  function TotalLength(lists: seq<ChannelList>): nat {
    if lists == [] then 0 else |lists[0].speakers| + TotalLength(lists[1..])
  }

  ghost predicate Ascending(slots: seq<nat>) {
    forall i, j :: 0 <= i < j < |slots| ==> slots[i] < slots[j]
  }

  /** The list a used slot belongs to. */
  predicate Home(s: Store, slot: nat, place: nat) {
    slot < |s.flat| && ValidPlace(s.flat[slot].line, s.flat[slot].channel)
    && place == Place(s.flat[slot].line, s.flat[slot].channel)
  }

  /** A list is in slot order, fits its room, and holds used slots whose home it is. */
  ghost predicate ListOk(s: Store, place: nat)
    requires place < |s.lists|
  {
    var list := s.lists[place];
    && Ascending(list.speakers) && |list.speakers| <= list.max
    && forall slot :: slot in list.speakers ==> slot < s.len && Home(s, slot, place)
  }

  ghost predicate Listed(s: Store, slot: nat)
    requires slot < |s.flat| && |s.lists| == LISTS
  {
    var sp := s.flat[slot];
    sp.idx == slot && ValidPlace(sp.line, sp.channel) && slot in s.lists[Place(sp.line, sp.channel)].speakers
  }

  ghost predicate Inv(s: Store) {
    && Sized(s)
    && (forall slot :: 0 <= slot < s.len ==> Listed(s, slot))
    && (forall place :: 0 <= place < LISTS ==> ListOk(s, place))
    && TotalLength(s.lists) == s.len
  }

  lemma {:induction false} OneOfTotal(lists: seq<ChannelList>, k: nat, list: ChannelList)
    requires k < |lists|
    ensures |lists[k].speakers| <= TotalLength(lists)
    ensures TotalLength(lists[k := list]) == TotalLength(lists) - |lists[k].speakers| + |list.speakers|
  {
    if k > 0 {
      OneOfTotal(lists[1..], k - 1, list);
      assert lists[k := list][1..] == lists[1..][k - 1 := list];
    } else {
      assert lists[k := list][1..] == lists[1..];
    }
  }

  /** The rollback of a failed growth is never reached. */
  lemma GrowthNeverFails(s: Store, line: nat, channel: nat)
    requires Inv(s) && s.len < MAX_COUNT && ValidPlace(line, channel)
    ensures s.len !in s.lists[Place(line, channel)].speakers
    ensures Grown(s.lists[Place(line, channel)]).Some?
  {
    assert ListOk(s, Place(line, channel));
    OneOfTotal(s.lists, Place(line, channel), ChannelList(0, []));
  }

  lemma {:induction false} EmptyTotal(lists: seq<ChannelList>)
    requires forall k :: 0 <= k < |lists| ==> lists[k].speakers == []
    ensures TotalLength(lists) == 0
  {
    if lists != [] {
      EmptyTotal(lists[1..]);
    }
  }

  lemma InitialInv(flat: seq<Speaker>)
    requires |flat| == MAX_COUNT
    ensures Inv(Initial(flat))
  {
    EmptyTotal(Initial(flat).lists);
  }

  lemma WithNewKeepsLists(s: Store, line: nat, channel: nat, place: nat)
    requires Inv(s) && s.len < MAX_COUNT && ValidPlace(line, channel) && place < LISTS
    requires Ready(s.lists[Place(line, channel)], s.len).Some?
    ensures ListOk(WithNew(s, line, channel), place)
  {
    var s' := WithNew(s, line, channel);
    var before, after := s.lists[place].speakers, s'.lists[place].speakers;
    assert ListOk(s, place);
    assert s.len !in before;
    assert after == if place == Place(line, channel) then before + [s.len] else before;
    assert forall i :: 0 <= i < |before| ==> before[i] in before;
    forall slot | slot in after
      ensures slot < s'.len && Home(s', slot, place)
    {
      assert slot in before || (slot == s.len && place == Place(line, channel));
      assert slot in before ==> Home(s, slot, place);
    }
  }

  lemma WithNewKeepsInv(s: Store, line: nat, channel: nat)
    requires Inv(s) && s.len < MAX_COUNT && ValidPlace(line, channel)
    requires Ready(s.lists[Place(line, channel)], s.len).Some?
    ensures Inv(WithNew(s, line, channel))
  {
    var s' := WithNew(s, line, channel);
    var place := Place(line, channel);
    OneOfTotal(s.lists, place, s'.lists[place]);
    forall other | 0 <= other < LISTS
      ensures ListOk(s', other)
    {
      WithNewKeepsLists(s, line, channel, other);
    }
    forall slot | 0 <= slot < s'.len
      ensures Listed(s', slot)
    {
      assert slot < s.len ==> Listed(s, slot);
    }
  }

  // ---------- Runs ----------

  /** A call of add_speaker, or the caller storing an id in a used speaker: add_speaker
      itself does not. */
  datatype Op = Add(id: nat, line: nat, channel: nat) | SetId(slot: nat, id: nat)

  predicate Proper(s: Store, op: Op) {
    match op
    case Add(_, line, channel) => ValidPlace(line, channel)
    case SetId(slot, _) => slot < s.len <= |s.flat|
  }

  /** The result of add_speaker, and the store after it. */
  function AddSpeaker(s: Store, id: nat, line: nat, channel: nat): (Store, Option<nat>)
    requires Sized(s) && ValidPlace(line, channel)
  {
    if FindFrom(s, 0, id).Some? then (s, FindFrom(s, 0, id))
    else if s.len >= MAX_COUNT then (s, None)
    else if Ready(s.lists[Place(line, channel)], s.len).None? then (s.(flat := Filled(s, line, channel)), None)
    else (WithNew(s, line, channel), Some(s.len))
  }

  function Applied(s: Store, op: Op): (s': Store)
    requires Sized(s) && Proper(s, op)
    ensures Sized(s')
  {
    match op
    case Add(id, line, channel) => AddSpeaker(s, id, line, channel).0
    case SetId(slot, id) => s.(flat := s.flat[slot := s.flat[slot].(id := id)])
  }

  lemma SetIdKeepsInv(s: Store, slot: nat, id: nat)
    requires Inv(s) && slot < s.len
    ensures Inv(Applied(s, SetId(slot, id)))
  {
    var s' := Applied(s, SetId(slot, id));
    forall place | 0 <= place < LISTS
      ensures ListOk(s', place)
    {
      assert ListOk(s, place);
      assert forall x :: x in s.lists[place].speakers ==> Home(s, x, place);
    }
    forall x | 0 <= x < s'.len
      ensures Listed(s', x)
    {
      assert Listed(s, x);
    }
  }

  lemma StepKeepsInv(s: Store, op: Op)
    requires Inv(s) && Proper(s, op)
    ensures Inv(Applied(s, op))
  {
    match op
    case Add(id, line, channel) =>
      if FindFrom(s, 0, id).None? && s.len < MAX_COUNT {
        GrowthNeverFails(s, line, channel);
        WithNewKeepsInv(s, line, channel);
      }
    case SetId(slot, id) => SetIdKeepsInv(s, slot, id);
  }

  ghost predicate Follows(s: Store, ops: seq<Op>, s': Store)
    requires Sized(s)
    decreases |ops|
  {
    if ops == [] then s == s'
    else Proper(s, ops[0]) && Follows(Applied(s, ops[0]), ops[1..], s')
  }

  lemma {:induction false} RunsKeepInv(s: Store, ops: seq<Op>, s': Store)
    requires Inv(s) && Follows(s, ops, s')
    ensures Inv(s')
    decreases |ops|
  {
    if ops != [] {
      StepKeepsInv(s, ops[0]);
      RunsKeepInv(Applied(s, ops[0]), ops[1..], s');
    }
  }

  /** Over every run: every used slot knows its number, lies in exactly one channel list,
      and there once; list lengths add up to the number of slots used; growth cannot fail. */
  lemma RegistryPartitioned(flat: seq<Speaker>, ops: seq<Op>, s: Store, slot: nat, line: nat, channel: nat)
    requires |flat| == MAX_COUNT && Follows(Initial(flat), ops, s)
    requires slot < s.len && ValidPlace(line, channel)
    ensures slot < |s.flat| && s.flat[slot].idx == slot && |s.lists| == LISTS
    ensures multiset(s.lists[Place(line, channel)].speakers)[slot]
            == if s.flat[slot].line == line && s.flat[slot].channel == channel then 1 else 0
    ensures TotalLength(s.lists) == s.len
    ensures s.len < MAX_COUNT ==> Grown(s.lists[Place(line, channel)]).Some?
  {
    InitialInv(flat);
    RunsKeepInv(Initial(flat), ops, s);
    var place := Place(line, channel);
    assert ListOk(s, place) && Listed(s, slot);
    PlaceInjective(line, channel, s.flat[slot].line, s.flat[slot].channel);
    AscendingOnce(s.lists[place].speakers, slot);
    if s.len < MAX_COUNT {
      GrowthNeverFails(s, line, channel);
    }
  }

  lemma {:induction false} AscendingOnce(slots: seq<nat>, slot: nat)
    requires Ascending(slots)
    ensures multiset(slots)[slot] == if slot in slots then 1 else 0
  {
    if slots != [] {
      AscendingOnce(slots[1..], slot);
      assert slots == [slots[0]] + slots[1..];
    }
  }

  /** Adding the same id again finds the speaker again, once its id has been stored; until
      then it takes a second slot, unless an earlier slot happens to carry the id. */
  lemma AddAgain(s: Store, id: nat, line: nat, channel: nat)
    requires Inv(s) && s.len < MAX_COUNT && ValidPlace(line, channel) && FindFrom(s, 0, id).None?
    ensures var (s', added) := AddSpeaker(s, id, line, channel);
            added == Some(s.len) && Inv(s')
            && AddSpeaker(Applied(s', SetId(s.len, id)), id, line, channel).1 == Some(s.len)
            && (AddSpeaker(s', id, line, channel).1 == Some(s.len) <==> s.flat[s.len].id == id)
  {
    GrowthNeverFails(s, line, channel);
    WithNewKeepsInv(s, line, channel);
    var s' := WithNew(s, line, channel);
    FindSkips(s, s', 0, id);
    FindSkips(s, Applied(s', SetId(s.len, id)), 0, id);
  }

  lemma {:induction false} FindSkips(s: Store, s': Store, i: nat, id: nat)
    requires i <= s.len <= |s.flat| && s'.len == s.len + 1 <= |s'.flat|
    requires forall k :: 0 <= k < s.len ==> s'.flat[k].id == s.flat[k].id
    requires FindFrom(s, i, id).None?
    ensures FindFrom(s', i, id) == if s'.flat[s.len].id == id then Some(s.len) else None
    decreases s.len - i
  {
    if i < s.len {
      FindSkips(s, s', i + 1, id);
    }
  }

  // ---------- The code ----------

  class Registry {
    const flat: array<Speaker>
    var len: nat
    const lists: array<ChannelList>

    ghost predicate Valid()
      reads this, flat, lists
    {
      flat.Length == MAX_COUNT && lists.Length == LISTS && len <= MAX_COUNT
    }

    ghost function View(): Store
      reads this, flat, lists
    {
      Store(flat[..], len, lists[..])
    }

    constructor (blank: Speaker)
      ensures Valid() && fresh(flat) && fresh(lists)
      ensures View() == Initial(seq(MAX_COUNT, _ => blank))
      ensures forall line, channel :: ValidPlace(line, channel) ==>
                lists[Place(line, channel)] == ChannelList(if line == 0 then 10 else 0, [])
    {
      flat := new Speaker[MAX_COUNT](_ => blank);
      lists := new ChannelList[LISTS]((place: nat) => InitialList(place));
      len := 0;
      new;
      assert flat[..] == seq(MAX_COUNT, _ => blank);
      assert lists[..] == seq(LISTS, (place: nat) => InitialList(place));
    }

    method FindSpeakerById(id: nat) returns (slot: Option<nat>)
      requires Valid()
      ensures slot.Some? ==> slot.value < len && flat[slot.value].id == id
      ensures forall k :: 0 <= k < (if slot.Some? then slot.value else len) ==> flat[k].id != id
      ensures slot == FindFrom(View(), 0, id)
    {
      for i := 0 to len
        invariant forall k :: 0 <= k < i ==> flat[k].id != id
        invariant FindFrom(View(), 0, id) == FindFrom(View(), i, id)
      {
        if flat[i].id == id {
          return Some(i);
        }
      }
      slot := None;
    }

    method FindSpeakerBySp(place: nat, slot: nat) returns (position: Option<nat>)
      requires Valid() && place < LISTS
      ensures position.None? <==> slot !in lists[place].speakers
      ensures position.Some? ==> position.value < |lists[place].speakers| && lists[place].speakers[position.value] == slot
    {
      var list := lists[place].speakers;
      for i := 0 to |list|
        invariant slot !in list[..i]
      {
        if list[i] == slot {
          return Some(i);
        }
      }
      position := None;
    }

    method GrowSpeakerList(place: nat) returns (ok: bool)
      requires Valid() && place < LISTS
      modifies lists
      ensures ok == Grown(old(lists[place])).Some?
      ensures lists[..] == if ok then old(lists[..])[place := Grown(old(lists[place])).value] else old(lists[..])
    {
      var list := lists[place];
      if |list.speakers| >= list.max {
        if list.max >= MAX_COUNT {
          return false;
        }
        lists[place] := list.(max := list.max + GROW_STEP);
      }
      ok := true;
    }

    method Add(id: nat, line: nat, channel: nat) returns (slot: Option<nat>)
      requires Valid() && ValidPlace(line, channel)
      modifies this`len, flat, lists
      ensures Valid() && (View(), slot) == AddSpeaker(old(View()), id, line, channel)
      ensures IsAdded(old(View()), View(), id, line, channel, slot)
    {
      ghost var before := View();
      AddSpeakerAdds(before, id, line, channel);
      slot := FindSpeakerById(id);
      if slot.Some? {
        return;
      }
      if len >= MAX_COUNT {
        return None;
      }
      var next := len;
      flat[next] := flat[next].(idx := Uint8(len), state := Offline, dport := 0, line := line, channel := channel);
      len := len + 1;
      var place := Place(line, channel);
      var known := FindSpeakerBySp(place, next);
      if known.None? {
        var ok := GrowSpeakerList(place);
        if !ok {
          len := len - 1;
          assert View() == before.(flat := Filled(before, line, channel));
          return None;
        }
      }
      lists[place] := lists[place].(speakers := lists[place].speakers + [next]);
      assert View() == WithNew(before, line, channel);
      slot := Some(next);
    }
  }
}
