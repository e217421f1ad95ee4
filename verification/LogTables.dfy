/** The log filter table against simpler things: its own printed form, and a map from
    names to levels (log.c). */
module LogTables {
  import opened Wrappers
  import opened LogFilters

  // ---------- Printing and parsing ----------

  function Digit(d: nat): char
    requires d < 10
  {
    '0' + d as char
  }

  function Decimal(n: int): (s: string)
    ensures s != "" && (n >= 0 ==> forall c :: c in s ==> IsDigit(c))
    decreases n < 0, if n < 0 then -n else n
  {
    if n < 0 then "-" + Decimal(-n)
    else if n < 10 then [Digit(n)]
    else Decimal(n / 10) + [Digit(n % 10)]
  }

  function PrintedEntry(e: Entry): string {
    e.name + ":" + Decimal(e.level)
  }

  /** The entries as name:level, separated by commas. */
  function Printed(entries: seq<Entry>): string
    requires entries != []
  {
    if |entries| == 1 then PrintedEntry(entries[0])
    else PrintedEntry(entries[0]) + "," + Printed(entries[1..])
  }

  /** An entry that a specification string can express. */
  predicate Expressible(e: Entry) {
    && 0 < |e.name| <= 15 && ',' !in e.name && ':' !in e.name
    && 0 <= e.level < 0x8000_0000
  }

  ghost predicate DistinctNames(entries: seq<Entry>) {
    forall i, j :: 0 <= i < j < |entries| ==> entries[i].name != entries[j].name
  }

  lemma {:induction false} DigitsOfAppend(a: string, b: string, acc: nat)
    requires forall c :: c in a ==> IsDigit(c)
    ensures DigitsValue(a + b, acc) == DigitsValue(b, DigitsValue(a, acc))
    decreases |a|
  {
    if a == "" {
      assert a + b == b;
    } else {
      assert (a + b)[1..] == a[1..] + b;
      assert IsDigit(a[0]);
      DigitsOfAppend(a[1..], b, 10 * acc + (a[0] - '0') as nat);
    }
  }

  lemma {:induction false} DecimalValue(n: nat)
    ensures DigitsValue(Decimal(n), 0) == n
  {
    var last := [Digit(n % 10)];
    assert last[1..] == "";
    if n >= 10 {
      DecimalValue(n / 10);
      DigitsOfAppend(Decimal(n / 10), last, 0);
    }
  }

  lemma DigitsNameNoLevel(s: string)
    requires s != "" && IsDigit(s[0])
    ensures ParseLevel(s) == LevelFrom(s, 6)
  {
    forall i: nat | i < 6
      ensures !CaseEqual(s, LEVEL_STRINGS[i])
    {
      assert !IsDigit(Lower(LEVEL_STRINGS[i][0]));
    }
    assert LevelFrom(s, 0) == LevelFrom(s, 1) == LevelFrom(s, 2) == LevelFrom(s, 3);
    assert LevelFrom(s, 3) == LevelFrom(s, 4) == LevelFrom(s, 5) == LevelFrom(s, 6);
  }

  lemma StrtolOfDigits(s: string)
    requires s != "" && IsDigit(s[0])
    ensures Strtol(s) == Some(Clamp(DigitsValue(s, 0), -0x8000_0000_0000_0000, 0x7fff_ffff_ffff_ffff))
  {
    assert SkipSpaces(s) == s;
  }

  lemma ParseDecimal(n: nat)
    requires n < 0x8000_0000
    ensures ParseLevel(Decimal(n)) == n
  {
    var s := Decimal(n);
    assert s[0] in s;
    DigitsNameNoLevel(s);
    DecimalValue(n);
    StrtolOfDigits(s);
    LevelOfNumber(s, n);
  }

  lemma LevelOfNumber(s: string, n: int)
    requires Strtol(s) == Some(n) && 0 <= n < 0x8000_0000
    ensures LevelFrom(s, 6) == n
  {
    assert ToInt(n) == n;
  }

  lemma {:induction false} IndexOfAfter(a: string, c: char, b: string)
    requires c !in a
    ensures IndexOf(a + [c] + b, c) == Some(|a|)
  {
    if a != "" {
      IndexOfAfter(a[1..], c, b);
      assert (a + [c] + b)[1..] == a[1..] + [c] + b;
    }
  }

  lemma EntryMeaning(s: Settings, e: Entry)
    requires Expressible(e)
    ensures SegmentMeaning(s, PrintedEntry(e)) == Some(s.(entries := Added(s.entries, e.name, e.level)))
  {
    var text := PrintedEntry(e);
    IndexOfAfter(e.name, ':', Decimal(e.level));
    assert text == e.name + [':'] + Decimal(e.level);
    assert text[..|e.name|] == e.name && text[|e.name| + 1..] == Decimal(e.level);
    ParseDecimal(e.level);
  }

  lemma {:induction false} NewNameAppends(entries: seq<Entry>, i: nat, name: string, level: int)
    requires |entries| < MAX_FILTERS && |name| <= NAME_LENGTH
    requires i <= |entries| && forall k :: i <= k < |entries| ==> entries[k].name != name
    ensures AddedFrom(entries, i, name, level) == entries + [Entry(name, level)]
    decreases |entries| - i
  {
    if i < |entries| {
      NewNameAppends(entries, i + 1, name, level);
    }
  }

  lemma PrintedEntryHasNoComma(e: Entry)
    requires Expressible(e)
    ensures ',' !in PrintedEntry(e) && PrintedEntry(e) != ""
  {
    assert forall c :: c in Decimal(e.level) ==> IsDigit(c);
  }

  lemma OneEntry(entries: seq<Entry>, k: nat, level: int)
    requires k < |entries| <= MAX_FILTERS && DistinctNames(entries) && Expressible(entries[k])
    ensures SegmentMeaning(Settings(entries[..k], level), PrintedEntry(entries[k]))
            == Some(Settings(entries[..k + 1], level))
  {
    EntryMeaning(Settings(entries[..k], level), entries[k]);
    NewNameAppends(entries[..k], 0, entries[k].name, entries[k].level);
    assert entries[..k + 1] == entries[..k] + [entries[k]];
  }

  lemma PrintedSplit(e: Entry, others: seq<Entry>)
    requires Expressible(e)
    ensures FirstSegment(Printed([e] + others)) == PrintedEntry(e)
    ensures IndexOf(Printed([e] + others), ',').None? <==> others == []
    ensures others != [] ==> OtherSegments(Printed([e] + others)) == Printed(others)
  {
    var text := Printed([e] + others);
    PrintedEntryHasNoComma(e);
    if others == [] {
      IndexOfIsFirst(text, ',');
    } else {
      assert ([e] + others)[1..] == others;
      IndexOfAfter(PrintedEntry(e), ',', Printed(others));
      assert text == PrintedEntry(e) + [','] + Printed(others);
    }
  }

  lemma FoldOne(entries: seq<Entry>, k: nat, level: int)
    requires k < |entries| <= MAX_FILTERS && DistinctNames(entries) && Expressible(entries[k])
    ensures FoldSegments(Settings(entries[..k], level), Segments(Printed(entries[k..])))
            == if k + 1 == |entries| then (Settings(entries[..k + 1], level), 0)
               else FoldSegments(Settings(entries[..k + 1], level), Segments(Printed(entries[k + 1..])))
  {
    assert entries[k..] == [entries[k]] + entries[k + 1..];
    FoldStep(Settings(entries[..k], level), Printed(entries[k..]));
    OneEntry(entries, k, level);
    PrintedSplit(entries[k], entries[k + 1..]);
    if k + 1 < |entries| {
      PrintedNotEmpty(entries[k + 1..]);
    }
  }

  lemma PrintedNotEmpty(entries: seq<Entry>)
    requires entries != []
    ensures Printed(entries) != ""
  {
  }

  lemma {:induction false} RebuildFrom(entries: seq<Entry>, k: nat, level: int)
    requires k < |entries| <= MAX_FILTERS && DistinctNames(entries)
    requires forall e :: e in entries ==> Expressible(e)
    ensures FoldSegments(Settings(entries[..k], level), Segments(Printed(entries[k..]))) == (Settings(entries, level), 0)
    decreases |entries| - k
  {
    FoldOne(entries, k, level);
    if k + 1 == |entries| {
      assert entries[..k + 1] == entries;
    } else {
      RebuildFrom(entries, k + 1, level);
    }
  }

  /** Printing a table and parsing the text into an empty one rebuilds it, in order. */
  lemma PrintThenParse(entries: seq<Entry>, level: int)
    requires 0 < |entries| <= 32 && DistinctNames(entries)
    requires forall e :: e in entries ==> Expressible(e)
    ensures FoldSegments(Settings([], level), Segments(Printed(entries))) == (Settings(entries, level), 0)
  {
    assert entries[..0] == [] && entries[0..] == entries;
    RebuildFrom(entries, 0, level);
  }

  // ---------- The table as a map ----------

  datatype Setting = Setting(name: string, level: int)

  /** Updates always apply; a new name only while fewer than 32 are known. */
  function Updated(m: map<string, int>, s: Setting): map<string, int> {
    if s.name !in m && |m| >= 32 then m else m[s.name := s.level]
  }

  function TableAfter(settings: seq<Setting>): seq<Entry> {
    if settings == [] then []
    else
      var last := settings[|settings| - 1];
      Added(TableAfter(settings[..|settings| - 1]), last.name, last.level)
  }

  function MapAfter(settings: seq<Setting>): map<string, int> {
    if settings == [] then map[]
    else Updated(MapAfter(settings[..|settings| - 1]), settings[|settings| - 1])
  }

  function Names(entries: seq<Entry>): set<string> {
    set e | e in entries :: e.name
  }

  ghost predicate Agrees(m: map<string, int>, e: Entry) {
    e.name in m && m[e.name] == e.level
  }

  ghost predicate Represents(entries: seq<Entry>, m: map<string, int>) {
    && DistinctNames(entries) && |entries| == |m| && m.Keys == Names(entries)
    && forall i :: 0 <= i < |entries| ==> Agrees(m, entries[i])
  }

  lemma Where(entries: seq<Entry>, name: string) returns (k: nat)
    requires name in Names(entries)
    ensures k < |entries| && entries[k].name == name
  {
    var e :| e in entries && e.name == name;
    k :| 0 <= k < |entries| && entries[k] == e;
  }

  lemma {:induction false} AddedWhere(entries: seq<Entry>, i: nat, k: nat, name: string, level: int)
    requires i <= k < |entries| && entries[k].name == name
    requires forall j :: i <= j < k ==> entries[j].name != name
    ensures AddedFrom(entries, i, name, level) == entries[k := Entry(name, level)]
    decreases k - i
  {
    if i < k {
      AddedWhere(entries, i + 1, k, name, level);
    }
  }

  lemma {:induction false} AddedNowhere(entries: seq<Entry>, i: nat, name: string, level: int)
    requires i <= |entries| && |entries| >= MAX_FILTERS
    requires forall j :: i <= j < |entries| ==> entries[j].name != name
    ensures AddedFrom(entries, i, name, level) == entries
    decreases |entries| - i
  {
    if i < |entries| {
      AddedNowhere(entries, i + 1, name, level);
    }
  }

  lemma NotNamed(entries: seq<Entry>, name: string)
    requires name !in Names(entries)
    ensures forall k :: 0 <= k < |entries| ==> entries[k].name != name
  {
    forall k | 0 <= k < |entries|
      ensures entries[k].name != name
    {
      assert entries[k] in entries;
    }
  }

  lemma UpdateNames(entries: seq<Entry>, k: nat, level: int)
    requires k < |entries|
    ensures Names(entries[k := entries[k].(level := level)]) == Names(entries)
  {
    var after := entries[k := entries[k].(level := level)];
    forall name | name in Names(entries)
      ensures name in Names(after)
    {
      var i := Where(entries, name);
      assert after[i] in after;
    }
    forall name | name in Names(after)
      ensures name in Names(entries)
    {
      var i := Where(after, name);
      assert entries[i] in entries;
    }
  }

  lemma UpdateRepresents(entries: seq<Entry>, m: map<string, int>, k: nat, level: int)
    requires Represents(entries, m) && k < |entries|
    ensures Represents(entries[k := entries[k].(level := level)], m[entries[k].name := level])
  {
    UpdateNames(entries, k, level);
    var updated := m[entries[k].name := level];
    assert updated.Keys == m.Keys;
    assert |updated.Keys| == |updated|;
  }

  lemma AppendNames(entries: seq<Entry>, e: Entry)
    ensures Names(entries + [e]) == Names(entries) + {e.name}
  {
    assert forall x :: x in entries + [e] <==> x in entries || x == e;
  }

  lemma AppendDistinct(entries: seq<Entry>, e: Entry)
    requires DistinctNames(entries) && e.name !in Names(entries)
    ensures DistinctNames(entries + [e])
  {
    NotNamed(entries, e.name);
  }

  lemma NamesOtherThan(entries: seq<Entry>, m: map<string, int>, e: Entry, i: nat)
    requires Represents(entries, m) && e.name !in m && i <= |entries|
    ensures Agrees(m[e.name := e.level], (entries + [e])[i])
  {
    if i < |entries| {
      assert (entries + [e])[i] == entries[i];
    }
  }

  lemma GrownMap(m: map<string, int>, name: string, level: int)
    requires name !in m
    ensures m[name := level].Keys == m.Keys + {name} && |m[name := level]| == |m| + 1
  {
    assert m[name := level].Keys == m.Keys + {name};
    assert |m[name := level].Keys| == |m[name := level]|;
  }

  lemma AppendRepresents(entries: seq<Entry>, m: map<string, int>, e: Entry)
    requires Represents(entries, m) && e.name !in m
    ensures Represents(entries + [e], m[e.name := e.level])
  {
    AppendNames(entries, e);
    AppendDistinct(entries, e);
    GrownMap(m, e.name, e.level);
    forall i: nat | i < |entries + [e]|
      ensures Agrees(m[e.name := e.level], (entries + [e])[i])
    {
      NamesOtherThan(entries, m, e, i);
    }
  }

  lemma AddRepresents(entries: seq<Entry>, m: map<string, int>, s: Setting)
    requires Represents(entries, m) && |s.name| <= NAME_LENGTH
    ensures Represents(Added(entries, s.name, s.level), Updated(m, s))
  {
    if s.name in m {
      var k := Where(entries, s.name);
      AddedWhere(entries, 0, k, s.name, s.level);
      UpdateRepresents(entries, m, k, s.level);
    } else if |m| >= MAX_FILTERS {
      NotNamed(entries, s.name);
      AddedNowhere(entries, 0, s.name, s.level);
    } else {
      NotNamed(entries, s.name);
      NewNameAppends(entries, 0, s.name, s.level);
      AppendRepresents(entries, m, Entry(s.name, s.level));
    }
  }

  lemma {:induction false} RunRepresents(settings: seq<Setting>)
    requires forall s :: s in settings ==> |s.name| <= NAME_LENGTH
    ensures Represents(TableAfter(settings), MapAfter(settings))
  {
    if settings != [] {
      RunRepresents(settings[..|settings| - 1]);
      AddRepresents(TableAfter(settings[..|settings| - 1]), MapAfter(settings[..|settings| - 1]), settings[|settings| - 1]);
    }
  }

  /** filter_log looks at the first entry whose name matches. */
  lemma {:induction false} FirstMatchDecides(s: Settings, i: nat, k: nat, name: string, level: int)
    requires i <= k <= |s.entries|
    requires forall j :: i <= j < k ==> !CaseEqual(name, s.entries[j].name)
    requires k < |s.entries| ==> CaseEqual(name, s.entries[k].name)
    ensures PassesFrom(s, i, name, level) <==> level >= if k < |s.entries| then s.entries[k].level else s.level
    decreases k - i
  {
    if i < k {
      FirstMatchDecides(s, i + 1, k, name, level);
    }
  }

  /** filter_log, when not quiet, answers as the map does: by the level of any name that
      matches, else by the global level. */
  ghost predicate AgreesAt(entries: seq<Entry>, m: map<string, int>, global: int, name: string, level: int) {
    var pass := PassesFrom(Settings(entries, global), 0, name, level);
    && (forall key :: key in m && CaseEqual(name, key) ==> (pass <==> level >= m[key]))
    && ((forall key :: key in m ==> !CaseEqual(name, key)) ==> (pass <==> level >= global))
  }

  /** Names that differ only in case have the same level. */
  ghost predicate CaseBlind(m: map<string, int>) {
    forall a, b :: a in m && b in m && CaseEqual(a, b) ==> m[a] == m[b]
  }

  lemma MatchDecides(entries: seq<Entry>, m: map<string, int>, global: int, name: string, key: string) returns (first: string)
    requires Represents(entries, m) && key in m && CaseEqual(name, key)
    ensures first in m && CaseEqual(name, first)
    ensures forall level: int :: PassesFrom(Settings(entries, global), 0, name, level) <==> level >= m[first]
  {
    var i := Where(entries, key);
    var k := FirstMatch(entries, name, i);
    first := entries[k].name;
    assert Agrees(m, entries[k]);
    forall level: int
      ensures PassesFrom(Settings(entries, global), 0, name, level) <==> level >= m[first]
    {
      FirstMatchDecides(Settings(entries, global), 0, k, name, level);
    }
  }

  lemma {:induction false} FirstMatch(entries: seq<Entry>, name: string, i: nat) returns (k: nat)
    requires i < |entries| && CaseEqual(name, entries[i].name)
    ensures k < |entries| && CaseEqual(name, entries[k].name)
    ensures forall j :: 0 <= j < k ==> !CaseEqual(name, entries[j].name)
    decreases i
  {
    if j: nat :| j < i && CaseEqual(name, entries[j].name) {
      k := FirstMatch(entries, name, j);
    } else {
      k := i;
    }
  }

  lemma NothingMatches(entries: seq<Entry>, m: map<string, int>, global: int, name: string, level: int)
    requires Represents(entries, m) && forall key :: key in m ==> !CaseEqual(name, key)
    ensures PassesFrom(Settings(entries, global), 0, name, level) <==> level >= global
  {
    assert forall j :: 0 <= j < |entries| ==> Agrees(m, entries[j]);
    FirstMatchDecides(Settings(entries, global), 0, |entries|, name, level);
  }

  lemma CaseBlindAgrees(entries: seq<Entry>, m: map<string, int>, global: int, name: string, level: int)
    requires Represents(entries, m) && CaseBlind(m)
    ensures AgreesAt(entries, m, global, name, level)
  {
    if key :| key in m && CaseEqual(name, key) {
      var first := MatchDecides(entries, m, global, name, key);
      forall other | other in m && CaseEqual(name, other)
        ensures m[other] == m[first]
      {
        assert CaseEqual(other, first);
      }
    } else {
      NothingMatches(entries, m, global, name, level);
    }
  }

  ghost predicate AlwaysAgrees(entries: seq<Entry>, m: map<string, int>, global: int) {
    forall name, level :: AgreesAt(entries, m, global, name, level)
  }

  lemma AgreementIsCaseBlind(entries: seq<Entry>, m: map<string, int>, global: int)
    requires Represents(entries, m) && AlwaysAgrees(entries, m, global)
    ensures CaseBlind(m)
  {
    forall a, b | a in m && b in m && CaseEqual(a, b)
      ensures m[a] == m[b]
    {
      assert CaseEqual(a, a);
      assert AgreesAt(entries, m, global, a, m[a]) && AgreesAt(entries, m, global, a, m[b]);
    }
  }

  /** After any run of log_add_filter with names that fit, filter_log agrees with the map
      from names to their last accepted levels exactly when names differing only in case
      have equal levels. */
  lemma FilterAgreesExactly(settings: seq<Setting>, global: int)
    requires forall s :: s in settings ==> |s.name| <= 15
    ensures AlwaysAgrees(TableAfter(settings), MapAfter(settings), global) <==> CaseBlind(MapAfter(settings))
  {
    var entries, m := TableAfter(settings), MapAfter(settings);
    RunRepresents(settings);
    if CaseBlind(m) {
      forall name, level
        ensures AgreesAt(entries, m, global, name, level)
      {
        CaseBlindAgrees(entries, m, global, name, level);
      }
    }
    if AlwaysAgrees(entries, m, global) {
      AgreementIsCaseBlind(entries, m, global);
    }
  }

  /** Of two names differing only in case, the one added first decides for both. */
  lemma CaseVariantShadows(first: Setting, second: Setting, global: int, name: string, level: int)
    requires |first.name| <= NAME_LENGTH && first.name != second.name
    requires CaseEqual(first.name, second.name) && CaseEqual(name, first.name)
    ensures MapAfter([first, second]) == map[first.name := first.level, second.name := second.level]
    ensures PassesFrom(Settings(TableAfter([first, second]), global), 0, name, level) <==> level >= first.level
  {
    var settings := [first, second];
    assert settings[..1] == [first] && [first][..0] == [];
    assert MapAfter([first]) == map[first.name := first.level];
    NewNameAppends([], 0, first.name, first.level);
    assert TableAfter([first]) == [Entry(first.name, first.level)];
    NewNameAppends(TableAfter([first]), 0, second.name, second.level);
    assert CaseEqual(first.name, second.name);
    assert TableAfter(settings) == Added(TableAfter([first]), second.name, second.level);
    assert TableAfter(settings)[0] == Entry(first.name, first.level);
    FirstMatchDecides(Settings(TableAfter(settings), global), 0, 0, name, level);
  }

  // ---------- Names that do not fit ----------

  ghost predicate AllCut(entries: seq<Entry>) {
    forall k :: 0 <= k < |entries| ==> |entries[k].name| <= NAME_LENGTH
  }

  lemma {:induction false} LongNameAppends(entries: seq<Entry>, i: nat, name: string, level: int)
    requires AllCut(entries) && |name| > NAME_LENGTH && i <= |entries|
    ensures AddedFrom(entries, i, name, level) ==
              if |entries| >= MAX_FILTERS then entries else entries + [Entry(Truncated(name), level)]
    decreases |entries| - i
  {
    if i < |entries| {
      LongNameAppends(entries, i + 1, name, level);
    }
  }

  lemma {:induction false} AddedTwice(entries: seq<Entry>, i: nat, name: string, a: int, b: int)
    requires |name| <= NAME_LENGTH && i <= |entries|
    ensures AddedFrom(AddedFrom(entries, i, name, a), i, name, b) == AddedFrom(entries, i, name, b)
    decreases |entries| - i
  {
    if i < |entries| {
      if entries[i].name == name {
        assert entries[i := entries[i].(level := a)][i := Entry(name, b)] == entries[i := Entry(name, b)];
      } else {
        AddedTwice(entries, i + 1, name, a, b);
        AddedKeepsEarlier(entries, i + 1, i, name, a);
      }
    } else if |entries| < MAX_FILTERS {
      var longer := entries + [Entry(name, a)];
      assert longer[|entries| := Entry(name, b)] == entries + [Entry(name, b)];
    }
  }

  lemma {:induction false} AddedKeepsEarlier(entries: seq<Entry>, i: nat, k: nat, name: string, level: int)
    requires k < i <= |entries|
    ensures |AddedFrom(entries, i, name, level)| >= |entries| && AddedFrom(entries, i, name, level)[k] == entries[k]
    decreases |entries| - i
  {
    if i < |entries| && entries[i].name != name {
      AddedKeepsEarlier(entries, i + 1, k, name, level);
    }
  }

  /** A second call for a name replaces the first one's effect exactly when the name was
      not cut to fit, or the table had no room for it (or only just, with the same level). */
  lemma SecondCallUpdatesExactly(entries: seq<Entry>, name: string, a: int, b: int)
    requires AllCut(entries)
    ensures Added(Added(entries, name, a), name, b) == Added(entries, name, b)
            <==> |name| <= 15 || |entries| >= 32 || (|entries| == 31 && a == b)
  {
    if |name| <= NAME_LENGTH {
      AddedTwice(entries, 0, name, a, b);
    } else {
      var cut := Truncated(name);
      LongNameAppends(entries, 0, name, a);
      LongNameAppends(entries, 0, name, b);
      if |entries| < MAX_FILTERS {
        var longer := entries + [Entry(cut, a)];
        LongNameAppends(longer, 0, name, b);
        assert longer[|entries|] == Entry(cut, a) && (entries + [Entry(cut, b)])[|entries|] == Entry(cut, b);
      }
    }
  }

  lemma {:induction false} AddedKeepsCut(entries: seq<Entry>, i: nat, name: string, level: int)
    requires AllCut(entries) && i <= |entries|
    ensures AllCut(AddedFrom(entries, i, name, level))
    decreases |entries| - i
  {
    if i < |entries| && entries[i].name != name {
      AddedKeepsCut(entries, i + 1, name, level);
    }
  }

  lemma {:induction false} RunKeepsCut(settings: seq<Setting>)
    ensures AllCut(TableAfter(settings))
  {
    if settings != [] {
      var last := settings[|settings| - 1];
      RunKeepsCut(settings[..|settings| - 1]);
      AddedKeepsCut(TableAfter(settings[..|settings| - 1]), 0, last.name, last.level);
    }
  }

  /** A name that does not fit is never found: whatever was set for it, the global level decides. */
  lemma LongNamesNeverFound(settings: seq<Setting>, global: int, name: string, level: int)
    requires |name| > 15
    ensures PassesFrom(Settings(TableAfter(settings), global), 0, name, level) <==> level >= global
  {
    var entries := TableAfter(settings);
    RunKeepsCut(settings);
    FirstMatchDecides(Settings(entries, global), 0, |entries|, name, level);
  }

  /** It is stored under its first fifteen characters, and found by those. */
  lemma CutNameFound(entries: seq<Entry>, name: string, stored: int, global: int, level: int)
    requires AllCut(entries) && |name| > 15 && |entries| < 32
    requires forall k :: 0 <= k < |entries| ==> !CaseEqual(name[..15], entries[k].name)
    ensures PassesFrom(Settings(Added(entries, name, stored), global), 0, name[..15], level) <==> level >= stored
  {
    LongNameAppends(entries, 0, name, stored);
    var after := Settings(entries + [Entry(name[..15], stored)], global);
    FirstMatchDecides(after, 0, |entries|, name[..15], level);
  }
}
