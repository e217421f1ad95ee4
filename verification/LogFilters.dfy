/** The log filter table and its specification strings (log.c). Strings are C strings:
    sequences of characters other than NUL. */
module LogFilters {
  import opened Wrappers

  const MAX_FILTERS := 32
  const NAME_LENGTH := 15
  const LOG_INFO := 2
  const LEVEL_STRINGS := ["TRACE", "DEBUG", "INFO", "WARN", "ERROR", "FATAL"]

  datatype Entry = Entry(name: string, level: int)

  /** The table and the global level. */
  datatype Settings = Settings(entries: seq<Entry>, level: int)

  // ---------- C library functions ----------

  function Lower(c: char): char {
    if 'A' <= c <= 'Z' then c - 'A' + 'a' else c
  }

  /** strcasecmp(s, t) == 0 */
  predicate CaseEqual(s: string, t: string) {
    |s| == |t| && forall i :: 0 <= i < |s| ==> Lower(s[i]) == Lower(t[i])
  }

  predicate IsDigit(c: char) {
    '0' <= c <= '9'
  }

  predicate IsSpace(c: char) {
    c == ' ' || '\t' <= c <= '\r'
  }

  function SkipSpaces(s: string): string {
    if s != "" && IsSpace(s[0]) then SkipSpaces(s[1..]) else s
  }

  /** The value of the leading digits of s, after those that made up acc. */
  function DigitsValue(s: string, acc: nat): nat
    decreases |s|
  {
    if s != "" && IsDigit(s[0]) then DigitsValue(s[1..], 10 * acc + (s[0] - '0') as nat) else acc
  }

  function Clamp(x: int, low: int, high: int): int {
    if x < low then low else if x > high then high else x
  }

  /** strtol in base ten on a 64-bit long; None when there is no number. */
  function Strtol(s: string): Option<int> {
    var t := SkipSpaces(s);
    var signed := t != "" && (t[0] == '-' || t[0] == '+');
    var digits := if signed then t[1..] else t;
    if digits == "" || !IsDigit(digits[0]) then None
    else
      var value: int := DigitsValue(digits, 0);
      Some(Clamp(if signed && t[0] == '-' then -value else value, -0x8000_0000_0000_0000, 0x7fff_ffff_ffff_ffff))
  }

  /** The cast of a long to a 32-bit int. */
  function ToInt(x: int): int {
    var low := x % 0x1_0000_0000;
    if low >= 0x8000_0000 then low - 0x1_0000_0000 else low
  }

  /** The position of the first c in s. */
  function IndexOf(s: string, c: char): (k: Option<nat>)
    ensures k.Some? ==> k.value < |s| && s[k.value] == c
  {
    if s == "" then None
    else if s[0] == c then Some(0)
    else
      var rest := IndexOf(s[1..], c);
      if rest.None? then None else Some(rest.value + 1)
  }

  lemma {:induction false} IndexOfIsFirst(s: string, c: char)
    ensures IndexOf(s, c).None? <==> c !in s
    ensures IndexOf(s, c).Some? ==> c !in s[..IndexOf(s, c).value]
  {
    if s != "" && s[0] != c {
      IndexOfIsFirst(s[1..], c);
      if IndexOf(s, c).Some? {
        var k := IndexOf(s, c).value;
        assert s[..k] == [s[0]] + s[1..][..k - 1];
      }
    }
  }

  // ---------- Meaning of the operations ----------

  /** The first level at or after i that s names, or the number it starts with; -1 if neither. */
  function LevelFrom(s: string, i: nat): int
    decreases |LEVEL_STRINGS| - i
  {
    if i < |LEVEL_STRINGS| then
      if CaseEqual(s, LEVEL_STRINGS[i]) then i else LevelFrom(s, i + 1)
    else
      var number := Strtol(s);
      if number.Some? && ToInt(number.value) >= 0 then ToInt(number.value) else -1
  }

  function ParseLevel(s: string): int {
    LevelFrom(s, 0)
  }

  function Truncated(name: string): string {
    if |name| <= NAME_LENGTH then name else name[..NAME_LENGTH]
  }

  /** An existing name is updated; a new one is appended while there is room. */
  function Added(entries: seq<Entry>, name: string, level: int): seq<Entry> {
    AddedFrom(entries, 0, name, level)
  }

  function AddedFrom(entries: seq<Entry>, i: nat, name: string, level: int): seq<Entry>
    decreases |entries| - i
  {
    if i < |entries| then
      if entries[i].name == name then entries[i := entries[i].(level := level)]
      else AddedFrom(entries, i + 1, name, level)
    else if |entries| >= MAX_FILTERS then entries
    else entries + [Entry(Truncated(name), level)]
  }

  /** What filter_log decides from entry i on. */
  predicate PassesFrom(s: Settings, i: nat, name: string, level: int)
    decreases |s.entries| - i
  {
    if i < |s.entries| then
      if CaseEqual(name, s.entries[i].name) then level >= s.entries[i].level
      else PassesFrom(s, i + 1, name, level)
    else level >= s.level
  }

  function Segments(s: string): (segments: seq<string>)
    ensures segments != []
    decreases |s|
  {
    var comma := IndexOf(s, ',');
    if comma.None? then [s] else [s[..comma.value]] + Segments(s[comma.value + 1..])
  }

  /** A segment's name, if it has one, and the text of its level. */
  function SegmentParts(segment: string): (Option<string>, string) {
    var colon := IndexOf(segment, ':');
    if colon.None? || colon.value == 0 then (None, segment)
    else (Some(segment[..colon.value]), segment[colon.value + 1..])
  }

  function Effect(s: Settings, parts: (Option<string>, string)): Option<Settings> {
    var level := ParseLevel(parts.1);
    if level < 0 then None
    else if parts.0.None? then Some(s.(level := level))
    else Some(s.(entries := Added(s.entries, parts.0.value, level)))
  }

  function SegmentMeaning(s: Settings, segment: string): Option<Settings> {
    Effect(s, SegmentParts(segment))
  }

  /** The segments applied in order: up to the first bad one (failure, earlier effects
      kept), to a trailing empty one, or until the table is full. */
  function FoldSegments(s: Settings, segments: seq<string>): (Settings, int)
    requires segments != []
    decreases |segments|
  {
    var next := SegmentMeaning(s, segments[0]);
    if next.None? then (s, -1)
    else if segments[1..] == [] || segments[1..] == [""] || |next.value.entries| >= MAX_FILTERS then (next.value, 0)
    else FoldSegments(next.value, segments[1..])
  }

  // ---------- The table ----------

  class Logger {
    const filter: array<Entry>
    var filterLen: nat
    var level: int
    var quiet: bool

    ghost predicate Valid()
      reads this
    {
      filter.Length == MAX_FILTERS && filterLen <= filter.Length
    }

    ghost function View(): Settings
      requires Valid()
      reads this, filter
    {
      Settings(filter[..filterLen], level)
    }

    constructor ()
      ensures Valid() && View() == Settings([], 0) && !quiet && fresh(filter)
    {
      filter := new Entry[MAX_FILTERS](_ => Entry("", 0));
      filterLen, level, quiet := 0, 0, false;
    }

    method AddFilter(name: string, level: int)
      requires Valid()
      modifies this`filterLen, filter
      ensures Valid()
      ensures View() == old(View()).(entries := Added(old(View().entries), name, level))
    {
      ghost var before := View().entries;
      var i := 0;
      while i < filterLen && filter[i].name != name
        invariant i <= filterLen
        invariant Added(before, name, level) == AddedFrom(before, i, name, level)
      {
        i := i + 1;
      }
      if i == filterLen {
        if filterLen >= MAX_FILTERS {
          return;
        }
        filter[filterLen] := Entry(Truncated(name), 0);
        filterLen := filterLen + 1;
      }
      filter[i] := filter[i].(level := level);
    }

    method FilterLog(name: string, level: int) returns (pass: bool)
      requires Valid()
      ensures pass <==> !quiet && PassesFrom(View(), 0, name, level)
    {
      if quiet {
        return false;
      }
      for i := 0 to filterLen
        invariant PassesFrom(View(), 0, name, level) == PassesFrom(View(), i, name, level)
      {
        if CaseEqual(name, filter[i].name) {
          return level >= filter[i].level;
        }
      }
      pass := level >= this.level;
    }
  }

  // ---------- The specification string ----------

  method ParseLevelString(s: string) returns (level: int)
    ensures level == ParseLevel(s)
  {
    for i := 0 to 6
      invariant ParseLevel(s) == LevelFrom(s, i)
    {
      if CaseEqual(s, LEVEL_STRINGS[i]) {
        return i;
      }
    }
    var number := Strtol(s);
    if number.None? {
      return -1;
    }
    level := ToInt(number.value);
    if level < 0 {
      level := -1;
    }
  }

  function FirstSegment(text: string): string {
    var comma := IndexOf(text, ',');
    if comma.None? then text else text[..comma.value]
  }

  function OtherSegments(text: string): string
    requires IndexOf(text, ',').Some?
  {
    text[IndexOf(text, ',').value + 1..]
  }

  /** The fold at one point of the string. */
  lemma FoldStep(s: Settings, text: string)
    ensures FoldSegments(s, Segments(text)) ==
              var next := SegmentMeaning(s, FirstSegment(text));
              if next.None? then (s, -1)
              else if IndexOf(text, ',').None? || OtherSegments(text) == "" || |next.value.entries| >= MAX_FILTERS
              then (next.value, 0)
              else FoldSegments(next.value, Segments(OtherSegments(text)))
  {
    if IndexOf(text, ',').Some? {
      OneEmptySegment(OtherSegments(text));
      assert Segments(text)[1..] == Segments(OtherSegments(text));
    }
  }

  lemma OneEmptySegment(s: string)
    ensures Segments(s) == [""] <==> s == ""
  {
  }

  method SetLevel(logger: Logger, name: Option<string>, value: string) returns (ok: bool)
    requires logger.Valid()
    modifies logger`level, logger`filterLen, logger.filter
    ensures logger.Valid()
    ensures var effect := Effect(old(logger.View()), (name, value));
            ok == effect.Some? && logger.View() == if ok then effect.value else old(logger.View())
  {
    var loglevel := ParseLevelString(value);
    if loglevel < 0 {
      return false;
    }
    if name.None? {
      logger.level := loglevel;
    } else {
      logger.AddFilter(name.value, loglevel);
    }
    ok := true;
  }

  lemma EmptySegmentIsBad(s: Settings)
    ensures SegmentMeaning(s, "").None?
  {
    assert LevelFrom("", 6) == -1;
    assert LevelFrom("", 3) == LevelFrom("", 4) == LevelFrom("", 5);
  }

  method SetSegment(logger: Logger, segment: string) returns (ok: bool)
    requires logger.Valid()
    modifies logger`level, logger`filterLen, logger.filter
    ensures logger.Valid()
    ensures var meaning := SegmentMeaning(old(logger.View()), segment);
            ok == meaning.Some? && logger.View() == if ok then meaning.value else old(logger.View())
  {
    var k := IndexOf(segment, ':');
    if k.None? || k.value == 0 {
      ok := SetLevel(logger, None, segment);
    } else {
      ok := SetLevel(logger, Some(segment[..k.value]), segment[k.value + 1..]);
    }
  }

  /** log_set_level_from_string; None stands for a null pointer. A pointer into the string
      being cut is modelled by the string it denotes. */
  method SetLevelFromString(logger: Logger, level: Option<string>) returns (ret: int)
    requires logger.Valid()
    modifies logger`level, logger`filterLen, logger.filter
    ensures logger.Valid()
    ensures (logger.View(), ret) ==
              if level.None? then (old(logger.View()), -1) else FoldSegments(old(logger.View()), Segments(level.value))
  {
    if level.None? {
      return -1;
    }
    var s := level.value;
    while true
      invariant logger.Valid()
      invariant FoldSegments(old(logger.View()), Segments(level.value)) == FoldSegments(logger.View(), Segments(s))
      decreases |s|
    {
      FoldStep(logger.View(), s);
      EmptySegmentIsBad(logger.View());
      var t := IndexOf(s, ',');
      var segment := if t.Some? then s[..t.value] else s;
      if t == Some(0) {
        return -1;
      }
      var ok := SetSegment(logger, segment);
      if !ok {
        return -1;
      }
      if t.None? {
        return 0;
      }
      s := s[t.value + 1..];
      if s == "" || logger.filterLen >= MAX_FILTERS {
        return 0;
      }
    }
  }
}
