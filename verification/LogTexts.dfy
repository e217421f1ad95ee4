/** What log_set_level_from_string and parse_level_string make of a text, stated on the
    text itself (log.c). */
module LogTexts {
  import opened Wrappers
  import opened LogFilters
  import opened LogTables

  /** Settings and result after log_set_level_from_string. */
  function After(s: Settings, text: string): (Settings, int) {
    FoldSegments(s, Segments(text))
  }

  // ---------- One segment ----------

  /** A text that is only a level sets the global level, and nothing else. */
  lemma PlainLevel(s: Settings, text: string)
    requires ',' !in text && (':' !in text || text[0] == ':')
    ensures After(s, text) == if ParseLevel(text) >= 0 then (s.(level := ParseLevel(text)), 0) else (s, -1)
  {
    IndexOfIsFirst(text, ',');
    IndexOfIsFirst(text, ':');
    FoldStep(s, text);
  }

  lemma NamedSegment(name: string, value: string)
    requires name != "" && ':' !in name
    ensures SegmentParts(name + ":" + value) == (Some(name), value)
  {
    var text := name + ":" + value;
    IndexOfAfter(name, ':', value);
    assert text[..|name|] == name && text[|name| + 1..] == value;
  }

  lemma OneSegment(s: Settings, text: string)
    requires ',' !in text
    ensures After(s, text) == var next := SegmentMeaning(s, text); if next.None? then (s, -1) else (next.value, 0)
  {
    IndexOfIsFirst(text, ',');
    FoldStep(s, text);
  }

  /** A name and a level set the level of that name, and nothing else. */
  lemma NamedLevel(s: Settings, name: string, value: string)
    requires name != "" && ':' !in name && ',' !in name && ',' !in value
    ensures After(s, name + ":" + value) ==
              if ParseLevel(value) >= 0 then (s.(entries := Added(s.entries, name, ParseLevel(value))), 0) else (s, -1)
  {
    NamedSegment(name, value);
    OneSegment(s, name + ":" + value);
  }

  // ---------- Several segments ----------

  /** Segments take effect from left to right. A bad one ends the text with -1, a full table
      or an empty rest with 0; a single trailing comma changes nothing. */
  lemma FirstThenRest(s: Settings, first: string, rest: string)
    requires ',' !in first
    ensures After(s, first + "," + rest) ==
              var (next, ret) := After(s, first);
              if ret < 0 then (s, -1)
              else if rest == "" || |next.entries| >= 32 then (next, 0)
              else After(next, rest)
  {
    var text := first + "," + rest;
    IndexOfIsFirst(first, ',');
    IndexOfAfter(first, ',', rest);
    assert text[..|first|] == first && text[|first| + 1..] == rest;
    FoldStep(s, first);
    FoldStep(s, text);
  }

  // ---------- Levels ----------

  /** The levels by name. */
  const NAMES: seq<string> := ["TRACE", "DEBUG", "INFO", "WARN", "ERROR", "FATAL"]

  lemma DifferentNames(s: string, i: nat, j: nat)
    requires i < j < 6 && CaseEqual(s, NAMES[j])
    ensures !CaseEqual(s, LEVEL_STRINGS[i])
  {
    assert Lower(s[0]) == Lower(NAMES[j][0]);
    assert Lower(NAMES[j][0]) != Lower(NAMES[i][0]) && NAMES[i] == LEVEL_STRINGS[i];
  }

  lemma {:induction false} LevelSkips(s: string, i: nat, j: nat)
    requires i <= j <= 6 && forall k: nat :: i <= k < j ==> !CaseEqual(s, LEVEL_STRINGS[k])
    ensures LevelFrom(s, i) == LevelFrom(s, j)
    decreases j - i
  {
    if i < j {
      LevelSkips(s, i + 1, j);
    }
  }

  /** The six names, in any case, are the levels 0 to 5. */
  lemma NamesAreLevels(s: string, j: nat)
    requires j < 6 && CaseEqual(s, NAMES[j])
    ensures ParseLevel(s) == j
  {
    forall i: nat | i < j
      ensures !CaseEqual(s, LEVEL_STRINGS[i])
    {
      DifferentNames(s, i, j);
    }
    LevelSkips(s, 0, j);
    assert NAMES[j] == LEVEL_STRINGS[j];
  }

  /** The white space that strtol skips. */
  predicate Blank(c: char) {
    c == ' ' || c == '\t' || c == '\n' || c == '\U{0B}' || c == '\U{0C}' || c == '\r'
  }

  lemma NoName(s: string)
    requires s != "" && (Blank(s[0]) || s[0] == '+' || s[0] == '-' || IsDigit(s[0]))
    ensures ParseLevel(s) == LevelFrom(s, 6)
  {
    forall i: nat | i < 6
      ensures !CaseEqual(s, LEVEL_STRINGS[i])
    {
      assert Lower(LEVEL_STRINGS[i][0]) != Lower(s[0]);
    }
    LevelSkips(s, 0, 6);
  }

  lemma {:induction false} BlanksSkipped(blanks: string, rest: string)
    requires forall c :: c in blanks ==> Blank(c)
    requires rest == "" || !Blank(rest[0])
    ensures SkipSpaces(blanks + rest) == rest
  {
    if blanks == "" {
      assert "" + rest == rest;
    } else {
      assert blanks[0] in blanks;
      BlanksSkipped(blanks[1..], rest);
      assert (blanks + rest)[1..] == blanks[1..] + rest;
    }
  }

  lemma DigitsThenOther(n: nat, tail: string)
    requires tail == "" || !IsDigit(tail[0])
    ensures DigitsValue(Decimal(n) + tail, 0) == n
  {
    DecimalValue(n);
    DigitsOfAppend(Decimal(n), tail, 0);
  }

  function Signed(sign: string, n: int): int {
    if sign == "-" then -n else n
  }

  /** What strtol reads after the white space. */
  lemma SignedNumber(blanks: string, sign: string, n: nat, tail: string)
    requires forall c :: c in blanks ==> Blank(c)
    requires sign == "" || sign == "+" || sign == "-"
    requires tail == "" || !IsDigit(tail[0])
    ensures Strtol(blanks + (sign + (Decimal(n) + tail))) ==
              Some(Clamp(Signed(sign, n), -0x8000_0000_0000_0000, 0x7fff_ffff_ffff_ffff))
  {
    var digits := Decimal(n) + tail;
    var t := sign + digits;
    assert Decimal(n)[0] in Decimal(n) && digits[0] == Decimal(n)[0];
    assert sign == "" ==> t == digits;
    assert sign != "" ==> t[0] == sign[0] && t[1..] == digits;
    BlanksSkipped(blanks, t);
    DigitsThenOther(n, tail);
  }

  /** A number, with white space and a sign before it and any other text after it, is held
      to 64 bits and then cut to 32; a result that is negative as an int is no level. */
  lemma NumbersAreLevels(blanks: string, sign: string, n: nat, tail: string)
    requires forall c :: c in blanks ==> Blank(c)
    requires sign == "" || sign == "+" || sign == "-"
    requires tail == "" || !IsDigit(tail[0])
    ensures var value := Signed(sign, n);
            var held := if value < -0x8000_0000_0000_0000 then -0x8000_0000_0000_0000
                        else if value > 0x7fff_ffff_ffff_ffff then 0x7fff_ffff_ffff_ffff else value;
            var low := held % 0x1_0000_0000;
            ParseLevel(blanks + (sign + (Decimal(n) + tail))) == if low < 0x8000_0000 then low else -1
  {
    var text := blanks + (sign + (Decimal(n) + tail));
    SignedNumber(blanks, sign, n, tail);
    assert Decimal(n)[0] in Decimal(n);
    assert text[0] == if blanks != "" then blanks[0] else if sign != "" then sign[0] else Decimal(n)[0];
    assert blanks != "" ==> blanks[0] in blanks;
    NoName(text);
  }

  /** Anything else is no level. */
  lemma OthersAreNot(blanks: string, sign: string, tail: string)
    requires forall c :: c in blanks ==> Blank(c)
    requires sign == "" || sign == "+" || sign == "-"
    requires tail == "" || !IsDigit(tail[0])
    requires sign == "" && tail != "" ==> !Blank(tail[0]) && tail[0] != '+' && tail[0] != '-'
    requires forall j: nat :: j < 6 ==> !CaseEqual(blanks + (sign + tail), NAMES[j])
    ensures ParseLevel(blanks + (sign + tail)) == -1
  {
    var t := sign + tail;
    assert sign == "" ==> t == tail;
    assert sign != "" ==> t[0] == sign[0] && t[1..] == tail;
    BlanksSkipped(blanks, t);
    forall j: nat | j < 6
      ensures !CaseEqual(blanks + t, LEVEL_STRINGS[j])
    {
      assert NAMES[j] == LEVEL_STRINGS[j];
    }
    LevelSkips(blanks + t, 0, 6);
  }

  /** A decimal number sets the global level, and keeps the entries. */
  lemma NumberSetsLevel(s: Settings, n: nat)
    requires n < 0x8000_0000
    ensures After(s, Decimal(n)) == (s.(level := n), 0)
  {
    ParseDecimal(n);
    PlainLevel(s, Decimal(n));
  }

  // ---------- Letters ----------

  /** The same character, or the two cases of one of the letters A to Z. */
  predicate SameLetter(c: char, d: char) {
    || c == d
    || ('A' <= c <= 'Z' && d as int == c as int + 32)
    || ('A' <= d <= 'Z' && c as int == d as int + 32)
  }

  lemma LowerExactly(c: char, d: char)
    ensures Lower(c) == Lower(d) <==> SameLetter(c, d)
  {
  }

  /** Names match exactly when they are the same but for the case of A to Z. */
  lemma CaseEqualExactly(s: string, t: string)
    ensures CaseEqual(s, t) <==> |s| == |t| && forall i :: 0 <= i < |s| ==> SameLetter(s[i], t[i])
  {
    if |s| == |t| {
      forall i | 0 <= i < |s|
        ensures Lower(s[i]) == Lower(t[i]) <==> SameLetter(s[i], t[i])
      {
        LowerExactly(s[i], t[i]);
      }
    }
  }
}
