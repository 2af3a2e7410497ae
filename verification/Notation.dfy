/** The notation, read off its texts: ranges, brackets that do not match, and the documented example. */
module Notation {
  import opened Decimal
  import opened Options
  import opened Distinctness
  import opened Expansion
  import opened Meaning
  import opened NameAlgebra

  // ---------- ranges ----------

  ghost predicate IsRange(text: string, low: string, high: string) {
    IsNumeral(low) && IsNumeral(high) && text == low + "-" + high
  }

  lemma {:induction false} DashOf(text: string, low: string, high: string)
    requires IsRange(text, low, high)
    ensures !IsNumeral(text) && RangeDash(text) == Some(|low|) && text[..|low|] == low && text[|low| + 1..] == high
  {
    assert text == low + ['-'] + high;
    assert text[|low|] == '-' && !IsDigit('-');
    FindAt(low, '-', high);
    assert text[..|low|] == low && text[|low| + 1..] == high;
  }

  /** A number stands for itself; a range for its numbers, counted up at the width of the first; all else is refused. */
  lemma {:induction false} RangeIs(prefix: string, text: string)
    ensures IsNumeral(text) ==> RangeNames(prefix, text) == Ok([prefix + text])
    ensures forall low, high :: IsRange(text, low, high) ==>
              RangeNames(prefix, text)
              == if Value(high) < Value(low) then Err(StartAfterStop)
              else if Value(high) - Value(low) > MAX_SIZE then Err(RangeTooLarge)
              else if Value(high) + 1 > LONG_MAX then Err(LongOverflow)
              else Ok(Numbered(prefix, Value(low), Value(high) + 1, |low|))
    ensures !IsNumeral(text) && !(exists low, high :: IsRange(text, low, high)) ==>
              RangeNames(prefix, text) == Err(BadRange)
  {
    hide IsNumeral, Value, Find;
    forall low, high | IsRange(text, low, high)
      ensures !IsNumeral(text) && RangeDash(text) == Some(|low|) && text[..|low|] == low && text[|low| + 1..] == high
    {
      DashOf(text, low, high);
    }
    if !IsNumeral(text) && RangeDash(text).Some? {
      var dash := RangeDash(text).value;
      DashFound(text, dash);
    }
  }

  lemma {:induction false} DashFound(text: string, dash: nat)
    requires RangeDash(text) == Some(dash)
    ensures dash < |text| && IsRange(text, text[..dash], text[dash + 1..])
  {
    assert text == text[..dash] + "-" + text[dash + 1..];
  }

  // ---------- brackets that do not match ----------

  /** How many more brackets open than close. */
  function Opens(s: string): int {
    if s == "" then 0
    else Opens(s[..|s| - 1]) + (if s[|s| - 1] == '[' then 1 else if s[|s| - 1] == ']' then -1 else 0)
  }

  /** Some beginning of the text opens this many. */
  ghost predicate Reaches(s: string, n: int) {
    exists k :: 0 <= k <= |s| && Opens(s[..k]) == n
  }

  predicate BracketError(e: Error) {
    e == NestedBrackets || e == UnbalancedBrackets
  }

  lemma {:induction false} PartHasNoBracketError(part: string)
    requires IsPart(part)
    ensures ExpandPart(part).Err? ==> !BracketError(ExpandPart(part).error)
    decreases |part|
  {
    if part != "" {
      SegmentConsumes(part);
      var seg := MatchSegment(part);
      PartHasNoBracketError(seg.rest);
      if seg.ranges.Some? {
        RangesHaveNoBracketError(seg.prefix, SplitCommas(seg.ranges.value));
      }
    }
  }

  lemma {:induction false} RangesHaveNoBracketError(prefix: string, pieces: seq<string>)
    ensures RangelistNames(prefix, pieces).Err? ==> !BracketError(RangelistNames(prefix, pieces).error)
    decreases |pieces|
  {
    if pieces != [] {
      RangesHaveNoBracketError(prefix, pieces[1..]);
    }
  }

  lemma {:induction false} OpensStep(s: string, k: nat)
    requires k < |s|
    ensures Opens(s[..k + 1]) == Opens(s[..k]) + (if s[k] == '[' then 1 else if s[k] == ']' then -1 else 0)
  {
    assert s[..k + 1][..k] == s[..k];
  }

  /** The scanner's level is the number of open brackets. */
  lemma {:induction false} ScanErrors(text: string, k: nat, level: int, part: string, results: seq<string>)
    requires k <= |text| && 0 <= level <= 1 && Level(part, 0) == level && level == Opens(text[..k])
    ensures var r := Scan(text[k..], level, part, results);
      && (r == Err(NestedBrackets) ==> Reaches(text, 2))
      && (r == Err(UnbalancedBrackets) ==> Reaches(text, -1) || Opens(text) > 0)
    decreases |text| - k
  {
    hide ExpandPart, Opens;
    if k == |text| {
      assert text[..k] == text && text[k..] == "";
    } else {
      var s, c := text[k..], text[k];
      assert s[1..] == text[k + 1..] && s[0] == c;
      OpensStep(text, k);
      if c == ',' && level == 0 {
        var names := if part == "" then Ok([]) else ExpandPart(part);
        if names.Ok? {
          ScanErrors(text, k + 1, 0, "", results + names.value);
        } else {
          PartHasNoBracketError(part);
        }
      } else {
        LevelConcat(part, [c], 0);
        if !(c == '[' && level == 1) && !(c == ']' && level == 0) {
          LevelOne(level, c);
          ScanErrors(text, k + 1, NextLevel(level, c), part + [c], results);
        }
      }
    }
  }

  lemma {:induction false} LevelOne(level: int, c: char)
    ensures Level([c], level) == NextLevel(level, c)
  {
    assert [c][1..] == "";
  }

  /**
   * What a bracket error says: nested brackets are two open at once; unbalanced ones are one closed that was not open,
   * or one open at the end.
   */
  lemma {:induction false} BracketErrors(s: string, allowDuplicates: bool)
    ensures Expand(s, allowDuplicates) == Err(NestedBrackets) ==> Reaches(s, 2)
    ensures Expand(s, allowDuplicates) == Err(UnbalancedBrackets) ==> Reaches(s, -1) || Opens(s) > 0
  {
    hide Scan;
    var text := s + ",";
    assert text[0..] == text && text[..0] == "";
    ScanErrors(text, 0, 0, "", []);
    assert text[..|s|] == s;
    OpensStep(text, |s|);
    assert text[..|s| + 1] == text;
    WithoutComma(s, 2);
    WithoutComma(s, -1);
  }

  lemma {:induction false} WithoutComma(s: string, n: int)
    ensures Reaches(s + ",", n) ==> Reaches(s, n)
  {
    hide Opens;
    var text := s + ",";
    if k :| 0 <= k <= |text| && Opens(text[..k]) == n {
      OpensStep(text, |s|);
      assert text[..|s|] == s == s[..|s|];
      if k <= |s| {
        assert text[..k] == s[..k];
      }
    }
  }

  // ---------- the documented example ----------

  /** A name and one bracket group with one range. */
  lemma {:induction false} RangePart(name: string, low: string, high: string)
    requires Unmarked(name) && IsNumeral(low) && IsNumeral(high) && Value(low) <= Value(high)
    requires Value(high) + 1 <= LONG_MAX
    ensures var part := name + ("[" + (low + "-" + high) + "]");
      && WellFormed(part) && IsPart(part) && !Overflows(part)
      && Names(part) == Prepend(name, Numbered("", Value(low), Value(high) + 1, |low|))
  {
    hide Value, Unmarked;
    var inside := low + "-" + high;
    var group := "[" + inside + "]";
    DashOf(inside, low, high);
    RangeTextIsPlain(low, high);
    assert [inside][1..] == [];
    assert GroupMeaning([inside]) == Some(RangeMeaning(inside).value + []);
    NamesGroup(inside, "");
    assert group + "" == group;
    MatchBracket(inside, "");
    var numbers := RangeMeaning(inside).value;
    assert numbers == Numbered("", Value(low), Value(high) + 1, |low|);
    assert numbers + [] == numbers && Names("") == [""];
    CrossEmpty(numbers);
    assert Names(group) == numbers;
    NamesUnmarked(name, group);
    MatchUnmarked(name, group);
    assert !AnyOverflows([inside]) by { AnyOverflowsStep([inside]); }
    assert name + "" == name;
  }

  lemma {:induction false} CrossEmpty(us: seq<string>)
    ensures Cross(us, [""]) == us
  {
    if us != [] {
      CrossEmpty(us[1..]);
      assert us[0] + "" == us[0];
      assert us == [us[0]] + us[1..];
    }
  }

  lemma {:induction false} RangeTextIsPlain(low: string, high: string)
    requires IsNumeral(low) && IsNumeral(high)
    ensures var inside := low + "-" + high; '[' !in inside && ']' !in inside && SplitCommas(inside) == [inside]
  {
    var inside := low + "-" + high;
    forall i | 0 <= i < |inside| ensures inside[i] == '-' || IsDigit(inside[i]) {
      assert inside[i] == if i < |low| then low[i] else if i == |low| then '-' else high[i - |low| - 1];
    }
    assert Find(inside, ',') == |inside|;
  }

  lemma {:induction false} Digits()
    ensures Value("9") == 9 && Value("11") == 11 && Value("01") == 1 && Value("02") == 2
    ensures Padded(1, 9) == "9" && Padded(1, 10) == "10" && Padded(1, 11) == "11"
    ensures Padded(2, 1) == "01" && Padded(2, 2) == "02"
  {
    assert "9"[..0] == "" && "11"[..1] == "1" && "1"[..0] == "" && "01"[..1] == "0" && "0"[..0] == "";
    assert "02"[..1] == "0";
    assert Shortest(1) == "1" && Shortest(2) == "2" && Shortest(9) == "9";
    assert Shortest(10) == "10" && Shortest(11) == "11";
    assert Zeros(1) == "0";
  }

  lemma {:induction false} Counted()
    ensures Prepend("n", Numbered("", 9, 12, 1)) == ["n9", "n10", "n11"]
    ensures Prepend("d", Numbered("", 1, 3, 2)) == ["d01", "d02"]
  {
    hide Padded;
    Digits();
    var nines, ones := Numbered("", 9, 12, 1), Numbered("", 1, 3, 2);
    assert nines[0] == "" + Padded(1, 9) == "9" && nines[1] == "" + Padded(1, 10) == "10";
    assert nines[2] == "" + Padded(1, 11) == "11";
    assert ones[0] == "" + Padded(2, 1) == "01" && ones[1] == "" + Padded(2, 2) == "02";
    assert "n" + "9" == "n9" && "n" + "10" == "n10" && "n" + "11" == "n11";
    assert "d" + "01" == "d01" && "d" + "02" == "d02";
    assert Prepend("n", nines)[0] == "n9" && Prepend("n", nines)[1] == "n10" && Prepend("n", nines)[2] == "n11";
    assert Prepend("d", ones)[0] == "d01" && Prepend("d", ones)[1] == "d02";
  }

  lemma {:induction false} FirstPart()
    ensures "n[9-11]" != "" && WellFormed("n[9-11]") && IsPart("n[9-11]") && !Overflows("n[9-11]")
    ensures Names("n[9-11]") == ["n9", "n10", "n11"]
  {
    hide WellFormed, Names, Overflows, Value, Padded, IsPart, Prepend, Numbered;
    Digits();
    Counted();
    assert IsNumeral("9") && IsNumeral("11");
    RangePart("n", "9", "11");
    assert "n" + ("[" + ("9" + "-" + "11") + "]") == "n[9-11]";
  }

  lemma {:induction false} SecondPart()
    ensures "d[01-02]" != "" && WellFormed("d[01-02]") && IsPart("d[01-02]") && !Overflows("d[01-02]")
    ensures Names("d[01-02]") == ["d01", "d02"]
  {
    hide WellFormed, Names, Overflows, Value, Padded, IsPart, Prepend, Numbered;
    Digits();
    Counted();
    assert IsNumeral("01") && IsNumeral("02");
    RangePart("d", "01", "02");
    assert "d" + ("[" + ("01" + "-" + "02") + "]") == "d[01-02]";
  }

  /** Two parts that fit, and together have no name twice. */
  lemma {:induction false} TwoParts(a: string, b: string)
    requires a != "" && b != "" && IsPart(a) && IsPart(b) && WellFormed(a) && WellFormed(b)
    requires !Overflows(a) && !Overflows(b) && |Names(a)| <= MAX_SIZE && |Names(b)| <= MAX_SIZE
    requires Distinct(Names(a) + Names(b))
    ensures Expand(a + "," + b, false) == Ok(Names(a) + Names(b))
  {
    hide Expand, WellFormed, Names, Overflows, IsPart, FirstsInOrder, Distinct;
    var parts := [a, b];
    assert parts[1..] == [b] && parts[1..][1..] == [];
    assert Join(parts) == a + "," + b;
    var all := Names(a) + Names(b);
    assert AllNames([]) == [] && AllNames([b]) == Names(b) + [] == Names(b);
    assert AllNames(parts) == all;
    ExpandMeaning(parts);
    assert AllFit(parts) && [] + all == all;
  }

  /** n[9-11],d[01-02] is n9, n10, n11, d01 and d02. */
  lemma {:induction false} DocumentedExample()
    ensures Expand("n[9-11],d[01-02]", false) == Ok(["n9", "n10", "n11", "d01", "d02"])
  {
    hide Expand, WellFormed, Names, Overflows, IsPart;
    FirstPart();
    SecondPart();
    var all := ["n9", "n10", "n11", "d01", "d02"];
    assert ["n9", "n10", "n11"] + ["d01", "d02"] == all;
    assert all[0][1] == '9' && all[1][2] == '0' && all[2][2] == '1' && all[3][2] == '1' && all[4][2] == '2';
    assert all[0][0] == all[1][0] == all[2][0] == 'n' && all[3][0] == all[4][0] == 'd' && all[1][1] == '1';
    TwoParts("n[9-11]", "d[01-02]");
    assert "n[9-11]" + "," + "d[01-02]" == "n[9-11],d[01-02]";
  }
}
