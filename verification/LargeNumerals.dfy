/** Numerals that a C long cannot count past: where they show in the names a part denotes. */
module LargeNumerals {
  import opened Decimal
  import opened Expansion
  import opened Meaning
  import opened Options

  predicate LargeAt(s: string, i: nat, j: nat) {
    i <= j <= |s| && IsNumeral(s[i..j]) && Value(s[i..j]) >= LONG_MAX
  }

  /** Some digits of the text make a numeral of at least LONG_MAX. */
  predicate HasLargeNumeral(s: string) {
    exists i, j :: 0 <= i <= j <= |s| && LargeAt(s, i, j)
  }

  lemma {:induction false} LargeInside(a: string, s: string, b: string)
    requires HasLargeNumeral(s)
    ensures HasLargeNumeral(a + s + b)
  {
    var i, j :| 0 <= i <= j <= |s| && LargeAt(s, i, j);
    assert (a + s + b)[|a| + i..|a| + j] == s[i..j];
    assert LargeAt(a + s + b, |a| + i, |a| + j);
  }

  ghost predicate SomeLarge(names: seq<string>) {
    exists i :: 0 <= i < |names| && HasLargeNumeral(names[i])
  }

  /** A range that ends beyond a C long denotes its end. */
  lemma {:induction false} RangeShows(text: string)
    requires RangeOverflows(text) && RangeMeaning(text).Some?
    ensures SomeLarge(RangeMeaning(text).value)
  {
    var dash := RangeDash(text).value;
    var low, high := Value(text[..dash]), Value(text[dash + 1..]);
    var last := Padded(dash, high);
    ReadPadded(dash, high);
    assert RangeMeaning(text).value[high - low] == "" + last == last;
    assert last[0..|last|] == last && LargeAt(last, 0, |last|);
  }

  lemma {:induction false} GroupShows(pieces: seq<string>)
    requires AnyOverflows(pieces) && GroupMeaning(pieces).Some?
    ensures SomeLarge(GroupMeaning(pieces).value)
    decreases |pieces|
  {
    hide RangeOverflows, RangeMeaning, HasLargeNumeral;
    AnyOverflowsStep(pieces);
    var first, more := RangeMeaning(pieces[0]).value, GroupMeaning(pieces[1..]).value;
    if RangeOverflows(pieces[0]) {
      RangeShows(pieces[0]);
      var i :| 0 <= i < |first| && HasLargeNumeral(first[i]);
      assert (first + more)[i] == first[i];
    } else {
      GroupShows(pieces[1..]);
      var i :| 0 <= i < |more| && HasLargeNumeral(more[i]);
      assert (first + more)[|first| + i] == more[i];
    }
  }

  /** In a product every name of either side shows in some name. */
  lemma {:induction false} CrossShows(prefix: string, us: seq<string>, them: seq<string>)
    requires us != [] && them != [] && (SomeLarge(us) || SomeLarge(them))
    ensures SomeLarge(Cross(Prepend(prefix, us), them))
  {
    hide HasLargeNumeral, Cross;
    var i, j := 0, 0;
    if SomeLarge(us) {
      i :| 0 <= i < |us| && HasLargeNumeral(us[i]);
      LargeInside(prefix, us[i], them[0]);
    } else {
      j :| 0 <= j < |them| && HasLargeNumeral(them[j]);
      LargeInside(prefix + us[0], them[j], "");
      assert prefix + us[0] + them[j] + "" == prefix + us[0] + them[j];
    }
    CrossAt(Prepend(prefix, us), them, i, j);
    assert Cross(Prepend(prefix, us), them)[i * |them| + j] == prefix + us[i] + them[j];
  }

  /** A part with a range that ends beyond a C long denotes a name with a numeral that large. */
  lemma {:induction false} OverflowShows(s: string)
    requires WellFormed(s) && Overflows(s)
    ensures SomeLarge(Names(s))
    decreases |s|
  {
    hide GroupMeaning, AnyOverflows, HasLargeNumeral, Cross, Factors;
    SegmentConsumes(s);
    NamesStep(s);
    var seg := MatchSegment(s);
    var us := Alternatives(seg.ranges).value;
    ExpandPartMeaning(seg.rest);
    AlternativesNotEmpty(seg.ranges);
    if GroupOverflows(seg.ranges) {
      GroupShows(SplitCommas(seg.ranges.value));
    } else {
      OverflowShows(seg.rest);
    }
    CrossShows(seg.prefix, us, Names(seg.rest));
  }

  lemma {:induction false} AlternativesNotEmpty(ranges: Option<string>)
    requires Alternatives(ranges).Some?
    ensures Alternatives(ranges).value != []
  {
    if ranges.Some? {
      RangelistMeaning("", SplitCommas(ranges.value));
    }
  }
}
