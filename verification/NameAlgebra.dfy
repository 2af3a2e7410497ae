/** What the texts built by collection denote. */
module NameAlgebra {
  import opened Decimal
  import opened Expansion
  import opened Options
  import opened Meaning
  import opened Collection

  lemma {:induction false} FindAt(a: string, c: char, b: string)
    requires c !in a
    ensures Find(a + [c] + b, c) == |a|
  {
    var s := a + [c] + b;
    if a != "" {
      assert a[0] in a;
      assert s[1..] == a[1..] + [c] + b;
      FindAt(a[1..], c, b);
    }
  }

  lemma {:induction false} PrefixLengthUnmarked(p: string, t: string)
    requires Unmarked(p)
    ensures PrefixLength(p + t) == |p| + PrefixLength(t)
  {
    if p == "" {
      assert p + t == t;
    } else {
      assert (p + t)[1..] == p[1..] + t;
      PrefixLengthUnmarked(p[1..], t);
    }
  }

  lemma {:induction false} SliceConcat(a: string, b: string, k: nat)
    requires k <= |b|
    ensures (a + b)[|a| + k..] == b[k..] && (a + b)[..|a| + k] == a + b[..k]
  {
  }

  lemma {:induction false} MatchUnmarked(p: string, t: string)
    requires Unmarked(p)
    ensures var seg := MatchSegment(t); MatchSegment(p + t) == Segment(p + seg.prefix, seg.ranges, seg.rest)
  {
    hide Unmarked, PrefixLength, Find;
    PrefixLengthUnmarked(p, t);
    SliceConcat(p, t, PrefixLength(t));
  }

  /** Unmarked text in front of a part goes in front of each of its names. */
  lemma {:induction false} NamesUnmarked(p: string, t: string)
    requires Unmarked(p) && WellFormed(t)
    ensures WellFormed(p + t) && Names(p + t) == Prepend(p, Names(t))
  {
    if p == "" {
      assert p + t == t;
      PrependEmpty(Names(t));
    } else if t == "" {
      UnmarkedName(p);
      assert p + t == p;
    } else {
      LevelConcat(p, t, 0);
      LevelUnmarked(p);
      var seg := MatchSegment(t);
      MatchUnmarked(p, t);
      NamesStep(t);
      NamesStep(p + t);
      var group := Alternatives(seg.ranges).value;
      PrependTwice(p, seg.prefix, group);
      CrossPrepend(p, Prepend(seg.prefix, group), Names(seg.rest));
    }
  }

  lemma {:induction false} UnmarkedName(p: string)
    requires Unmarked(p) && p != ""
    ensures WellFormed(p) && Names(p) == [p] == Prepend(p, Names(""))
  {
    LevelUnmarked(p);
    assert p + "" == p;
    MatchUnmarked(p, "");
    assert MatchSegment("") == Segment("", None, "");
    NamesStep(p);
    assert Prepend(p, [""]) == [p];
    CrossSingle(p, [""]);
  }

  lemma {:induction false} CrossSingle(u: string, them: seq<string>)
    ensures Cross([u], them) == Prepend(u, them)
  {
    assert Cross([u][1..], them) == [];
  }

  /** A bracket group in front of a part matches as a whole. */
  lemma {:induction false} MatchBracket(inside: string, t: string)
    requires '[' !in inside && ']' !in inside && IsPart(t)
    ensures var s := "[" + inside + "]" + t;
      IsPart(s) && MatchSegment(s) == Segment("", Some(inside), t)
  {
    var s := "[" + inside + "]" + t;
    assert s == "[" + (inside + ("]" + t)) == ("[" + inside) + [']'] + t;
    assert s[1..] == inside + ("]" + t) && ("]" + t)[1..] == t;
    LevelConcat(inside, "]" + t, 1);
    LevelInside(inside);
    FindAt("[" + inside, ']', t);
    assert s[0..] == s && s[..0] == "" && s[1..1 + |inside|] == inside && s[2 + |inside|..] == t;
  }

  /** A bracket group in front of a part: its alternatives times the part's names. */
  lemma {:induction false} NamesGroup(inside: string, t: string)
    requires '[' !in inside && ']' !in inside && GroupMeaning(SplitCommas(inside)).Some? && WellFormed(t)
    ensures var s := "[" + inside + "]" + t;
      WellFormed(s) && Names(s) == Cross(GroupMeaning(SplitCommas(inside)).value, Names(t))
  {
    MatchBracket(inside, t);
    NamesStep("[" + inside + "]" + t);
    PrependEmpty(GroupMeaning(SplitCommas(inside)).value);
  }

  lemma {:induction false} SplitFirst(piece: string, rest: string)
    requires ',' !in piece
    ensures SplitCommas(piece + "," + rest) == [piece] + SplitCommas(rest)
  {
    var s := piece + "," + rest;
    assert s == piece + [','] + rest;
    FindAt(piece, ',', rest);
    assert s[..|piece|] == piece && s[|piece| + 1..] == rest;
  }

  lemma {:induction false} SplitJoin(pieces: seq<string>)
    requires pieces != [] && forall i :: 0 <= i < |pieces| ==> ',' !in pieces[i]
    ensures SplitCommas(Join(pieces)) == pieces
  {
    if |pieces| == 1 {
    } else {
      SplitJoin(pieces[1..]);
      SplitFirst(pieces[0], Join(pieces[1..]));
    }
  }

  // ---------- formatted ranges ----------

  /** A range the scan produces: not empty, its low end filling the width. */
  predicate RangeReady(r: Range) {
    r.low <= r.high && |Padded(r.width, r.low)| == r.width
  }

  function RangeNumbers(r: Range): seq<string>
    requires r.low <= r.high
  {
    Numbered("", r.low, r.high + 1, r.width)
  }

  predicate RangesReady(ranges: seq<Range>) {
    forall i :: 0 <= i < |ranges| ==> RangeReady(ranges[i])
  }

  function AllNumbers(ranges: seq<Range>): seq<string>
    requires RangesReady(ranges)
  {
    if ranges == [] then [] else RangeNumbers(ranges[0]) + AllNumbers(ranges[1..])
  }

  lemma {:induction false} FormatMeaning(r: Range)
    requires RangeReady(r)
    ensures RangeMeaning(FormatRange(r)) == Some(RangeNumbers(r))
    ensures forall c :: c in FormatRange(r) ==> IsDigit(c) || c == '-'
  {
    hide Padded, Value;
    var a, b := Padded(r.width, r.low), Padded(r.width, r.high);
    ReadPadded(r.width, r.low);
    ReadPadded(r.width, r.high);
    if r.low == r.high {
      assert RangeNumbers(r) == ["" + a];
      assert "" + a == a;
    } else {
      var text := a + ['-'] + b;
      assert text == FormatRange(r);
      assert !IsNumeral(text) by {
        assert text[|a|] == '-';
      }
      FindAt(a, '-', b);
      assert text[..|a|] == a && text[|a| + 1..] == b;
    }
  }

  lemma {:induction false} FormatsMeaning(ranges: seq<Range>)
    requires RangesReady(ranges)
    ensures GroupMeaning(FormatRanges(ranges)) == Some(AllNumbers(ranges))
  {
    hide RangeMeaning, FormatRange, Padded, RangeNumbers, IsDigit;
    if ranges != [] {
      FormatMeaning(ranges[0]);
      FormatsMeaning(ranges[1..]);
      assert FormatRanges(ranges)[1..] == FormatRanges(ranges[1..]);
    }
  }

  lemma {:induction false} JoinFree(pieces: seq<string>, c: char)
    requires c != ',' && forall i :: 0 <= i < |pieces| ==> c !in pieces[i]
    ensures c !in Join(pieces)
  {
    if |pieces| > 1 {
      JoinFree(pieces[1..], c);
    }
  }

  lemma {:induction false} FormatsPlain(ranges: seq<Range>)
    requires RangesReady(ranges)
    ensures forall p :: p in FormatRanges(ranges) ==> ',' !in p && '[' !in p && ']' !in p
  {
    forall i | 0 <= i < |ranges| ensures var p := FormatRange(ranges[i]); ',' !in p && '[' !in p && ']' !in p {
      FormatMeaning(ranges[i]);
    }
  }

  lemma {:induction false} BracketNames(ranges: seq<Range>, suffix: string)
    requires ranges != [] && RangesReady(ranges) && WellFormed(suffix)
    ensures var inside := Join(FormatRanges(ranges));
      && '[' !in inside && ']' !in inside
      && WellFormed("[" + inside + "]" + suffix)
      && Names("[" + inside + "]" + suffix) == Cross(AllNumbers(ranges), Names(suffix))
  {
    var texts := FormatRanges(ranges);
    FormatsMeaning(ranges);
    FormatsPlain(ranges);
    SplitJoin(texts);
    JoinFree(texts, '[');
    JoinFree(texts, ']');
    NamesGroup(Join(texts), suffix);
  }

  lemma {:induction false} SingleNumber(r: Range)
    requires RangeReady(r) && r.low == r.high
    ensures RangesReady([r]) && AllNumbers([r]) == [Padded(r.width, r.low)]
  {
    hide Padded;
    assert [r][1..] == [];
    assert "" + Padded(r.width, r.low) == Padded(r.width, r.low);
  }

  lemma {:induction false} SingleNames(r: Range, suffix: string)
    requires RangeReady(r) && r.low == r.high && WellFormed(suffix)
    ensures var d := Padded(r.width, r.low);
      && WellFormed(d + suffix)
      && Names(d + suffix) == Cross(AllNumbers([r]), Names(suffix))
  {
    hide WellFormed, Names, Padded, AllNumbers, Cross;
    var d := Padded(r.width, r.low);
    ReadPadded(r.width, r.low);
    NamesUnmarked(d, suffix);
    SingleNumber(r);
    CrossSingle(d, Names(suffix));
  }

  /** The finished text of a group denotes its numbers times what the suffix denotes. */
  lemma {:induction false} RangesTextNames(ranges: seq<Range>, suffix: string)
    requires ranges != [] && RangesReady(ranges) && WellFormed(suffix)
    ensures WellFormed(RangesText(ranges) + suffix)
    ensures Names(RangesText(ranges) + suffix) == Cross(AllNumbers(ranges), Names(suffix))
  {
    if |ranges| == 1 && ranges[0].low == ranges[0].high {
      assert ranges == [ranges[0]];
      SingleNames(ranges[0], suffix);
    } else {
      BracketNames(ranges, suffix);
    }
  }

  // ---------- names of several hosts ----------

  /** The names denoted by a list of host texts, in order. */
  function Flat(hosts: seq<string>): seq<string> {
    if hosts == [] then [] else Names(hosts[0]) + Flat(hosts[1..])
  }

  /** The hosts with the given numerals between prefix and suffix. */
  function HostsWith(prefix: string, numerals: seq<string>, suffix: string): (hosts: seq<string>)
    ensures |hosts| == |numerals|
  {
    seq(|numerals|, i requires 0 <= i < |numerals| => prefix + numerals[i] + suffix)
  }

  /** Collecting hosts that differ in one numeral into one text keeps their names, in order. */
  lemma {:induction false} FlatHostsWith(prefix: string, numerals: seq<string>, suffix: string)
    requires Unmarked(prefix) && WellFormed(suffix)
    requires forall i :: 0 <= i < |numerals| ==> Unmarked(numerals[i])
    ensures Flat(HostsWith(prefix, numerals, suffix)) == Prepend(prefix, Cross(numerals, Names(suffix)))
  {
    if numerals != [] {
      var u, rest := numerals[0], numerals[1..];
      assert HostsWith(prefix, numerals, suffix)[1..] == HostsWith(prefix, rest, suffix);
      FlatHostsWith(prefix, rest, suffix);
      NamesAround(prefix, u, suffix);
      PrependConcat(prefix, Prepend(u, Names(suffix)), Cross(rest, Names(suffix)));
    }
  }

  lemma {:induction false} NamesAround(prefix: string, u: string, suffix: string)
    requires Unmarked(prefix) && Unmarked(u) && WellFormed(suffix)
    ensures WellFormed(prefix + u + suffix)
    ensures Names(prefix + u + suffix) == Prepend(prefix, Prepend(u, Names(suffix)))
  {
    hide WellFormed, Names, Unmarked;
    var t := u + suffix;
    assert prefix + u + suffix == prefix + t;
    NamesUnmarked(u, suffix);
    NamesUnmarked(prefix, t);
  }

  lemma {:induction false} FlatConcat(a: seq<string>, b: seq<string>)
    ensures Flat(a + b) == Flat(a) + Flat(b)
  {
    if a == [] {
      assert a + b == b;
    } else {
      assert (a + b)[1..] == a[1..] + b;
      FlatConcat(a[1..], b);
    }
  }
}
