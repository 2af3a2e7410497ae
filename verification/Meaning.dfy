/** What a bracket expression denotes, independently of size guards and C longs, and that expansion computes it. */
module Meaning {
  import opened Decimal
  import opened Distinctness
  import opened Expansion
  import opened Options

  // ---------- meaning of ranges and groups ----------

  function RangeMeaning(text: string): Option<seq<string>> {
    if IsNumeral(text) then Some([text])
    else
      match RangeDash(text)
      case None => None
      case Some(dash) =>
        var low, high := Value(text[..dash]), Value(text[dash + 1..]);
        if high < low then None else Some(Numbered("", low, high + 1, dash))
  }

  function GroupMeaning(pieces: seq<string>): Option<seq<string>> {
    if pieces == [] then Some([])
    else
      var first, more := RangeMeaning(pieces[0]), GroupMeaning(pieces[1..]);
      if first.Some? && more.Some? then Some(first.value + more.value) else None
  }

  /** The alternatives of a segment's bracket group; without one there is nothing to add. */
  function Alternatives(ranges: Option<string>): Option<seq<string>> {
    if ranges.None? then Some([""]) else GroupMeaning(SplitCommas(ranges.value))
  }

  /** One list of alternatives per segment of a part, or None if some range is malformed. */
  function Factors(s: string): Option<seq<seq<string>>>
    requires IsPart(s)
    decreases |s|
  {
    if s == "" then Some([])
    else
      SegmentConsumes(s);
      var seg := MatchSegment(s);
      var group := Alternatives(seg.ranges);
      var rest := Factors(seg.rest);
      if group.Some? && rest.Some? then Some([Prepend(seg.prefix, group.value)] + rest.value) else None
  }

  function Product(factors: seq<seq<string>>): seq<string> {
    if factors == [] then [""] else Cross(factors[0], Product(factors[1..]))
  }

  /** A part every range of which is well formed. */
  predicate WellFormed(s: string) {
    IsPart(s) && Factors(s).Some?
  }

  /** The names a part denotes, in order. */
  function Names(s: string): seq<string> {
    if WellFormed(s) then Product(Factors(s).value) else []
  }

  lemma {:induction false} NamesStep(s: string)
    requires IsPart(s) && s != ""
    ensures var seg := MatchSegment(s);
      && IsPart(seg.rest)
      && (WellFormed(s) <==> WellFormed(seg.rest) && Alternatives(seg.ranges).Some?)
      && (WellFormed(s) ==> Names(s) == Cross(Prepend(seg.prefix, Alternatives(seg.ranges).value), Names(seg.rest)))
  {
    SegmentConsumes(s);
    var seg := MatchSegment(s);
    if WellFormed(s) {
      assert Factors(s).value[1..] == Factors(seg.rest).value;
    }
  }

  // ---------- Product is the lexicographic product ----------

  function Size(factors: seq<seq<string>>): nat {
    if factors == [] then 1 else |factors[0]| * Size(factors[1..])
  }

  /** A choice of one alternative in each factor. */
  predicate IsChoice(factors: seq<seq<string>>, ix: seq<nat>) {
    |ix| == |factors| && forall j :: 0 <= j < |ix| ==> ix[j] < |factors[j]|
  }

  function Chosen(factors: seq<seq<string>>, ix: seq<nat>): string
    requires IsChoice(factors, ix)
  {
    if factors == [] then "" else factors[0][ix[0]] + Chosen(factors[1..], ix[1..])
  }

  /** The position of a choice, the last factor varying fastest. */
  function Rank(factors: seq<seq<string>>, ix: seq<nat>): nat
    requires IsChoice(factors, ix)
  {
    if factors == [] then 0 else ix[0] * Size(factors[1..]) + Rank(factors[1..], ix[1..])
  }

  predicate LexLess(a: seq<nat>, b: seq<nat>)
    requires |a| == |b|
  {
    a != [] && (a[0] < b[0] || (a[0] == b[0] && LexLess(a[1..], b[1..])))
  }

  lemma {:induction false} MulLess(a: nat, b: nat, n: nat, r: nat)
    requires a < b && r < n
    ensures a * n + r < b * n
  {
    var gap := b - a - 1;
    assert gap * n >= 0;
    assert b * n == a * n + n + gap * n;
  }

  lemma {:induction false} CrossAt(us: seq<string>, them: seq<string>, i: nat, j: nat)
    requires i < |us| && j < |them|
    ensures i * |them| + j < |Cross(us, them)|
    ensures Cross(us, them)[i * |them| + j] == us[i] + them[j]
  {
    CrossSize(us, them);
    MulLess(i, |us|, |them|, j);
    if i > 0 {
      CrossAt(us[1..], them, i - 1, j);
      assert i * |them| + j == |them| + ((i - 1) * |them| + j);
    }
  }

  /** The size of the product is the product of the sizes; each choice sits at its rank. */
  lemma {:induction false} ProductAt(factors: seq<seq<string>>, ix: seq<nat>)
    requires IsChoice(factors, ix)
    ensures |Product(factors)| == Size(factors)
    ensures Rank(factors, ix) < |Product(factors)|
    ensures Product(factors)[Rank(factors, ix)] == Chosen(factors, ix)
  {
    if factors != [] {
      ProductAt(factors[1..], ix[1..]);
      CrossSize(factors[0], Product(factors[1..]));
      CrossAt(factors[0], Product(factors[1..]), ix[0], Rank(factors[1..], ix[1..]));
    }
  }

  lemma {:induction false} ProductSize(factors: seq<seq<string>>)
    ensures |Product(factors)| == Size(factors)
  {
    if factors != [] {
      ProductSize(factors[1..]);
      CrossSize(factors[0], Product(factors[1..]));
    }
  }

  lemma {:induction false} DivideRank(k: nat, m: nat, n: nat)
    requires k < m * n
    ensures n > 0 && k / n < m && (k / n) * n + k % n == k
  {
  }

  /** Every position of the product is the rank of a choice. */
  lemma {:induction false} Unrank(factors: seq<seq<string>>, k: nat) returns (ix: seq<nat>)
    requires k < |Product(factors)|
    ensures IsChoice(factors, ix) && Rank(factors, ix) == k
  {
    ProductSize(factors);
    if factors == [] {
      ix := [];
    } else {
      var n := Size(factors[1..]);
      ProductSize(factors[1..]);
      DivideRank(k, |factors[0]|, n);
      var rest := Unrank(factors[1..], k % n);
      ix := [k / n] + rest;
      assert ix[1..] == rest;
    }
  }

  /** The order of the product is the lexicographic order of the choices. */
  lemma {:induction false} RankMonotone(factors: seq<seq<string>>, a: seq<nat>, b: seq<nat>)
    requires IsChoice(factors, a) && IsChoice(factors, b) && LexLess(a, b)
    ensures Rank(factors, a) < Rank(factors, b)
  {
    var rest := factors[1..];
    ProductAt(rest, a[1..]);
    if a[0] < b[0] {
      MulLess(a[0], b[0], Size(rest), Rank(rest, a[1..]));
    } else {
      RankMonotone(rest, a[1..], b[1..]);
    }
  }

  // ---------- algebra of Prepend and Cross ----------

  lemma {:induction false} PrependTwice(a: string, b: string, names: seq<string>)
    ensures Prepend(a, Prepend(b, names)) == Prepend(a + b, names)
  {
    forall i | 0 <= i < |names| ensures a + (b + names[i]) == (a + b) + names[i] {
    }
  }

  lemma {:induction false} PrependEmpty(names: seq<string>)
    ensures Prepend("", names) == names
  {
    forall i | 0 <= i < |names| ensures "" + names[i] == names[i] {
    }
  }

  lemma {:induction false} CrossConcat(a: seq<string>, b: seq<string>, them: seq<string>)
    ensures Cross(a + b, them) == Cross(a, them) + Cross(b, them)
  {
    if a == [] {
      assert a + b == b;
    } else {
      assert (a + b)[1..] == a[1..] + b;
      CrossConcat(a[1..], b, them);
    }
  }

  lemma {:induction false} CrossPrepend(prefix: string, us: seq<string>, them: seq<string>)
    ensures Cross(Prepend(prefix, us), them) == Prepend(prefix, Cross(us, them))
  {
    if us != [] {
      assert Prepend(prefix, us)[1..] == Prepend(prefix, us[1..]);
      PrependTwice(prefix, us[0], them);
      CrossPrepend(prefix, us[1..], them);
      PrependConcat(prefix, Prepend(us[0], them), Cross(us[1..], them));
    }
  }

  lemma {:induction false} PrependConcat(prefix: string, a: seq<string>, b: seq<string>)
    ensures Prepend(prefix, a + b) == Prepend(prefix, a) + Prepend(prefix, b)
  {
  }

  predicate SizeError(e: Error) {
    e == ResultsTooLarge || e == RangeTooLarge
  }

  // ---------- ranges beyond a C long ----------

  /** The range's end is one that the loop over its numbers cannot count to. */
  predicate RangeOverflows(text: string) {
    !IsNumeral(text) && RangeDash(text).Some? && Value(text[RangeDash(text).value + 1..]) + 1 > LONG_MAX
  }

  predicate AnyOverflows(pieces: seq<string>) {
    exists i :: 0 <= i < |pieces| && RangeOverflows(pieces[i])
  }

  predicate GroupOverflows(ranges: Option<string>) {
    ranges.Some? && AnyOverflows(SplitCommas(ranges.value))
  }

  /** Some range of the part has such an end. */
  predicate Overflows(s: string)
    requires IsPart(s)
    decreases |s|
  {
    s != "" &&
    (SegmentConsumes(s);
     var seg := MatchSegment(s);
     GroupOverflows(seg.ranges) || Overflows(seg.rest))
  }

  /** Why a part that denotes something is refused: it denotes too much, or some range ends beyond a C long. */
  predicate Refused(e: Error, s: string) {
    && WellFormed(s)
    && ((SizeError(e) && |Names(s)| > MAX_SIZE) || (e == LongOverflow && Overflows(s)))
  }

  // ---------- expansion computes the meaning exactly when it fits ----------

  lemma {:induction false} NumberedPrefix(prefix: string, from: nat, to: nat, width: nat)
    requires from <= to
    ensures Numbered(prefix, from, to, width) == Prepend(prefix, Numbered("", from, to, width))
  {
    var plain := Numbered("", from, to, width);
    forall i | 0 <= i < to - from ensures prefix + plain[i] == Numbered(prefix, from, to, width)[i] {
      assert "" + Padded(width, from + i) == Padded(width, from + i);
    }
  }

  /** A range is expanded iff it is well formed, spans at most MAX_SIZE + 1 names and does not end beyond a C long. */
  lemma {:induction false} RangeNamesMeaning(prefix: string, text: string)
    ensures RangeNames(prefix, text).Ok? <==>
            RangeMeaning(text).Some? && |RangeMeaning(text).value| <= MAX_SIZE + 1 && !RangeOverflows(text)
    ensures RangeNames(prefix, text).Ok? ==> RangeNames(prefix, text).value == Prepend(prefix, RangeMeaning(text).value)
    ensures RangeMeaning(text).Some? ==> RangeMeaning(text).value != []
    ensures RangeMeaning(text).Some? && RangeNames(prefix, text).Err? ==>
              RangeNames(prefix, text).error
              == if |RangeMeaning(text).value| > MAX_SIZE + 1 then RangeTooLarge else LongOverflow
  {
    if !IsNumeral(text) && RangeDash(text).Some? {
      var dash := RangeDash(text).value;
      var low, high := Value(text[..dash]), Value(text[dash + 1..]);
      if low <= high {
        NumberedPrefix(prefix, low, high + 1, dash);
      }
    }
  }

  lemma {:induction false} RangelistMeaning(prefix: string, pieces: seq<string>)
    ensures RangelistNames(prefix, pieces).Ok? ==>
              && GroupMeaning(pieces).Some? && !AnyOverflows(pieces)
              && RangelistNames(prefix, pieces).value == Prepend(prefix, GroupMeaning(pieces).value)
    ensures GroupMeaning(pieces).Some? && |GroupMeaning(pieces).value| <= MAX_SIZE + 1 && !AnyOverflows(pieces) ==>
              RangelistNames(prefix, pieces).Ok?
    ensures GroupMeaning(pieces).Some? ==> |GroupMeaning(pieces).value| >= |pieces|
    ensures GroupMeaning(pieces).Some? && RangelistNames(prefix, pieces).Err? ==>
              var e := RangelistNames(prefix, pieces).error;
              || (e == RangeTooLarge && |GroupMeaning(pieces).value| > MAX_SIZE + 1)
              || (e == LongOverflow && AnyOverflows(pieces))
  {
    hide RangeOverflows, RangeMeaning, RangeNames;
    if pieces != [] {
      RangeNamesMeaning(prefix, pieces[0]);
      RangelistMeaning(prefix, pieces[1..]);
      AnyOverflowsStep(pieces);
    }
  }

  lemma {:induction false} AnyOverflowsStep(pieces: seq<string>)
    requires pieces != []
    ensures AnyOverflows(pieces) <==> RangeOverflows(pieces[0]) || AnyOverflows(pieces[1..])
  {
    hide RangeOverflows;
    if i :| 0 <= i < |pieces| && RangeOverflows(pieces[i]) {
      assert i == 0 || RangeOverflows(pieces[1..][i - 1]);
    }
    if i :| 0 <= i < |pieces[1..]| && RangeOverflows(pieces[1..][i]) {
      assert RangeOverflows(pieces[i + 1]);
    }
  }

  /**
   * Main result on expand_part: it accepts exactly the parts whose meaning is defined, has at most MAX_SIZE names and
   * needs no number beyond a C long, and then returns that meaning; every other well-formed part is refused for a
   * reason it has.
   */
  lemma {:induction false} ExpandPartMeaning(s: string)
    requires IsPart(s)
    ensures ExpandPart(s).Ok? <==> WellFormed(s) && |Names(s)| <= MAX_SIZE && !Overflows(s)
    ensures ExpandPart(s).Ok? ==> ExpandPart(s).value == Names(s)
    ensures WellFormed(s) ==> Names(s) != []
    ensures WellFormed(s) && ExpandPart(s).Err? ==> Refused(ExpandPart(s).error, s)
    decreases |s|
  {
    hide RangelistNames, AnyOverflows, GroupMeaning;
    if s != "" {
      SegmentConsumes(s);
      var seg := MatchSegment(s);
      ExpandPartMeaning(seg.rest);
      if seg.ranges.Some? {
        RangelistMeaning(seg.prefix, SplitCommas(seg.ranges.value));
      } else {
        assert Prepend(seg.prefix, [""]) == [seg.prefix] by {
          assert seg.prefix + "" == seg.prefix;
        }
      }
      if WellFormed(s) {
        var factors := Factors(s).value;
        var us, rest := factors[0], Names(seg.rest);
        assert factors[1..] == Factors(seg.rest).value;
        CrossSize(us, rest);
        FactorsFit(|us|, |rest|);
      }
    }
  }

  /** Positive factors are no larger than their product. */
  lemma {:induction false} FactorsFit(a: nat, b: nat)
    requires a > 0 && b > 0
    ensures a <= a * b && b <= a * b
  {
  }

  // ---------- whole expressions ----------

  /** All names of the parts, in order; the empty part between two commas denotes nothing. */
  function AllNames(parts: seq<string>): seq<string> {
    if parts == [] then [] else (if parts[0] == "" then [] else Names(parts[0])) + AllNames(parts[1..])
  }

  predicate Fits(part: string) {
    part == "" || (WellFormed(part) && |Names(part)| <= MAX_SIZE && !Overflows(part))
  }

  predicate AllParts(parts: seq<string>) {
    forall p :: p in parts ==> IsPart(p)
  }

  predicate AllFit(parts: seq<string>) {
    forall p :: p in parts ==> Fits(p)
  }

  predicate AllWellFormed(parts: seq<string>) {
    forall p :: p in parts && p != "" ==> WellFormed(p)
  }

  /** A whole part passes through the scanner unchanged. */
  lemma {:induction false} ScanPart(part: string, done: string, rest: string, results: seq<string>)
    requires 0 <= Level(done, 0) <= 1 && IsPart(done + part)
    ensures Scan(part + rest, Level(done, 0), done, results) == Scan(rest, 0, done + part, results)
    decreases |part|
  {
    LevelConcat(done, part, 0);
    if part == "" {
      assert part + rest == rest && done + part == done;
    } else {
      var c := part[0];
      assert (part + rest)[1..] == part[1..] + rest;
      assert (done + [c]) + part[1..] == done + part;
      LevelConcat(done, [c], 0);
      LevelDead(part[1..]);
      ScanPart(part[1..], done + [c], rest, results);
    }
  }

  /** What one part contributes: nothing if it is empty. */
  function PartNames(part: string): Result<seq<string>>
    requires IsPart(part)
  {
    if part == "" then Ok([]) else ExpandPart(part)
  }

  lemma {:induction false} PartNamesMeaning(part: string)
    requires IsPart(part)
    ensures var r := PartNames(part);
      && (r.Ok? <==> Fits(part))
      && (r.Ok? ==> r.value == if part == "" then [] else Names(part))
      && (r.Err? && (part == "" || WellFormed(part)) ==> Refused(r.error, part))
  {
    ExpandPartMeaning(part);
  }

  lemma {:induction false} ScanFirst(part: string, rest: string, results: seq<string>)
    requires IsPart(part)
    ensures var first := PartNames(part);
      Scan(part + ("," + rest), 0, "", results) ==
      if first.Err? then first else Scan(rest, 0, "", results + first.value)
  {
    assert "" + part == part;
    ScanPart(part, "", "," + rest, results);
    assert ("," + rest)[1..] == rest;
  }

  /** What expanding the terminated parts gives, with `results` already collected. */
  ghost predicate ExpandsTo(r: Result<seq<string>>, parts: seq<string>, results: seq<string>) {
    && (r.Ok? <==> AllFit(parts))
    && (r.Ok? ==> r.value == results + AllNames(parts))
    && (r.Err? && AllWellFormed(parts) ==> exists p :: p in parts && Refused(r.error, p))
  }

  lemma {:induction false} ScanParts(parts: seq<string>, results: seq<string>)
    requires AllParts(parts)
    ensures ExpandsTo(Scan(Terminated(parts), 0, "", results), parts, results)
  {
    if parts == [] {
      assert results + [] == results;
    } else {
      var first := PartNames(parts[0]);
      ScanFirst(parts[0], Terminated(parts[1..]), results);
      if first.Ok? {
        ScanParts(parts[1..], results + first.value);
      }
      var more := if first.Ok? then first.value else [];
      ExpandsFirst(parts, results, Scan(Terminated(parts[1..]), 0, "", results + more));
    }
  }

  lemma {:induction false} ExpandsFirst(parts: seq<string>, results: seq<string>, rest: Result<seq<string>>)
    requires parts != [] && AllParts(parts)
    requires PartNames(parts[0]).Ok? ==> ExpandsTo(rest, parts[1..], results + PartNames(parts[0]).value)
    ensures ExpandsTo(if PartNames(parts[0]).Err? then PartNames(parts[0]) else rest, parts, results)
  {
    hide WellFormed, Names, Fits, IsPart, Refused;
    var first := PartNames(parts[0]);
    PartNamesMeaning(parts[0]);
    if first.Ok? {
      assert AllNames(parts) == first.value + AllNames(parts[1..]);
      assert (results + first.value) + AllNames(parts[1..]) == results + AllNames(parts);
    }
  }

  /** What purging does to a result: the same names, each once, in the order of their first positions. */
  ghost predicate PurgedFrom(r: Result<seq<string>>, all: Result<seq<string>>) {
    && (r.Ok? <==> all.Ok?) && (r.Err? ==> r == all)
    && (r.Ok? ==> FirstsInOrder(all.value, r.value) && (Distinct(all.value) ==> r.value == all.value))
  }

  /**
   * Main result on expand_hostlist, accepted expressions: exactly the joined parts that fit, and their names in
   * order; unless duplicates are allowed, each once, in the order in which they first occur.
   */
  lemma {:induction false} ExpandMeaning(parts: seq<string>)
    requires parts != [] && AllParts(parts)
    ensures ExpandsTo(Expand(Join(parts), true), parts, [])
    ensures PurgedFrom(Expand(Join(parts), false), Expand(Join(parts), true))
  {
    JoinTerminated(parts);
    ScanParts(parts, []);
    PurgedExpansion(Join(parts));
  }

  lemma {:induction false} PurgedExpansion(text: string)
    ensures PurgedFrom(Expand(text, false), Expand(text, true))
  {
    hide Scan, FirstsInOrder, Distinct;
    var all := Expand(text, true);
    if all.Ok? {
      PurgedInOrder(all.value);
    }
  }

  lemma {:induction false} ScanOkSplits(s: string, part: string, results: seq<string>) returns (parts: seq<string>)
    requires if s == "" then part == "" else s[|s| - 1] == ','
    requires 0 <= Level(part, 0) <= 1 && Scan(s, Level(part, 0), part, results).Ok?
    ensures Terminated(parts) == part + s && AllParts(parts)
    decreases |s|
  {
    if s == "" {
      parts := [];
    } else if s[0] == ',' && Level(part, 0) == 0 {
      var names := if part == "" then [] else ExpandPart(part).value;
      var more := ScanOkSplits(s[1..], "", results + names);
      parts := [part] + more;
      assert parts[1..] == more && "" + s[1..] == s[1..];
      assert "," + s[1..] == s;
    } else {
      LevelConcat(part, [s[0]], 0);
      parts := ScanOkSplits(s[1..], part + [s[0]], results);
      assert (part + [s[0]]) + s[1..] == part + s;
    }
  }

  /** Main result on expand_hostlist, rejected expressions: nothing but joined parts that fit is accepted. */
  lemma {:induction false} AcceptedIsJoin(s: string, allowDuplicates: bool) returns (parts: seq<string>)
    requires Expand(s, allowDuplicates).Ok?
    ensures parts != [] && s == Join(parts)
    ensures AllParts(parts) && AllFit(parts)
  {
    assert "" + (s + ",") == s + ",";
    parts := ScanOkSplits(s + ",", "", []);
    JoinTerminated(parts);
    assert s == (Join(parts) + ",")[..|s|];
    ExpandMeaning(parts);
  }
}
