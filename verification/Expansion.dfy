/** `expand_hostlist`: from bracket notation to host names. */
module Expansion {
  import opened Decimal
  import opened Distinctness
  import opened Options

  /** Guard against ridiculously long results. */
  const MAX_SIZE: nat := 100000

  /** The largest C long, of 64 bits: the largest bound Python 2's `xrange` takes. */
  const LONG_MAX: nat := 0x7FFF_FFFF_FFFF_FFFF

  datatype Error =
    | NestedBrackets
    | UnbalancedBrackets
    | ResultsTooLarge
    | BadRange
    | StartAfterStop
    | RangeTooLarge
    | LongOverflow
    | ForbiddenCharacter

  datatype Result<+T> = Ok(value: T) | Err(error: Error)

  /** The first index of `c` in `s`, or `|s|`. */
  function Find(s: string, c: char): (k: nat)
    ensures k <= |s| && c !in s[..k] && (k < |s| ==> s[k] == c)
  {
    if s == "" || s[0] == c then 0 else 1 + Find(s[1..], c)
  }

  /** `s.split(",")` */
  function SplitCommas(s: string): (pieces: seq<string>)
    ensures pieces != []
  {
    var k := Find(s, ',');
    if k == |s| then [s] else [s[..k]] + SplitCommas(s[k + 1..])
  }

  /** `",".join(parts)` */
  function Join(parts: seq<string>): string {
    if parts == [] then ""
    else if |parts| == 1 then parts[0]
    else parts[0] + "," + Join(parts[1..])
  }

  /** The joined text as the scanner sees it: a comma after every part. */
  function Terminated(parts: seq<string>): string {
    if parts == [] then "" else parts[0] + ("," + Terminated(parts[1..]))
  }

  lemma {:induction false} JoinTerminated(parts: seq<string>)
    requires parts != []
    ensures Join(parts) + "," == Terminated(parts)
  {
    if |parts| == 1 {
      assert parts[1..] == [];
    } else {
      JoinTerminated(parts[1..]);
    }
  }

  /** `prefix` put before every name. */
  function Prepend(prefix: string, names: seq<string>): (r: seq<string>)
    ensures |r| == |names|
  {
    seq(|names|, i requires 0 <= i < |names| => prefix + names[i])
  }

  /** Every name of `us` followed by every name of `them`, the first varying slowest. */
  function Cross(us: seq<string>, them: seq<string>): seq<string> {
    if us == [] then [] else Prepend(us[0], them) + Cross(us[1..], them)
  }

  /** The names `prefix + from .. prefix + (to - 1)`, zero padded. */
  function Numbered(prefix: string, from: nat, to: nat, width: nat): (names: seq<string>)
    requires from <= to
    ensures |names| == to - from
  {
    seq(to - from, i requires 0 <= i < to - from => prefix + Padded(width, from + i))
  }

  // ---------- expand_range, expand_rangelist ----------

  /** Where `low-high` splits, if the text has that shape. */
  function RangeDash(text: string): Option<nat> {
    var dash := Find(text, '-');
    if dash < |text| && IsNumeral(text[..dash]) && IsNumeral(text[dash + 1..]) then Some(dash) else None
  }

  function RangeNames(prefix: string, text: string): Result<seq<string>> {
    if IsNumeral(text) then Ok([prefix + text])
    else
      match RangeDash(text)
      case None => Err(BadRange)
      case Some(dash) =>
        var low, high := Value(text[..dash]), Value(text[dash + 1..]);
        if high < low then Err(StartAfterStop)
        else if high - low > MAX_SIZE then Err(RangeTooLarge)
        else if high + 1 > LONG_MAX then Err(LongOverflow)
        else Ok(Numbered(prefix, low, high + 1, dash))
  }

  method ExpandRange(prefix: string, text: string) returns (r: Result<seq<string>>)
    ensures r == RangeNames(prefix, text)
  {
    if IsNumeral(text) {
      return Ok([prefix + text]);
    }
    var dash := Find(text, '-');
    if !(dash < |text| && IsNumeral(text[..dash]) && IsNumeral(text[dash + 1..])) {
      return Err(BadRange);
    }
    var low, high := Value(text[..dash]), Value(text[dash + 1..]);
    var width := |text[..dash]|;
    if high < low {
      return Err(StartAfterStop);
    } else if high - low > MAX_SIZE {
      return Err(RangeTooLarge);
    } else if high + 1 > LONG_MAX {
      return Err(LongOverflow);
    }
    var results := [];
    for i := low to high + 1
      invariant results == Numbered(prefix, low, i, width)
    {
      results := results + [prefix + Padded(width, i)];
    }
    return Ok(results);
  }

  /** The ranges' names in order; the first bad range decides the error. */
  function RangelistNames(prefix: string, pieces: seq<string>): Result<seq<string>> {
    if pieces == [] then Ok([])
    else
      match RangeNames(prefix, pieces[0])
      case Err(e) => Err(e)
      case Ok(names) =>
        match RangelistNames(prefix, pieces[1..])
        case Err(e) => Err(e)
        case Ok(more) => Ok(names + more)
  }

  method ExpandRangelist(prefix: string, rangelist: string) returns (r: Result<seq<string>>)
    ensures r == RangelistNames(prefix, SplitCommas(rangelist))
  {
    var results := [];
    var pieces := SplitCommas(rangelist);
    ghost var whole := RangelistNames(prefix, pieces);
    assert pieces[0..] == pieces && (whole.Ok? ==> [] + whole.value == whole.value);
    for i := 0 to |pieces|
      invariant whole == AfterNames(results, RangelistNames(prefix, pieces[i..]))
    {
      var one := ExpandRange(prefix, pieces[i]);
      if one.Err? {
        return one;
      }
      assert pieces[i..][1..] == pieces[i + 1..];
      ghost var rest := RangelistNames(prefix, pieces[i + 1..]);
      assert rest.Ok? ==> results + (one.value + rest.value) == (results + one.value) + rest.value;
      results := results + one.value;
    }
    assert results + [] == results;
    return Ok(results);
  }

  ghost function AfterNames(names: seq<string>, rest: Result<seq<string>>): Result<seq<string>> {
    if rest.Ok? then Ok(names + rest.value) else rest
  }

  // ---------- expand_part ----------

  /** Bracket level after one character of a part; -1 once the part is illegal. */
  function NextLevel(level: int, c: char): int {
    if level == 0 then
      if c == '[' then 1 else if c == ']' || c == ',' then -1 else 0
    else if level == 1 then
      if c == '[' then -1 else if c == ']' then 0 else 1
    else -1
  }

  function Level(s: string, level: int): int {
    if s == "" then level else Level(s[1..], NextLevel(level, s[0]))
  }

  /** What the scanner hands to `expand_part`: balanced brackets, no comma outside them. */
  predicate IsPart(s: string) {
    Level(s, 0) == 0
  }

  lemma {:induction false} LevelConcat(a: string, b: string, level: int)
    ensures Level(a + b, level) == Level(b, Level(a, level))
  {
    if a == "" {
      assert a + b == b;
    } else {
      assert (a + b)[1..] == a[1..] + b;
      LevelConcat(a[1..], b, NextLevel(level, a[0]));
    }
  }

  lemma {:induction false} LevelDead(s: string)
    ensures Level(s, -1) == -1
  {
    if s != "" {
      LevelDead(s[1..]);
    }
  }

  /** Nothing the notation treats specially. */
  predicate Unmarked(s: string) {
    forall i :: 0 <= i < |s| ==> s[i] !in "[],"
  }

  lemma {:induction false} LevelUnmarked(s: string)
    requires Unmarked(s)
    ensures Level(s, 0) == 0
  {
    if s != "" {
      LevelUnmarked(s[1..]);
    }
  }

  /** Inside brackets only a bracket changes the level. */
  lemma {:induction false} LevelInside(s: string)
    requires ']' !in s
    ensures Level(s, 1) == if '[' in s then -1 else 1
  {
    if s != "" {
      if s[0] == '[' {
        LevelDead(s[1..]);
      } else {
        assert s == [s[0]] + s[1..];
        LevelInside(s[1..]);
      }
    }
  }

  /** The length of the longest beginning of `s` with no comma and no opening bracket. */
  function PrefixLength(s: string): (k: nat)
    ensures k <= |s| && ',' !in s[..k] && '[' !in s[..k]
    ensures k < |s| ==> s[k] == ',' || s[k] == '['
  {
    if s == "" || s[0] == ',' || s[0] == '[' then 0 else 1 + PrefixLength(s[1..])
  }

  datatype Segment = Segment(prefix: string, ranges: Option<string>, rest: string)

  /** The regular expression of `expand_part`: prefix, optional bracket group, rest. */
  function MatchSegment(s: string): Segment {
    var k := PrefixLength(s);
    MatchGroup(s[..k], s[k..])
  }

  /** What follows the prefix: a bracket group if one opens and closes here, else nothing. */
  function MatchGroup(prefix: string, t: string): Segment {
    var close := Find(t, ']');
    if t != "" && t[0] == '[' && close < |t| then Segment(prefix, Some(t[1..close]), t[close + 1..])
    else Segment(prefix, None, t)
  }

  /** Why the recursion of `expand_part` ends: on a scanned part every step consumes text. */
  lemma {:induction false} SegmentConsumes(s: string)
    requires IsPart(s) && s != ""
    ensures var seg := MatchSegment(s); |seg.rest| < |s| && IsPart(seg.rest)
  {
    var k := PrefixLength(s);
    assert s == s[..k] + s[k..];
    LevelConcat(s[..k], s[k..], 0);
    LevelPrefix(s[..k]);
    LevelDead(s[k..]);
    if k < |s| {
      LevelDead(s[k..][1..]);
      GroupCloses(s[k..]);
    }
  }

  /** A bracket opened in a part is closed in it. */
  lemma {:induction false} GroupCloses(t: string)
    requires IsPart(t) && t != "" && t[0] == '['
    ensures var close := Find(t, ']'); 0 < close < |t| && IsPart(t[close + 1..]) && '[' !in t[1..close]
  {
    var close := Find(t, ']');
    var group := t[..close][1..];
    assert t[1..] == group + t[close..];
    LevelConcat(group, t[close..], 1);
    LevelInside(group);
    LevelDead(t[close..]);
  }

  /** Without commas and opening brackets a part is at level 0 or dead. */
  lemma {:induction false} LevelPrefix(s: string)
    requires ',' !in s && '[' !in s
    ensures Level(s, 0) == if ']' in s then -1 else 0
  {
    if s != "" {
      if s[0] == ']' {
        LevelDead(s[1..]);
      } else {
        assert s == [s[0]] + s[1..];
        LevelPrefix(s[1..]);
      }
    }
  }

  function ExpandPart(s: string): (r: Result<seq<string>>)
    requires IsPart(s)
    ensures r.Ok? ==> |r.value| <= MAX_SIZE
    decreases |s|
  {
    if s == "" then Ok([""])
    else
      SegmentConsumes(s);
      var seg := MatchSegment(s);
      match ExpandPart(seg.rest)
      case Err(e) => Err(e)
      case Ok(rest) =>
        var us := match seg.ranges
          case None => Ok([seg.prefix])
          case Some(rangelist) => RangelistNames(seg.prefix, SplitCommas(rangelist));
        match us
        case Err(e) => Err(e)
        case Ok(names) =>
          CrossSize(names, rest);
          if |names| * |rest| > MAX_SIZE then Err(ResultsTooLarge) else Ok(Cross(names, rest))
  }

  lemma {:induction false} CrossSize(us: seq<string>, them: seq<string>)
    ensures |Cross(us, them)| == |us| * |them|
  {
    if us != [] {
      CrossSize(us[1..], them);
      assert |us| * |them| == |them| + (|us| - 1) * |them|;
    }
  }

  // ---------- expand_hostlist ----------

  /** `remove_duplicates`: first occurrences, in order. */
  function FirstOccurrences(names: seq<string>): (r: seq<string>)
    ensures forall x :: x in r <==> x in names
    ensures forall i, j :: 0 <= i < j < |r| ==> r[i] != r[j]
  {
    if names == [] then []
    else
      var last := names[|names| - 1];
      var before := FirstOccurrences(names[..|names| - 1]);
      assert names == names[..|names| - 1] + [last];
      if last in before then before else before + [last]
  }

  lemma {:induction false} PurgeStep(names: seq<string>, last: string)
    ensures var before := FirstOccurrences(names);
      FirstOccurrences(names + [last]) == if last in before then before else before + [last]
  {
    assert (names + [last])[..|names|] == names;
  }

  /** Purging keeps the first occurrences in order, and a list without repetition as it is. */
  lemma {:induction false} PurgedInOrder(names: seq<string>)
    ensures FirstsInOrder(names, FirstOccurrences(names))
    ensures Distinct(names) ==> FirstOccurrences(names) == names
    decreases |names|
  {
    hide FirstsInOrder, FirstOccurrences;
    if names == [] {
      NothingPurged();
    } else {
      var before, last := names[..|names| - 1], names[|names| - 1];
      assert names == before + [last];
      PurgedInOrder(before);
      PurgeStep(before, last);
      FirstsStep(before, FirstOccurrences(before), last);
      if Distinct(names) {
        DistinctParts(before, [last]);
        assert last in [last] && last !in before;
      }
    }
  }

  lemma {:induction false} NothingPurged()
    ensures FirstOccurrences([]) == [] && FirstsInOrder<string>([], [])
  {
  }

  method RemoveDuplicates(names: seq<string>) returns (results: seq<string>)
    ensures results == FirstOccurrences(names)
    ensures FirstsInOrder(names, results) && (Distinct(names) ==> results == names)
  {
    var seen := {};
    results := [];
    for i := 0 to |names|
      invariant results == FirstOccurrences(names[..i])
      invariant seen == set x | x in results
    {
      assert names[..i + 1][..i] == names[..i];
      if names[i] !in seen {
        results := results + [names[i]];
        seen := seen + {names[i]};
      }
    }
    assert names[..|names|] == names;
    PurgedInOrder(names);
  }

  /** The character scanner, from bracket level `level` with `part` and `results` so far. */
  function Scan(s: string, level: int, part: string, results: seq<string>): Result<seq<string>>
    requires 0 <= level <= 1 && Level(part, 0) == level
  {
    if s == "" then if level > 0 then Err(UnbalancedBrackets) else Ok(results)
    else if s[0] == ',' && level == 0 then
      match if part == "" then Ok([]) else ExpandPart(part)
      case Err(e) => Err(e)
      case Ok(names) => Scan(s[1..], 0, "", results + names)
    else
      LevelConcat(part, [s[0]], 0);
      if s[0] == '[' && level == 1 then Err(NestedBrackets)
      else if s[0] == ']' && level == 0 then Err(UnbalancedBrackets)
      else Scan(s[1..], NextLevel(level, s[0]), part + [s[0]], results)
  }

  function Expand(hostlist: string, allowDuplicates: bool): Result<seq<string>> {
    match Scan(hostlist + ",", 0, "", [])
    case Err(e) => Err(e)
    case Ok(names) => Ok(if allowDuplicates then names else FirstOccurrences(names))
  }

  method ExpandHostlist(hostlist: string, allowDuplicates: bool) returns (r: Result<seq<string>>)
    ensures r == Expand(hostlist, allowDuplicates)
  {
    var results := [];
    var bracketLevel := 0;
    var part := "";
    var text := hostlist + ",";
    for i := 0 to |text|
      invariant 0 <= bracketLevel <= 1 && Level(part, 0) == bracketLevel
      invariant Scan(text, 0, "", []) == Scan(text[i..], bracketLevel, part, results)
    {
      var c := text[i];
      assert text[i..][1..] == text[i + 1..];
      LevelConcat(part, [c], 0);
      if c == ',' && bracketLevel == 0 {
        if part != "" {
          var names := ExpandPart(part);
          if names.Err? {
            return names;
          }
          results := results + names.value;
        }
        assert results + [] == results;
        part := "";
      } else {
        part := part + [c];
      }
      if c == '[' {
        bracketLevel := bracketLevel + 1;
      } else if c == ']' {
        bracketLevel := bracketLevel - 1;
      }
      if bracketLevel > 1 {
        return Err(NestedBrackets);
      } else if bracketLevel < 0 {
        return Err(UnbalancedBrackets);
      }
    }
    if bracketLevel > 0 {
      return Err(UnbalancedBrackets);
    }
    if !allowDuplicates {
      results := RemoveDuplicates(results);
    }
    return Ok(results);
  }
}
