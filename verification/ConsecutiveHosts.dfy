/** Consecutive hosts: what they collect to, and exactly when the collected text can be expanded again. */
module ConsecutiveHosts {
  import opened Decimal
  import opened Expansion
  import opened Lines
  import opened Options
  import opened Meaning
  import opened Collection
  import opened NameAlgebra
  import opened Distinctness
  import opened RunStructure
  import opened RoundTrip

  /** A name in front of the numbers: no digit, no special character, and nothing that stripping would remove. */
  ghost predicate IsName(p: string) {
    && p != "" && Unmarked(p) && !IsSpace(p[0])
    && forall i :: 0 <= i < |p| ==> !IsDigit(p[i])
  }

  /** The hosts `p` followed by the numbers from `low` to `high`, with leading zeros up to `width`. */
  function HostRun(p: string, width: nat, low: nat, high: nat): seq<string>
    requires low <= high
  {
    seq(high + 1 - low, i requires 0 <= i < high + 1 - low => HostAt(p, width, low + i, ""))
  }

  // ---------- collecting ----------

  /** A name and a numeral split where they meet. */
  lemma {:induction false} SplitNameNumber(p: string, d: string)
    requires IsName(p) && IsNumeral(d)
    ensures SplitLeft(p + d) == Split.Split(p, d, "")
  {
    hide SplitLeft, DigitsEnd, DigitsStart, Runs;
    var left := p + d;
    assert IsDigit(left[|left| - 1]) by {
      assert left[|left| - 1] == d[|d| - 1];
    }
    SplitShape(left);
    var r := SplitLeft(left);
    NoMarks(p, d);
    assert r.prefix == left[..|r.prefix|] && r.suffix == left[|left| - |r.suffix|..];
    NoRuns(r.suffix);
    NoRuns("");
    assert left == p + d + "";
    SplitUnique(p, d, "", r.prefix, r.number, r.suffix);
  }

  lemma {:induction false} NoMarks(p: string, d: string)
    requires Unmarked(p) && IsNumeral(d)
    ensures Unmarked(p + d)
  {
    forall i | |p| <= i < |p + d| ensures (p + d)[i] !in "[]," {
      assert (p + d)[i] == d[i - |p|] && IsDigit(d[i - |p|]);
    }
  }

  lemma {:induction false} SplitName(p: string)
    requires IsName(p)
    ensures SplitLeft(p) == NoNumber
  {
  }

  function ItemAt(p: string, width: nat, n: nat): Item {
    Numeric(p, "", n, |Padded(width, n)|, HostAt(p, width, n, ""))
  }

  function ItemRun(p: string, width: nat, low: nat, high: nat): (items: seq<Item>)
    requires low <= high
    ensures |items| == high + 1 - low
  {
    seq(high + 1 - low, i requires 0 <= i < high + 1 - low => ItemAt(p, width, low + i))
  }

  function EntryRun(p: string, width: nat, low: nat, high: nat): (entries: seq<Entry>)
    requires low <= high
    ensures |entries| == high + 1 - low
  {
    seq(high + 1 - low, i requires 0 <= i < high + 1 - low => Entry(HostAt(p, width, low + i, ""), ""))
  }

  lemma {:induction false} ItemOfHost(p: string, width: nat, n: nat)
    requires IsName(p)
    ensures ItemOf(Entry(HostAt(p, width, n, ""), "")) == ItemAt(p, width, n)
  {
    var d := Padded(width, n);
    ReadPadded(width, n);
    assert HostAt(p, width, n, "") == p + d;
    SplitNameNumber(p, d);
  }

  lemma {:induction false} ItemsOfRun(p: string, width: nat, low: nat, high: nat)
    requires IsName(p) && low <= high
    ensures ItemsOf(EntryRun(p, width, low, high)) == ItemRun(p, width, low, high)
  {
    hide ItemOf, ItemAt, IsName;
    forall i | 0 <= i <= high - low
      ensures ItemsOf(EntryRun(p, width, low, high))[i] == ItemRun(p, width, low, high)[i]
    {
      ItemOfHost(p, width, low + i);
    }
  }

  /** Ascending numbers are sorted already. */
  lemma {:induction false} SortRun(p: string, width: nat, low: nat, high: nat)
    requires low <= high
    ensures Sort(ItemRun(p, width, low, high)) == ItemRun(p, width, low, high)
    decreases high - low
  {
    hide HostAt, Padded;
    var items := ItemRun(p, width, low, high);
    if low < high {
      assert items[0] == ItemAt(p, width, low) && items[1] == ItemAt(p, width, low + 1);
      assert !Less(items[1], items[0]);
      assert items == [items[0]] + items[1..];
      assert items[1..] == ItemRun(p, width, low + 1, high);
      SortRun(p, width, low + 1, high);
    } else {
      assert items[1..] == [] && items == [items[0]];
    }
  }

  lemma {:induction false} DifferentHosts(p: string, width: nat, m: nat, n: nat)
    requires m != n
    ensures HostAt(p, width, m, "") != HostAt(p, width, n, "")
  {
    ReadPadded(width, m);
    ReadPadded(width, n);
    var a, b := Padded(width, m), Padded(width, n);
    assert HostAt(p, width, m, "")[|p|..] == a && HostAt(p, width, n, "")[|p|..] == b;
  }

  /** The hosts with numbers from `low` to `high`, nothing else. */
  ghost predicate HoldsRun(hosts: set<string>, p: string, width: nat, low: nat, high: nat) {
    && (forall n :: low <= n <= high ==> HostAt(p, width, n, "") in hosts)
    && (forall h :: h in hosts ==> exists n :: low <= n <= high && h == HostAt(p, width, n, ""))
  }

  /** The scan takes the whole run. */
  lemma {:induction false} ScanRun(p: string, width: nat, low: nat, high: nat, hosts: set<string>)
    requires low <= high + 1 && HoldsRun(hosts, p, width, low, high)
    ensures ScanRange(p, "", width, low, hosts) == (high + 1, {})
    decreases high + 1 - low
  {
    hide HostAt;
    if low <= high {
      var rest := hosts - {HostAt(p, width, low, "")};
      forall n | low + 1 <= n <= high ensures HostAt(p, width, n, "") in rest {
        DifferentHosts(p, width, n, low);
      }
      ScanRun(p, width, low + 1, high, rest);
    } else {
      assert hosts == {};
    }
  }

  lemma {:induction false} NothingScanned(group: seq<Item>)
    requires forall x :: x in group ==> x.Numeric? && x.Coherent()
    ensures GroupRanges(group, {}) == ([], {})
    decreases |group|
  {
    if group != [] {
      NothingScanned(group[1..]);
    }
  }

  lemma {:induction false} RunHolds(p: string, width: nat, low: nat, high: nat)
    requires low <= high
    ensures HoldsRun(HostSet(ItemRun(p, width, low, high)), p, width, low, high)
  {
    hide HostAt, Padded;
    var items := ItemRun(p, width, low, high);
    forall n | low <= n <= high ensures HostAt(p, width, n, "") in HostSet(items) {
      assert items[n - low] in items && items[n - low] == ItemAt(p, width, n);
    }
    forall h | h in HostSet(items) ensures exists n :: low <= n <= high && h == HostAt(p, width, n, "") {
      var x :| x in items && x.host == h;
      var i :| 0 <= i < |items| && items[i] == x;
      assert x == ItemAt(p, width, low + i);
    }
  }

  /** A run is one group with one range. */
  lemma {:induction false} GroupOfRun(p: string, width: nat, low: nat, high: nat)
    requires low <= high && |Padded(width, low)| == width
    ensures var items := ItemRun(p, width, low, high);
      && GroupLength(items) == |items|
      && (forall x :: x in items ==> x.Numeric? && x.Coherent())
      && GroupRanges(items, HostSet(items)) == ([Range(low, high, width)], {})
  {
    hide GroupRanges, ScanRange, Padded, HostAt, ItemRun, HostSet, HoldsRun, GroupLength;
    var items := ItemRun(p, width, low, high);
    OneKey(p, width, low, high);
    RunHolds(p, width, low, high);
    ScanRun(p, width, low, high, HostSet(items));
    NothingScanned(items[1..]);
    FirstItem(p, width, low, high);
    FirstRange(items, HostSet(items));
    assert [Range(low, high, width)] + [] == [Range(low, high, width)];
  }

  /** All items of a run have one key, so they are one group. */
  lemma {:induction false} OneKey(p: string, width: nat, low: nat, high: nat)
    requires low <= high
    ensures var items := ItemRun(p, width, low, high);
      && (forall x :: x in items ==> x.Numeric? && x.Coherent())
      && GroupLength(items) == |items|
  {
    hide ItemRun, Padded, HostAt;
    var items := ItemRun(p, width, low, high);
    forall i | 0 <= i < |items|
      ensures items[i].Numeric? && items[i].Coherent() && items[i].Key() == Numeric(p, "", 0, 0, "")
    {
      ItemCoherent(p, width, low, high, items[i]);
    }
  }

  lemma {:induction false} FirstItem(p: string, width: nat, low: nat, high: nat)
    requires low <= high
    ensures var items := ItemRun(p, width, low, high);
      items[0] == ItemAt(p, width, low) && items[0].host in HostSet(items)
  {
    hide Padded, HostAt;
    assert ItemRun(p, width, low, high)[0] in ItemRun(p, width, low, high);
  }

  lemma {:induction false} ItemCoherent(p: string, width: nat, low: nat, high: nat, x: Item)
    requires low <= high && x in ItemRun(p, width, low, high)
    ensures x.Numeric? && x.Coherent() && x.Key() == Numeric(p, "", 0, 0, "")
  {
    var items := ItemRun(p, width, low, high);
    var i :| 0 <= i < |items| && items[i] == x;
    PadAgain(width, low + i);
  }

  /** Printing at the printed width changes nothing. */
  lemma {:induction false} PadAgain(width: nat, n: nat)
    ensures Padded(|Padded(width, n)|, n) == Padded(width, n)
  {
    ReadPadded(width, n);
    PrintValue(Padded(width, n));
  }

  lemma {:induction false} FirstRange(group: seq<Item>, hosts: set<string>)
    requires group != [] && forall x :: x in group ==> x.Numeric? && x.Coherent()
    requires group[0].host in hosts
    ensures var x := group[0];
      var (end, left) := ScanRange(x.prefix, x.suffix, x.width, x.num, hosts);
      var (ranges, rest) := GroupRanges(group[1..], left);
      GroupRanges(group, hosts) == ([Range(x.num, end - 1, x.width)] + ranges, rest)
  {
    assert group[0] in group && group[0].Coherent();
  }

  /** The text a run is collected to, after its name: a number, or its ends in brackets. */
  function RunText(width: nat, low: nat, high: nat): string {
    if low == high then Padded(width, low) else "[" + Padded(width, low) + "-" + Padded(width, high) + "]"
  }

  lemma {:induction false} RunTextIs(width: nat, low: nat, high: nat)
    ensures RunText(width, low, high) == if low == high then Padded(width, low)
                                         else "[" + Padded(width, low) + "-" + Padded(width, high) + "]"
  {
  }

  lemma {:induction false} OneRangeText(width: nat, low: nat, high: nat)
    ensures RangesText([Range(low, high, width)]) == RunText(width, low, high)
  {
    hide Padded;
    var texts := FormatRanges([Range(low, high, width)]);
    assert texts == [texts[0]];
    assert Join(texts) == texts[0];
    if low != high {
      assert "[" + (Padded(width, low) + "-" + Padded(width, high)) + "]" == RunText(width, low, high);
    }
  }

  lemma {:induction false} FirstPass(p: string, width: nat, low: nat, high: nat)
    requires IsName(p) && low <= high && |Padded(width, low)| == width
    ensures CollectOnce(EntryRun(p, width, low, high)) == ([Entry(p, RunText(width, low, high))], {}, true)
  {
    hide GroupRanges, RangesText, RunText, ItemAt, HostSet, Sort, ItemOf;
    OneRangeText(width, low, high);
    var items := ItemRun(p, width, low, high);
    ItemsOfRun(p, width, low, high);
    SortRun(p, width, low, high);
    GroupOfRun(p, width, low, high);
    WholeGroup(items, HostSet(items), p, [Range(low, high, width)]) by {
      ItemCoherent(p, width, low, high, items[0]);
    }
  }

  lemma {:induction false} WholeGroup(items: seq<Item>, hosts: set<string>, p: string, ranges: seq<Range>)
    requires items != [] && GroupLength(items) == |items| && forall x :: x in items ==> x.Numeric? && x.Coherent()
    requires items[0].Key() == Numeric(p, "", 0, 0, "") && GroupRanges(items, hosts) == (ranges, {})
    ensures Groups(items, hosts) == ([Entry(p, RangesText(ranges))], {}, true)
  {
    hide GroupRanges, RangesText, GroupLength;
    assert items[..GroupLength(items)] == items && items[GroupLength(items)..] == [];
    assert RangesText(ranges) + "" == RangesText(ranges);
    assert FirstEntry(items, hosts) == (Entry(p, RangesText(ranges)), {});
    assert Groups([], {}) == ([], {}, false);
    assert [Entry(p, RangesText(ranges))] + [] == [Entry(p, RangesText(ranges))];
  }

  lemma {:induction false} SecondPass(p: string, text: string)
    requires IsName(p)
    ensures CollectOnce([Entry(p, text)]) == ([Entry("", p + text)], {}, false)
  {
    SplitName(p);
    var items := [Plain(p + text)];
    assert ItemOf(Entry(p, text)) == items[0];
    assert ItemsOf([Entry(p, text)]) == items;
    assert items[1..] == [] && Sort(items[1..]) == [] && Sort(items) == items;
    assert GroupLength(items) == 1 && items[..GroupLength(items)] == items && items[GroupLength(items)..] == [];
    assert HostSet(items) == {p + text};
    assert {p + text} - {p + text} == {};
    assert FirstEntry(items, {p + text}) == (Entry("", p + text), {});
    assert Groups([], {}) == ([], {}, false);
    assert [Entry("", p + text)] + [] == [Entry("", p + text)];
  }

  lemma {:induction false} RunPasses(p: string, width: nat, low: nat, high: nat)
    requires IsName(p) && low <= high && |Padded(width, low)| == width
    ensures Passes(EntryRun(p, width, low, high)).0 == [Entry("", p + RunText(width, low, high))]
  {
    hide RunText, EntryRun, CollectOnce;
    FirstPass(p, width, low, high);
    SecondPass(p, RunText(width, low, high));
  }

  lemma {:induction false} HostIsClean(p: string, width: nat, n: nat)
    requires IsName(p)
    ensures var h := HostAt(p, width, n, ""); Strip(h) == h && Unmarked(h) && h != ""
  {
    var d := Padded(width, n);
    ReadPadded(width, n);
    var h := HostAt(p, width, n, "");
    assert h == p + d;
    assert h[0] == p[0] && h[|h| - 1] == d[|d| - 1] && IsDigit(d[|d| - 1]);
    forall i | |p| <= i < |h| ensures h[i] !in "[]," {
      assert h[i] == d[i - |p|] && IsDigit(h[i]);
    }
  }

  lemma {:induction false} PrepareRun(p: string, width: nat, low: nat, high: nat, discardBad: bool)
    requires IsName(p) && low <= high
    ensures Prepare(HostRun(p, width, low, high), discardBad) == Ok(EntryRun(p, width, low, high))
    decreases high - low
  {
    hide IsName, Strip, HostAt, Unmarked;
    var hosts, k := HostRun(p, width, low, high), high - low;
    HostIsClean(p, width, high);
    var e := Entry(HostAt(p, width, high, ""), "");
    if low < high {
      PrepareRun(p, width, low, high - 1, discardBad);
      assert hosts[..k] == HostRun(p, width, low, high - 1);
      assert EntryRun(p, width, low, high) == EntryRun(p, width, low, high - 1) + [e];
    } else {
      assert hosts[..k] == [];
      assert EntryRun(p, width, low, high) == [] + [e];
    }
  }

  /** Consecutive hosts are collected to one range, a single host to itself. */
  lemma {:induction false} CollectRun(p: string, width: nat, low: nat, high: nat, discardBad: bool)
    requires IsName(p) && low <= high && |Padded(width, low)| == width
    ensures var hosts := HostRun(p, width, low, high);
      && Prepare(hosts, discardBad).Ok?
      && CollectedParts(hosts, discardBad) == [p + RunText(width, low, high)]
      && Collect(hosts, discardBad) == Ok(p + RunText(width, low, high))
    ensures RunText(width, low, high) == if low == high then Padded(width, low)
                                         else "[" + Padded(width, low) + "-" + Padded(width, high) + "]"
  {
    hide RunText, EntryRun, HostRun, Passes, Prepare;
    RunTextIs(width, low, high);
    PrepareRun(p, width, low, high, discardBad);
    RunPasses(p, width, low, high);
    var text := p + RunText(width, low, high);
    assert "" + text == text;
    assert HostTexts([Entry("", text)]) == [text];
  }

  // ---------- expanding again ----------

  lemma {:induction false} RunSize(p: string, width: nat, low: nat, high: nat)
    requires IsName(p) && low <= high && |Padded(width, low)| == width
    ensures |Names(p + RunText(width, low, high))| == high + 1 - low
  {
    hide RunText, Names, TakesPart, Passes, Flat, Prepare, IsName;
    var hosts := HostRun(p, width, low, high);
    var text := p + RunText(width, low, high);
    CollectRun(p, width, low, high, true);
    PrepareHosts(hosts, true);
    CollectedNames(hosts, Prepare(hosts, true).value);
    OneText(text);
    RunTakesPart(p, width, low, high);
    SameMembers(hosts, Names(text));
    assert |multiset(hosts)| == |hosts| && |multiset(Names(text))| == |Names(text)|;
  }

  lemma {:induction false} OneText(text: string)
    ensures Flat([text]) == Names(text)
  {
    hide Names;
    assert [text][1..] == [] && Names(text) + [] == Names(text);
  }

  lemma {:induction false} RunTakesPart(p: string, width: nat, low: nat, high: nat)
    requires IsName(p) && low <= high
    ensures var hosts := HostRun(p, width, low, high);
      Distinct(hosts) && forall h :: h in hosts <==> TakesPart(hosts, h)
  {
    hide IsName, Strip, Unmarked, HostAt;
    var hosts := HostRun(p, width, low, high);
    forall i | 0 <= i < |hosts| ensures Strip(hosts[i]) == hosts[i] && Unmarked(hosts[i]) && hosts[i] != "" {
      HostIsClean(p, width, low + i);
    }
    forall i, j | 0 <= i < j < |hosts| ensures hosts[i] != hosts[j] {
      DifferentHosts(p, width, low + i, low + j);
    }
  }

  lemma {:induction false} RunOverflows(p: string, width: nat, low: nat, high: nat)
    requires IsName(p) && low < high && |Padded(width, low)| == width
    ensures var text := p + RunText(width, low, high);
      IsPart(text) && (Overflows(text) <==> high + 1 > LONG_MAX)
  {
    hide IsName;
    var a, b := Padded(width, low), Padded(width, high);
    ReadPadded(width, low);
    ReadPadded(width, high);
    var inside := a + "-" + b;
    RangeOfEnds(a, b);
    assert Unmarked(p) by { NameUnmarked(p); }
    MatchBracket(inside, "");
    var group := "[" + inside + "]";
    assert group + "" == group && RunText(width, low, high) == group by {
      assert "[" + (a + "-" + b) + "]" == "[" + a + "-" + b + "]";
    }
    LevelConcat(p, group, 0);
    LevelUnmarked(p);
    MatchUnmarked(p, group);
    assert MatchSegment(p + group) == Segment(p + "", Some(inside), "");
    assert !Overflows("");
    AnyOverflowsStep([inside]);
    assert [inside][1..] == [];
  }

  lemma {:induction false} NameUnmarked(p: string)
    requires IsName(p)
    ensures Unmarked(p)
  {
  }

  /** A range as it is printed, and as it is read. */
  lemma {:induction false} RangeOfEnds(a: string, b: string)
    requires IsNumeral(a) && IsNumeral(b)
    ensures var inside := a + "-" + b;
      && '[' !in inside && ']' !in inside && SplitCommas(inside) == [inside]
      && (RangeOverflows(inside) <==> Value(b) + 1 > LONG_MAX)
  {
    var inside := a + "-" + b;
    assert inside == a + ['-'] + b;
    assert inside[|a|] == '-';
    FindAt(a, '-', b);
    assert inside[..|a|] == a && inside[|a| + 1..] == b;
    forall i | 0 <= i < |inside| ensures inside[i] !in "[]," {
      assert i < |a| ==> inside[i] == a[i] && IsDigit(a[i]);
      assert i > |a| ==> inside[i] == b[i - |a| - 1] && IsDigit(b[i - |a| - 1]);
    }
    assert Find(inside, ',') == |inside|;
  }

  /**
   * The round trip of consecutive hosts succeeds exactly when there are at most MAX_SIZE of them and the loop over
   * their numbers stays within a C long.
   */
  lemma {:induction false} RunComesBack(p: string, width: nat, low: nat, high: nat, allowDuplicates: bool)
    requires IsName(p) && low < high && |Padded(width, low)| == width
    ensures var hosts := HostRun(p, width, low, high);
      && Collect(hosts, false).Ok?
      && var r := Expand(Collect(hosts, false).value, allowDuplicates);
      && (r.Ok? <==> high + 1 - low <= MAX_SIZE && high + 1 <= LONG_MAX)
      && (r.Err? && high + 1 <= LONG_MAX ==> SizeError(r.error))
      && (r.Err? && high + 1 - low <= MAX_SIZE ==> r.error == LongOverflow)
  {
    hide IsName, RunText, HostRun, Names, Overflows, TakesPart, Strip, Unmarked, Prepare, Passes;
    var hosts := HostRun(p, width, low, high);
    var text := p + RunText(width, low, high);
    CollectRun(p, width, low, high, false);
    RunNotRefused(p, width, low, high);
    CollectThenExpand(hosts, false, allowDuplicates);
    RunSize(p, width, low, high);
    RunOverflows(p, width, low, high);
    assert text in CollectedParts(hosts, false);
  }

  lemma {:induction false} RunNotRefused(p: string, width: nat, low: nat, high: nat)
    requires IsName(p) && low <= high
    ensures var hosts := HostRun(p, width, low, high); forall i :: 0 <= i < |hosts| ==> Unmarked(Strip(hosts[i]))
  {
    hide IsName, Strip, Unmarked, HostAt;
    forall i | 0 <= i < high + 1 - low ensures Unmarked(Strip(HostRun(p, width, low, high)[i])) {
      HostIsClean(p, width, low + i);
    }
  }

  // ---------- two lists that do not come back ----------

  /** n0 to n100000: the text collected is refused for its size. */
  lemma {:induction false} TooManyToExpand(allowDuplicates: bool)
    ensures var hosts := HostRun("n", 1, 0, 100000);
      && hosts[0] == "n0" && Collect(hosts, false).Ok?
      && var r := Expand(Collect(hosts, false).value, allowDuplicates);
      r.Err? && SizeError(r.error)
  {
    RunComesBack("n", 1, 0, 100000, allowDuplicates);
  }

  /** n1 to n100000: as many as there may be, and they come back. */
  lemma {:induction false} JustEnoughToExpand(allowDuplicates: bool)
    ensures var hosts := HostRun("n", 1, 1, 100000);
      && |hosts| == 100000 && Collect(hosts, false).Ok?
      && Expand(Collect(hosts, false).value, allowDuplicates).Ok?
  {
    RunComesBack("n", 1, 1, 100000, allowDuplicates);
  }

  /** n9223372036854775807 and the next: two hosts whose text makes the loop overflow. */
  lemma {:induction false} TooLargeToCount(allowDuplicates: bool)
    ensures var hosts := HostRun("n", 19, LONG_MAX, LONG_MAX + 1);
      && |hosts| == 2 && Collect(hosts, false).Ok?
      && Expand(Collect(hosts, false).value, allowDuplicates) == Err(LongOverflow)
  {
    assert TenTo(5) == 100000 && TenTo(10) == 10_000_000_000;
    assert TenTo(15) == 1_000_000_000_000_000 && TenTo(19) == 10_000_000_000_000_000_000;
    FewDigits(LONG_MAX, 19);
    RunComesBack("n", 19, LONG_MAX, LONG_MAX + 1, allowDuplicates);
  }
}
