/** The shape of a collected text: brackets only where they are needed, ranges and parts in order. */
module Brackets {
  import opened Decimal
  import opened Expansion
  import opened Meaning
  import opened Collection
  import opened Order
  import opened NameAlgebra
  import opened Distinctness
  import opened Cover
  import opened RoundTrip
  import opened CollectHostlist
  import opened Options

  /** The number a range starts with. */
  function StartValue(piece: string): nat {
    var start := piece[..Find(piece, '-')];
    if AllDigits(start) then Value(start) else 0
  }

  /** A bracket group that is needed: it denotes at least two numbers, and its ranges start in ascending order. */
  ghost predicate GroupTight(pieces: seq<string>) {
    && GroupMeaning(pieces).Some? && |GroupMeaning(pieces).value| >= 2
    && forall i, j :: 0 <= i < j < |pieces| ==> StartValue(pieces[i]) <= StartValue(pieces[j])
  }

  /** Every bracket group of the part is needed. */
  ghost predicate Tight(s: string)
    decreases |s|
  {
    IsPart(s) &&
    (s == "" ||
     (SegmentConsumes(s);
      var seg := MatchSegment(s);
      (seg.ranges.Some? ==> GroupTight(SplitCommas(seg.ranges.value))) && Tight(seg.rest)))
  }

  lemma {:induction false} TightUnmarked(p: string, t: string)
    requires Unmarked(p) && Tight(t)
    ensures Tight(p + t)
  {
    hide GroupTight, Unmarked;
    LevelConcat(p, t, 0);
    LevelUnmarked(p);
    MatchUnmarked(p, t);
    if p == "" {
      assert p + t == t;
    } else if t == "" {
      assert MatchSegment("") == Segment("", None, "");
      assert IsPart("");
    }
  }

  lemma {:induction false} TightGroup(inside: string, t: string)
    requires '[' !in inside && ']' !in inside && GroupTight(SplitCommas(inside)) && Tight(t)
    ensures Tight("[" + inside + "]" + t)
  {
    hide GroupTight;
    MatchBracket(inside, t);
  }

  // ---------- one group ----------

  ghost predicate LowsAscend(ranges: seq<Range>) {
    forall i, j :: 0 <= i < j < |ranges| ==> ranges[i].low <= ranges[j].low
  }

  lemma {:induction false} StartOfRange(r: Range)
    requires RangeReady(r)
    ensures StartValue(FormatRange(r)) == r.low
  {
    hide Padded, Value;
    var a, b := Padded(r.width, r.low), Padded(r.width, r.high);
    ReadPadded(r.width, r.low);
    if r.low == r.high {
      assert Find(a, '-') == |a| && a[..|a|] == a;
    } else {
      FindAt(a, '-', b);
      assert a + "-" + b == a + ['-'] + b && (a + ['-'] + b)[..|a|] == a;
    }
  }

  lemma {:induction false} CountNumbers(ranges: seq<Range>)
    requires RangesReady(ranges)
    ensures |AllNumbers(ranges)| >= |ranges|
    ensures ranges != [] && ranges[0].low < ranges[0].high ==> |AllNumbers(ranges)| >= |ranges| + 1
  {
    if ranges != [] {
      CountNumbers(ranges[1..]);
    }
  }

  lemma {:induction false} NumeralUnmarked(d: string)
    requires IsNumeral(d)
    ensures Unmarked(d)
  {
  }

  /** What is written for the numbers of a group. */
  lemma {:induction false} RangesTight(ranges: seq<Range>, suffix: string)
    requires ranges != [] && RangesReady(ranges) && LowsAscend(ranges) && Tight(suffix)
    ensures Tight(RangesText(ranges) + suffix)
  {
    hide Tight, Padded;
    if |ranges| == 1 && ranges[0].low == ranges[0].high {
      ReadPadded(ranges[0].width, ranges[0].low);
      NumeralUnmarked(Padded(ranges[0].width, ranges[0].low));
      TightUnmarked(RangesText(ranges), suffix);
    } else {
      var texts := FormatRanges(ranges);
      FormatsMeaning(ranges);
      FormatsPlain(ranges);
      SplitJoin(texts);
      JoinFree(texts, '[');
      JoinFree(texts, ']');
      CountNumbers(ranges);
      forall i, j | 0 <= i < j < |texts| ensures StartValue(texts[i]) <= StartValue(texts[j]) {
        StartOfRange(ranges[i]);
        StartOfRange(ranges[j]);
      }
      TightGroup(Join(texts), suffix);
    }
  }

  /** A group's numbers ascend, so its ranges do. */
  lemma {:induction false} RangesAscend(group: seq<Item>, remaining: set<string>)
    requires forall x :: x in group ==> x.Numeric? && x.Coherent()
    requires forall i, j :: 0 <= i < j < |group| ==> group[i].num <= group[j].num
    ensures LowsAscend(GroupRanges(group, remaining).0)
    ensures forall i :: 0 <= i < |GroupRanges(group, remaining).0| ==>
        group != [] && group[0].num <= GroupRanges(group, remaining).0[i].low
    decreases |group|
  {
    if group != [] {
      var x, more := group[0], group[1..];
      assert x in group && x.Coherent();
      var rest := if x.host in remaining then ScanRange(x.prefix, x.suffix, x.width, x.num, remaining).1 else remaining;
      RangesAscend(more, rest);
      var ranges := GroupRanges(more, rest).0;
      forall i | 0 <= i < |ranges| ensures x.num <= ranges[i].low {
        assert more[0] == group[1];
      }
    }
  }

  lemma {:induction false} SortedNumbers(items: seq<Item>, i: nat, j: nat)
    requires Sorted(items) && i < j < |items| && items[i].Numeric? && items[i].Key() == items[j].Key()
    ensures items[i].num <= items[j].num
  {
    assert !Less(items[j], items[i]);
  }

  // ---------- one pass ----------

  ghost predicate TightItem(x: Item) {
    match x
    case Plain(host) => Tight(host)
    case Numeric(_, suffix, _, _, _) => Tight(suffix)
  }

  /** What a pass starts from. */
  ghost predicate PassItems(items: seq<Item>, done: nat) {
    ItemsReady(items, done) && Adjacent(items) && Sorted(items) && forall x :: x in items ==> TightItem(x)
  }

  lemma {:induction false} NumericTight(items: seq<Item>, done: nat)
    requires PassItems(items, done) && items != [] && items[0].Numeric?
    ensures Tight(FirstEntry(items, HostSet(items)).0.right)
  {
    hide Tight, ItemReady, Adjacent, Less, RangesText;
    var x, group := items[0], items[..GroupLength(items)];
    assert x in items && group[0] == x;
    forall y | y in group ensures y.Numeric? && y.Coherent() && ItemReady(y, done) && y.prefix == x.prefix
        && y.suffix == x.suffix
    {
      assert y in items && y.Key() == x.Key();
      ReadyItem(y, done);
    }
    forall i, j | 0 <= i < j < |group| ensures group[i].num <= group[j].num {
      assert items[i].Key() == x.Key() && items[j].Key() == x.Key();
      SortedNumbers(items, i, j);
    }
    GroupCovers(group, x.prefix, x.suffix, HostSet(items), done);
    RangesAscend(group, HostSet(items));
    assert TightItem(x);
    RangesTight(GroupRanges(group, HostSet(items)).0, x.suffix);
  }

  lemma {:induction false} ReadyItem(x: Item, done: nat)
    requires ItemReady(x, done)
    ensures x.Coherent()
  {
  }

  lemma {:induction false} TailItems(items: seq<Item>, k: nat, done: nat)
    requires PassItems(items, done) && k <= |items|
    ensures PassItems(items[k..], done)
  {
    hide ItemReady, Less, TightItem, Adjacent;
    TailReady(items, k, done);
  }

  /** Entries that are finished for good: nothing on the left, each the host of some plain item. */
  ghost predicate AllRight(entries: seq<Entry>, items: seq<Item>) {
    && (forall x :: x in items ==> x.Plain?)
    && forall i :: 0 <= i < |entries| ==> entries[i].left == "" && exists x :: x in items && x.host == entries[i].right
  }

  ghost predicate RightsAscend(entries: seq<Entry>) {
    forall i, j :: 0 <= i < j < |entries| ==> StrLess(entries[i].right, entries[j].right)
  }

  lemma {:induction false} FirstTight(items: seq<Item>, done: nat)
    requires PassItems(items, done) && items != []
    ensures Tight(FirstEntry(items, HostSet(items)).0.right)
  {
    hide Tight, ItemReady, Adjacent, Less;
    if items[0].Numeric? {
      NumericTight(items, done);
    } else {
      assert items[0] in items && items[..GroupLength(items)][0] == items[0] && TightItem(items[0]);
    }
  }

  lemma {:induction false} AllCoherent(items: seq<Item>, done: nat)
    requires PassItems(items, done)
    ensures ItemsReady(items, done) && Adjacent(items) && forall x :: x in items ==> x.Coherent()
  {
    hide Tight, Less, Adjacent;
    forall x | x in items ensures x.Coherent() {
      ReadyItem(x, done);
    }
  }

  /** A plain host stands in front of all others. */
  lemma {:induction false} PlainBefore(items: seq<Item>, done: nat, x: Item)
    requires PassItems(items, done) && items != [] && items[0].Plain? && x in items[GroupLength(items)..] && x.Plain?
    ensures StrLess(items[0].host, x.host)
  {
    hide Tight, ItemReady, StrLess;
    var k := GroupLength(items);
    var i :| 0 <= i < |items[k..]| && items[k..][i] == x;
    assert items[k + i] == x && !Less(x, items[0]);
    BeyondPlain(items, k + i, done);
    StrTotal(items[0].host, x.host);
  }

  lemma {:induction false} RightHost(entries: seq<Entry>, items: seq<Item>, j: nat) returns (x: Item)
    requires AllRight(entries, items) && j < |entries|
    ensures x in items && x.Plain? && x.host == entries[j].right
  {
    assert entries[j].left == "";
    x :| x in items && x.host == entries[j].right;
  }

  lemma {:induction false} PlainFirst(items: seq<Item>, done: nat, entries: seq<Entry>)
    requires PassItems(items, done) && items != [] && items[0].Plain?
    requires AllRight(entries, items[GroupLength(items)..]) && RightsAscend(entries)
    ensures AllRight([Entry("", items[0].host)] + entries, items)
    ensures RightsAscend([Entry("", items[0].host)] + entries)
  {
    hide PassItems, StrLess, Item.Key;
    var k := GroupLength(items);
    var others, all := items[k..], [Entry("", items[0].host)] + entries;
    AllArePlain(items);
    assert items[0] in items;
    assert forall x :: x in others ==> x in items;
    forall j | 0 <= j < |entries| ensures StrLess(items[0].host, entries[j].right) {
      var x := RightHost(entries, others, j);
      PlainBefore(items, done, x);
    }
    forall i, j | 0 <= i < j < |all| ensures StrLess(all[i].right, all[j].right) {
      if i > 0 {
        assert all[i] == entries[i - 1] && all[j] == entries[j - 1];
      }
    }
  }

  lemma {:induction false} AllArePlain(items: seq<Item>)
    requires items != [] && items[0].Plain? && forall x :: x in items[GroupLength(items)..] ==> x.Plain?
    ensures forall x :: x in items ==> x.Plain?
  {
    var k := GroupLength(items);
    forall i | 0 <= i < |items| ensures items[i].Plain? {
      if i < k {
        assert items[i].Key() == items[0].Key();
      } else {
        assert items[i] == items[k..][i - k];
      }
    }
  }

  /** The entries of a pass: only needed brackets, and in a pass without numbers the hosts in ascending order. */
  lemma {:induction false} GroupsTight(items: seq<Item>, done: nat)
    requires PassItems(items, done) && forall x :: x in items ==> x.Coherent()
    ensures var (entries, _, more) := Groups(items, HostSet(items));
      && (forall i :: 0 <= i < |entries| ==> Tight(entries[i].right))
      && (!more ==> AllRight(entries, items) && RightsAscend(entries))
    decreases |items|
  {
    hide Tight, ItemsReady, Adjacent, StrLess, PassItems, GroupLength, AllRight, RightsAscend, GroupEntry;
    if items == [] {
      NothingRight();
    } else {
      AllCoherent(items, done);
      var others := items[GroupLength(items)..];
      FirstLeft(items, done);
      TailItems(items, GroupLength(items), done);
      assert forall x :: x in others ==> x in items;
      GroupsTight(others, done);
      FirstTight(items, done);
      var (entries, _, more) := Groups(others, HostSet(others));
      if !more && items[0].Plain? {
        PlainEntry(items);
        PlainFirst(items, done, entries);
      }
    }
  }

  lemma {:induction false} PlainEntry(items: seq<Item>)
    requires items != [] && items[0].Plain? && forall x :: x in items ==> x.Coherent()
    ensures FirstEntry(items, HostSet(items)).0 == Entry("", items[0].host)
  {
    assert items[..GroupLength(items)][0] == items[0];
  }

  lemma {:induction false} NothingRight()
    ensures AllRight([], []) && RightsAscend([])
  {
  }

  // ---------- all passes ----------

  ghost predicate TightEntries(entries: seq<Entry>) {
    forall i :: 0 <= i < |entries| ==> Tight(entries[i].right)
  }

  lemma {:induction false} ItemOfTight(e: Entry)
    requires Unmarked(e.left) && Tight(e.right)
    ensures TightItem(ItemOf(e))
  {
    hide Tight;
    var r := SplitLeft(e.left);
    if r.NoNumber? {
      TightUnmarked(e.left, e.right);
    } else {
      Pieces(r.prefix, r.number, r.suffix);
      TightUnmarked(r.suffix, e.right);
    }
  }

  lemma {:induction false} PassStarts(entries: seq<Entry>, done: nat)
    requires Ready(entries, done) && TightEntries(entries)
    ensures var items := Sort(ItemsOf(entries));
      && PassItems(items, done) && (forall x :: x in items ==> x.Coherent())
      && HostSet(items) == HostSet(ItemsOf(entries))
  {
    hide Tight, ItemReady, ItemOf, Less, TightItem, WellFormed;
    PassStart(entries, done);
    SortSorted(ItemsOf(entries));
    SortKeeps(ItemsOf(entries));
    forall x | x in Sort(ItemsOf(entries)) ensures TightItem(x) {
      var i :| 0 <= i < |entries| && ItemOf(entries[i]) == x;
      assert EntryReady(entries[i], done);
      ItemOfTight(entries[i]);
    }
  }

  lemma {:induction false} PassesTight(entries: seq<Entry>, done: nat)
    requires Ready(entries, done) && TightEntries(entries)
    ensures var last := Passes(entries).0;
      && TightEntries(last) && RightsAscend(last) && forall i :: 0 <= i < |last| ==> last[i].left == ""
    decreases MaxRuns(entries)
  {
    hide Tight, EntryReady, Groups, Sort, PassItems, RightsAscend;
    PassStarts(entries, done);
    GroupsTight(Sort(ItemsOf(entries)), done);
    var taken := PassCovers(entries, done);
    PassRuns(entries);
    var (next, _, more) := CollectOnce(entries);
    if more {
      PassesTight(next, done + 1);
    }
  }

  // ---------- the collected text ----------

  /** `a` comes before `b` in the order of strings. */
  ghost predicate LexBefore(a: string, b: string) {
    exists k :: 0 <= k <= |a| && k < |b| && a[..k] == b[..k] && (k == |a| || a[k] < b[k])
  }

  lemma {:induction false} LessIsBefore(a: string, b: string)
    requires StrLess(a, b)
    ensures LexBefore(a, b)
    decreases |a|
  {
    if a != "" && a[0] == b[0] {
      LessIsBefore(a[1..], b[1..]);
      var k :| 0 <= k <= |a[1..]| && k < |b[1..]| && a[1..][..k] == b[1..][..k]
          && (k == |a[1..]| || a[1..][k] < b[1..][k]);
      assert a[..k + 1] == [a[0]] + a[1..][..k] && b[..k + 1] == [b[0]] + b[1..][..k];
    } else {
      assert a[..0] == b[..0];
    }
  }

  /** A tight part that denotes one name is that name. */
  lemma {:induction false} TightSingle(p: string)
    requires Tight(p) && |Names(p)| == 1
    ensures Names(p) == [p]
    decreases |p|
  {
    hide GroupMeaning, SplitCommas;
    if p == "" {
      assert Names("") == [""];
    } else {
      NamesStep(p);
      var seg := MatchSegment(p);
      var us, rest := Prepend(seg.prefix, Alternatives(seg.ranges).value), Names(seg.rest);
      CrossSize(us, rest);
      NamesNotEmpty(seg.rest);
      if seg.ranges.Some? {
        MulAtLeast(|us|, |rest|);
      } else {
        NoGroup(p);
        assert p + "" == p && Prepend(p, [""]) == [p] && Names("") == [""];
        CrossSingle(p, [""]);
      }
    }
  }

  lemma {:induction false} MulAtLeast(a: nat, b: nat)
    requires a >= 2 && b >= 1
    ensures a * b >= 2
  {
  }

  lemma {:induction false} NoGroup(p: string)
    requires IsPart(p) && p != "" && MatchSegment(p).ranges.None?
    ensures MatchSegment(p) == Segment(p, None, "")
  {
    var k := PrefixLength(p);
    assert p == p[..k] + p[k..];
    LevelConcat(p[..k], p[k..], 0);
    LevelPrefix(p[..k]);
    LevelDead(p[k..]);
    if k < |p| {
      LevelDead(p[k..][1..]);
      GroupCloses(p[k..]);
    } else {
      assert p[..k] == p && p[k..] == "";
    }
  }

  /**
   * The shape of the collected text: in every part each bracket group denotes at least two numbers and its ranges
   * start in ascending order, a part that denotes one host is that host, and the parts are in string order.
   */
  lemma {:induction false} CollectedShape(hosts: seq<string>, discardBad: bool)
    requires Prepare(hosts, discardBad).Ok?
    ensures var parts := CollectedParts(hosts, discardBad);
      && (forall p :: p in parts ==> Tight(p) && (|Names(p)| == 1 ==> Names(p) == [p]))
      && (forall i, j :: 0 <= i < j < |parts| ==> LexBefore(parts[i], parts[j]))
  {
    hide Tight, Names, Prepare, TakesPart, EntryReady, StrLess, LexBefore, Passes;
    PrepareHosts(hosts, discardBad);
    var entries := Prepare(hosts, discardBad).value;
    FreshEntries(hosts, entries);
    NothingTight();
    PassesTight(entries, 0);
    var last, parts := Passes(entries).0, CollectedParts(hosts, discardBad);
    forall i | 0 <= i < |parts| ensures parts[i] == last[i].right && Tight(parts[i])
        && (|Names(parts[i])| == 1 ==> Names(parts[i]) == [parts[i]])
    {
      assert "" + last[i].right == last[i].right;
      if |Names(parts[i])| == 1 {
        TightSingle(parts[i]);
      }
    }
    forall i, j | 0 <= i < j < |parts| ensures LexBefore(parts[i], parts[j]) {
      LessIsBefore(parts[i], parts[j]);
    }
  }

  lemma {:induction false} NothingTight()
    ensures Tight("")
  {
  }

  /** A single host, however often it is given, is collected to itself. */
  lemma {:induction false} SingleHost(hosts: seq<string>, h: string, discardBad: bool)
    requires Prepare(hosts, discardBad).Ok? && forall x :: TakesPart(hosts, x) <==> x == h
    ensures Collect(hosts, discardBad) == Ok(h)
  {
    hide Tight, Names, TakesPart, LexBefore, Passes, Prepare;
    PrepareHosts(hosts, discardBad);
    CollectedNames(hosts, Prepare(hosts, discardBad).value);
    CollectedShape(hosts, discardBad);
    OnePart(CollectedParts(hosts, discardBad), h);
  }

  lemma {:induction false} OnePart(parts: seq<string>, h: string)
    requires Distinct(Flat(parts)) && forall x :: x in Flat(parts) <==> x == h
    requires forall p :: p in parts ==> WellFormed(p) && (|Names(p)| == 1 ==> Names(p) == [p])
    ensures Join(parts) == h
  {
    hide Names, WellFormed;
    DistinctSize(Flat(parts), {h});
    assert h in Flat(parts);
    var p := parts[0];
    assert p in parts;
    NamesNotEmpty(p);
    if |parts| > 1 {
      assert parts[1] in parts && parts[1..][0] == parts[1];
      NamesNotEmpty(parts[1]);
    }
    assert Flat(parts)[0] == Names(p)[0];
  }
}
