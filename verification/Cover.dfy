/** Each pass of the collection covers exactly the hosts it is given. */
module Cover {
  import opened Decimal
  import opened Expansion
  import opened Meaning
  import opened Collection
  import opened RunStructure
  import opened NameAlgebra
  import opened Distinctness

  /** What holds of every entry after `done` passes. */
  ghost predicate EntryReady(e: Entry, done: nat) {
    && Unmarked(e.left) && WellFormed(e.right) && Runs(e.right) <= done
    && (HasDigit(e.left) ==> Runs(e.right) == done)
    && (e.right == "" || !EndsInDigit(e.left))
  }

  ghost predicate Ready(entries: seq<Entry>, done: nat) {
    forall i :: 0 <= i < |entries| ==> EntryReady(entries[i], done)
  }

  ghost predicate ItemReady(x: Item, done: nat) {
    && x.Coherent()
    && match x
       case Plain(host) => WellFormed(host) && Runs(host) <= done
       case Numeric(prefix, suffix, num, width, host) =>
         && Unmarked(prefix) && !EndsInDigit(prefix)
         && WellFormed(suffix) && !StartsWithDigit(suffix) && Runs(suffix) == done
         && |Padded(width, num)| == width
  }

  ghost predicate ItemsReady(items: seq<Item>, done: nat) {
    forall x :: x in items ==> ItemReady(x, done)
  }

  /** Equal keys are next to each other. */
  ghost predicate Adjacent(items: seq<Item>) {
    forall i, j, k :: 0 <= i < j < k < |items| && items[i].Key() == items[k].Key() ==> items[j].Key() == items[i].Key()
  }

  lemma {:induction false} ItemOfReady(e: Entry, done: nat)
    requires EntryReady(e, done)
    ensures ItemReady(ItemOf(e), done)
  {
    if SplitLeft(e.left).NoNumber? {
      PlainReady(e.left, e.right);
    } else {
      NumericReady(e, done);
    }
  }

  lemma {:induction false} PlainReady(left: string, right: string)
    requires Unmarked(left) && !HasDigit(left) && WellFormed(right)
    ensures WellFormed(left + right) && Runs(left + right) == Runs(right)
  {
    NamesUnmarked(left, right);
    RunsSeparated(left, right);
    NoRuns(left);
  }

  lemma {:induction false} Pieces(prefix: string, number: string, suffix: string)
    requires Unmarked(prefix + number + suffix) && IsNumeral(number)
    ensures Unmarked(prefix) && Unmarked(suffix) && HasDigit(prefix + number + suffix)
    ensures suffix == "" ==> EndsInDigit(prefix + number + suffix)
  {
    var left := prefix + number + suffix;
    assert left[|prefix|] == number[0];
    assert left[..|prefix|] == prefix && left[|prefix + number|..] == suffix;
    assert suffix == "" ==> left[|left| - 1] == number[|number| - 1];
  }

  lemma {:induction false} NumericReady(e: Entry, done: nat)
    requires EntryReady(e, done) && SplitLeft(e.left).Split?
    ensures ItemReady(ItemOf(e), done)
  {
    var r := SplitLeft(e.left);
    SplitShape(e.left);
    Pieces(r.prefix, r.number, r.suffix);
    PrintValue(r.number);
    PlainReady(r.suffix, e.right);
    assert r.suffix != "" ==> (r.suffix + e.right)[0] == r.suffix[0];
    assert r.suffix == "" ==> e.right == "";
  }

  /** A host text with a numeral at a group's place is only ever a host of that group, with that numeral. */
  lemma {:induction false} OnlyInGroup(x: Item, d: string, y: Item, done: nat)
    requires ItemReady(x, done) && ItemReady(y, done) && x.Numeric? && IsNumeral(d)
    requires x.prefix + d + x.suffix == y.host
    ensures y.Key() == x.Key()
  {
    hide WellFormed, Padded, Runs, Unmarked;
    assert x.prefix + d + x.suffix == x.prefix + (d + x.suffix);
    RunsSeparated(x.prefix, d + x.suffix);
    RunsNumeral(d, x.suffix);
    if y.Numeric? {
      ReadPadded(y.width, y.num);
      SplitUnique(x.prefix, d, x.suffix, y.prefix, Padded(y.width, y.num), y.suffix);
    }
  }

  // ---------- one range scan ----------

  function RunHosts(prefix: string, width: nat, from: nat, to: nat, suffix: string): seq<string>
    requires from <= to
  {
    HostsWith(prefix, Numbered("", from, to, width), suffix)
  }

  lemma {:induction false} RunFirst(prefix: string, width: nat, from: nat, to: nat, suffix: string)
    requires from < to
    ensures RunHosts(prefix, width, from, to, suffix)
         == [HostAt(prefix, width, from, suffix)] + RunHosts(prefix, width, from + 1, to, suffix)
  {
    forall i | from <= i < to ensures prefix + ("" + Padded(width, i)) + suffix == HostAt(prefix, width, i, suffix) {
      assert "" + Padded(width, i) == Padded(width, i);
    }
  }

  lemma {:induction false} ScanCovers(prefix: string, suffix: string, width: nat, num: nat, remaining: set<string>)
    ensures var (end, rest) := ScanRange(prefix, suffix, width, num, remaining);
      Takes(remaining, RunHosts(prefix, width, num, end, suffix), rest)
    decreases remaining
  {
    var (end, rest) := ScanRange(prefix, suffix, width, num, remaining);
    var host := HostAt(prefix, width, num, suffix);
    if host in remaining {
      ScanCovers(prefix, suffix, width, num + 1, remaining - {host});
      RunFirst(prefix, width, num, end, suffix);
      TakesOne(remaining, host);
      TakesBoth(remaining, [host], remaining - {host}, RunHosts(prefix, width, num + 1, end, suffix), rest);
    }
  }

  // ---------- one group ----------

  /** Ready items of one numeric key. */
  ghost predicate GroupReady(group: seq<Item>, prefix: string, suffix: string, done: nat) {
    forall x :: x in group ==> x.Numeric? && ItemReady(x, done) && x.prefix == prefix && x.suffix == suffix
  }

  /** The hosts of a list of ranges, in the order they were found. */
  function RangesHosts(prefix: string, ranges: seq<Range>, suffix: string): seq<string>
    requires RangesReady(ranges)
  {
    HostsWith(prefix, AllNumbers(ranges), suffix)
  }

  lemma {:induction false} RangesFirst(prefix: string, r: Range, ranges: seq<Range>, suffix: string)
    requires RangeReady(r) && RangesReady(ranges)
    ensures RangesReady([r] + ranges)
    ensures RangesHosts(prefix, [r] + ranges, suffix)
         == RunHosts(prefix, r.width, r.low, r.high + 1, suffix) + RangesHosts(prefix, ranges, suffix)
  {
    assert ([r] + ranges)[1..] == ranges;
  }

  /** What collecting one group gives. */
  ghost predicate GroupTakes(group: seq<Item>, prefix: string, suffix: string, remaining: set<string>,
                             ranges: seq<Range>, rest: set<string>) {
    && RangesReady(ranges)
    && Takes(remaining, RangesHosts(prefix, ranges, suffix), rest)
    && (forall i :: 0 <= i < |group| ==> group[i].host !in rest)
    && (group != [] && group[0].host in remaining ==> ranges != [])
  }

  lemma {:induction false} GroupStep(x: Item, more: seq<Item>, end: nat, remaining: set<string>, left: set<string>,
                                     ranges: seq<Range>, rest: set<string>)
    requires x.Numeric? && x.Coherent() && |Padded(x.width, x.num)| == x.width && x.num < end
    requires Takes(remaining, RunHosts(x.prefix, x.width, x.num, end, x.suffix), left)
    requires GroupTakes(more, x.prefix, x.suffix, left, ranges, rest)
    ensures GroupTakes([x] + more, x.prefix, x.suffix, remaining, [Range(x.num, end - 1, x.width)] + ranges, rest)
  {
    RangesFirst(x.prefix, Range(x.num, end - 1, x.width), ranges, x.suffix);
    RunFirst(x.prefix, x.width, x.num, end, x.suffix);
    var run := RunHosts(x.prefix, x.width, x.num, end, x.suffix);
    TakesBoth(remaining, run, left, RangesHosts(x.prefix, ranges, x.suffix), rest);
    assert run[0] == x.host;
  }

  lemma {:induction false} GroupSkip(x: Item, more: seq<Item>, remaining: set<string>, ranges: seq<Range>,
                                     rest: set<string>)
    requires x.Numeric? && x.host !in remaining && GroupTakes(more, x.prefix, x.suffix, remaining, ranges, rest)
    ensures GroupTakes([x] + more, x.prefix, x.suffix, remaining, ranges, rest)
  {
    assert x.host !in rest;
  }

  lemma {:induction false} GroupNothing(prefix: string, suffix: string, remaining: set<string>)
    ensures GroupTakes([], prefix, suffix, remaining, [], remaining)
  {
    assert HostsWith(prefix, [], suffix) == [];
  }

  lemma {:induction false} GroupCovers(group: seq<Item>, prefix: string, suffix: string, remaining: set<string>,
                                       done: nat)
    requires GroupReady(group, prefix, suffix, done)
    ensures var (ranges, rest) := GroupRanges(group, remaining);
      GroupTakes(group, prefix, suffix, remaining, ranges, rest)
  {
    hide WellFormed, Names, Padded, GroupTakes;
    if group != [] {
      var x, more := group[0], group[1..];
      assert x in group && group == [x] + more;
      if x.host !in remaining {
        GroupCovers(more, prefix, suffix, remaining, done);
        GroupSkip(x, more, remaining, GroupRanges(more, remaining).0, GroupRanges(more, remaining).1);
      } else {
        var (end, left) := ScanRange(prefix, suffix, x.width, x.num, remaining);
        ScanCovers(prefix, suffix, x.width, x.num, remaining);
        GroupCovers(more, prefix, suffix, left, done);
        var (ranges, rest) := GroupRanges(more, left);
        GroupStep(x, more, end, remaining, left, ranges, rest);
      }
    } else {
      GroupNothing(prefix, suffix, remaining);
    }
  }

  lemma {:induction false} NumbersAreNumerals(ranges: seq<Range>)
    requires RangesReady(ranges)
    ensures forall d :: d in AllNumbers(ranges) ==> IsNumeral(d)
  {
    if ranges != [] {
      NumbersAreNumerals(ranges[1..]);
      var r := ranges[0];
      forall i | r.low <= i <= r.high ensures IsNumeral("" + Padded(r.width, i)) {
        ReadPadded(r.width, i);
      }
    }
  }

  lemma {:induction false} RangesTextRuns(ranges: seq<Range>, suffix: string)
    requires ranges != [] && RangesReady(ranges) && !StartsWithDigit(suffix)
    ensures Runs(RangesText(ranges) + suffix) == 1 + Runs(suffix)
  {
    if |ranges| == 1 && ranges[0].low == ranges[0].high {
      ReadPadded(ranges[0].width, ranges[0].low);
      RunsNumeral(RangesText(ranges), suffix);
    } else {
      FormatsPlain(ranges);
      JoinFree(FormatRanges(ranges), ']');
      RunsGroup(Join(FormatRanges(ranges)), suffix);
    }
  }

  /** A finished entry: ready for the next pass, and denoting what the hosts it replaces denote. */
  ghost predicate Finished(e: Entry, done: nat, hosts: seq<string>) {
    EntryReady(e, done) && WellFormed(e.Host()) && Names(e.Host()) == Flat(hosts)
  }

  lemma {:induction false} RangesRight(ranges: seq<Range>, suffix: string)
    requires WellFormed(suffix) && !StartsWithDigit(suffix) && ranges != [] && RangesReady(ranges)
    ensures var right := RangesText(ranges) + suffix;
      && WellFormed(right) && Runs(right) == Runs(suffix) + 1
      && Names(right) == Cross(AllNumbers(ranges), Names(suffix))
  {
    RangesTextNames(ranges, suffix);
    RangesTextRuns(ranges, suffix);
  }

  lemma {:induction false} RangesNames(prefix: string, ranges: seq<Range>, suffix: string, right: string)
    requires Unmarked(prefix) && WellFormed(suffix) && RangesReady(ranges)
    requires WellFormed(right) && Names(right) == Cross(AllNumbers(ranges), Names(suffix))
    ensures WellFormed(prefix + right) && Names(prefix + right) == Flat(RangesHosts(prefix, ranges, suffix))
  {
    NamesUnmarked(prefix, right);
    NumbersAreNumerals(ranges);
    assert forall i :: 0 <= i < |AllNumbers(ranges)| ==> AllNumbers(ranges)[i] in AllNumbers(ranges);
    FlatHostsWith(prefix, AllNumbers(ranges), suffix);
  }

  /** The entry made from a group's ranges is finished. */
  lemma {:induction false} RangesEntry(prefix: string, ranges: seq<Range>, suffix: string)
    requires Unmarked(prefix) && !EndsInDigit(prefix) && WellFormed(suffix) && !StartsWithDigit(suffix)
    requires ranges != [] && RangesReady(ranges)
    ensures Finished(Entry(prefix, RangesText(ranges) + suffix), Runs(suffix) + 1, RangesHosts(prefix, ranges, suffix))
  {
    var right := RangesText(ranges) + suffix;
    RangesRight(ranges, suffix);
    RangesNames(prefix, ranges, suffix, right);
  }

  // ---------- all groups ----------

  /** The hosts beyond the first group are none of those its scan can take. */
  lemma {:induction false} BeyondGroup(items: seq<Item>, i: nat, d: string, done: nat)
    requires ItemsReady(items, done) && Adjacent(items) && items != [] && GroupLength(items) <= i < |items|
    requires items[0].Numeric? && IsNumeral(d)
    ensures items[i].host != items[0].prefix + d + items[0].suffix
  {
    var x, y := items[0], items[i];
    assert x in items && y in items;
    if x.prefix + d + x.suffix == y.host {
      OnlyInGroup(x, d, y, done);
    }
  }

  lemma {:induction false} BeyondPlain(items: seq<Item>, i: nat, done: nat)
    requires ItemsReady(items, done) && Adjacent(items) && items != [] && GroupLength(items) <= i < |items|
    requires items[0].Plain?
    ensures items[i].host != items[0].host
  {
    var x, y := items[0], items[i];
    assert x in items && y in items;
    if y.Numeric? && x.host == y.host {
      ReadPadded(y.width, y.num);
      OnlyInGroup(y, Padded(y.width, y.num), x, done);
    }
  }

  lemma {:induction false} HostSetFrom(items: seq<Item>, k: nat, h: string)
    requires k <= |items|
    ensures h in HostSet(items[k..]) <==> exists i :: k <= i < |items| && items[i].host == h
  {
    if h in HostSet(items[k..]) {
      var x :| x in items[k..] && x.host == h;
      var j :| 0 <= j < |items[k..]| && items[k..][j] == x;
      assert items[k + j].host == h;
    }
    if i :| k <= i < |items| && items[i].host == h {
      assert items[k..][i - k] == items[i];
    }
  }

  /** What the first group's entry and the hosts left after it must be. */
  ghost predicate FirstTakes(items: seq<Item>, done: nat, entry: Entry, rest: set<string>, taken: seq<string>)
    requires items != []
  {
    && Takes(HostSet(items), taken, rest)
    && rest == HostSet(items[GroupLength(items)..])
    && Finished(entry, done + 1, taken)
  }

  lemma {:induction false} PlainFinished(host: string, done: nat)
    requires WellFormed(host) && Runs(host) <= done
    ensures Finished(Entry("", host), done + 1, [host])
  {
    assert [host][1..] == [] && "" + host == host && Names(host) + [] == Names(host);
  }

  /** Taking the first group's one host leaves exactly the hosts of the others. */
  lemma {:induction false} PlainLeft(items: seq<Item>, done: nat, h: string)
    requires ItemsReady(items, done) && Adjacent(items) && items != [] && items[0].Plain?
    ensures h in HostSet(items) && h != items[0].host <==> h in HostSet(items[GroupLength(items)..])
  {
    hide ItemsReady, Adjacent, HostSet;
    var k := GroupLength(items);
    HostSetFrom(items, 0, h);
    HostSetFrom(items, k, h);
    assert items[0..] == items;
    forall i | k <= i < |items| ensures items[i].host != items[0].host {
      BeyondPlain(items, i, done);
    }
    forall i | 0 <= i < k ensures items[i].host == items[0].host {
      assert items[i].Key() == items[0].Key();
    }
  }

  lemma {:induction false} PlainGroup(items: seq<Item>, done: nat)
    requires ItemsReady(items, done) && Adjacent(items) && items != [] && items[0].Plain?
    ensures var (entry, rest) := FirstEntry(items, HostSet(items));
      FirstTakes(items, done, entry, rest, [items[0].host])
  {
    hide WellFormed, Names, Finished;
    var host, remaining := items[0].host, HostSet(items);
    assert items[0] in items && items[..GroupLength(items)][0] == items[0];
    TakesOne(remaining, host);
    PlainFinished(host, done);
    forall h ensures h in remaining - {host} <==> h in HostSet(items[GroupLength(items)..]) {
      PlainLeft(items, done, h);
    }
  }

  /** The scan of the first group leaves exactly the hosts of the others. */
  lemma {:induction false} OthersLeft(items: seq<Item>, done: nat, ranges: seq<Range>, rest: set<string>)
    requires ItemsReady(items, done) && Adjacent(items) && items != [] && items[0].Numeric?
    requires GroupTakes(items[..GroupLength(items)], items[0].prefix, items[0].suffix, HostSet(items), ranges, rest)
    ensures rest == HostSet(items[GroupLength(items)..])
  {
    var k, x := GroupLength(items), items[0];
    var taken := RangesHosts(x.prefix, ranges, x.suffix);
    NumbersAreNumerals(ranges);
    forall i, j | k <= i < |items| && 0 <= j < |taken| ensures taken[j] != items[i].host {
      BeyondGroup(items, i, AllNumbers(ranges)[j], done);
    }
    assert forall i :: 0 <= i < k ==> items[i] == items[..k][i];
    forall h ensures h in rest <==> h in HostSet(items[k..]) {
      HostSetFrom(items, 0, h);
      HostSetFrom(items, k, h);
      assert items[0..] == items;
    }
  }

  lemma {:induction false} NumericGroup(items: seq<Item>, done: nat) returns (taken: seq<string>)
    requires ItemsReady(items, done) && Adjacent(items) && items != [] && items[0].Numeric?
    ensures var (entry, rest) := FirstEntry(items, HostSet(items)); FirstTakes(items, done, entry, rest, taken)
  {
    var x, group := items[0], items[..GroupLength(items)];
    assert x in items && group[0] == x;
    GroupCovers(group, x.prefix, x.suffix, HostSet(items), done);
    var (ranges, rest) := GroupRanges(group, HostSet(items));
    OthersLeft(items, done, ranges, rest);
    RangesEntry(x.prefix, ranges, x.suffix);
    taken := RangesHosts(x.prefix, ranges, x.suffix);
  }

  /** What the entries and the remaining hosts of a pass must be, `taken` listing the hosts in scan order. */
  ghost predicate Covers(hosts: set<string>, done: nat, entries: seq<Entry>, rest: set<string>, taken: seq<string>) {
    && rest == {} && Takes(hosts, taken, {})
    && Ready(entries, done + 1) && Flat(HostTexts(entries)) == Flat(taken)
    && forall i :: 0 <= i < |entries| ==> WellFormed(entries[i].Host())
  }

  lemma {:induction false} CoversBoth(hosts: set<string>, done: nat, entry: Entry, first: seq<string>,
                                      middle: set<string>, entries: seq<Entry>, rest: set<string>, more: seq<string>)
    requires Takes(hosts, first, middle) && Finished(entry, done + 1, first)
    requires Covers(middle, done, entries, rest, more)
    ensures Covers(hosts, done, [entry] + entries, rest, first + more)
  {
    hide WellFormed, Names, EntryReady, Flat;
    TakesBoth(hosts, first, middle, more, {});
    FlatConcat(first, more);
    FlatFirst(entry, entries);
  }

  lemma {:induction false} FlatFirst(entry: Entry, entries: seq<Entry>)
    ensures Flat(HostTexts([entry] + entries)) == Names(entry.Host()) + Flat(HostTexts(entries))
  {
    assert HostTexts([entry] + entries)[1..] == HostTexts(entries);
  }

  /** All groups together take every host exactly once; nothing remains. */
  lemma {:induction false} GroupsCover(items: seq<Item>, done: nat) returns (taken: seq<string>)
    requires ItemsReady(items, done) && Adjacent(items)
    ensures var (entries, rest, _) := Groups(items, HostSet(items)); Covers(HostSet(items), done, entries, rest, taken)
    decreases |items|
  {
    if items == [] {
      taken := [];
    } else {
      var others := items[GroupLength(items)..];
      if items[0].Plain? {
        taken := [items[0].host];
        PlainGroup(items, done);
      } else {
        taken := NumericGroup(items, done);
      }
      var (entry, rest) := FirstEntry(items, HostSet(items));
      var more := GroupsCover(others, done);
      var (entries, end, _) := Groups(others, rest);
      CoversBoth(HostSet(items), done, entry, taken, rest, entries, end, more);
      taken := taken + more;
    }
  }
}
