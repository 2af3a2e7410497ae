/** The collecting loops as they run, proved against the functions of `Collection`. */
module CollectHostlist {
  import opened Expansion
  import opened Collection
  import opened Cover
  import opened RoundTrip

  /** Count upwards from an item as long as the host is there, removing each. */
  method EnumerateRange(x: Item, hosts: set<string>) returns (num: nat, remaining: set<string>)
    requires x.Numeric?
    ensures (num, remaining) == ScanRange(x.prefix, x.suffix, x.width, x.num, hosts)
  {
    num, remaining := x.num, hosts;
    while true
      invariant ScanRange(x.prefix, x.suffix, x.width, x.num, hosts)
             == ScanRange(x.prefix, x.suffix, x.width, num, remaining)
      decreases remaining
    {
      var host := HostAt(x.prefix, x.width, num, x.suffix);
      if host in remaining {
        remaining := remaining - {host};
        num := num + 1;
      } else {
        break;
      }
    }
  }

  function AfterRanges(ranges: seq<Range>, rest: (seq<Range>, set<string>)): (seq<Range>, set<string>) {
    (ranges + rest.0, rest.1)
  }

  lemma {:induction false} RangesStep(ranges: seq<Range>, group: seq<Item>, remaining: set<string>)
    requires group != [] && forall x :: x in group ==> x.Numeric? && x.Coherent()
    ensures var x, whole := group[0], AfterRanges(ranges, GroupRanges(group, remaining));
      var (end, left) := ScanRange(x.prefix, x.suffix, x.width, x.num, remaining);
      if x.host in remaining then
        end > x.num &&
        whole == AfterRanges(ranges + [Range(x.num, end - 1, x.width)], GroupRanges(group[1..], left))
      else whole == AfterRanges(ranges, GroupRanges(group[1..], remaining))
  {
    var x := group[0];
    assert x in group && x.Coherent();
    var (end, left) := ScanRange(x.prefix, x.suffix, x.width, x.num, remaining);
    if x.host in remaining {
      var r, more := Range(x.num, end - 1, x.width), GroupRanges(group[1..], left).0;
      assert ranges + ([r] + more) == (ranges + [r]) + more;
    }
  }

  /** Enumerate whole ranges at a time; every scan covers at least the host it starts from. */
  method CollectRanges(group: seq<Item>, hosts: set<string>) returns (ranges: seq<Range>, remaining: set<string>)
    requires forall x :: x in group ==> x.Numeric? && x.Coherent()
    ensures (ranges, remaining) == GroupRanges(group, hosts)
  {
    hide GroupRanges, ScanRange;
    ranges, remaining := [], hosts;
    assert group[0..] == group && [] + GroupRanges(group, hosts).0 == GroupRanges(group, hosts).0;
    for i := 0 to |group|
      invariant GroupRanges(group, hosts) == AfterRanges(ranges, GroupRanges(group[i..], remaining))
    {
      var x := group[i];
      assert group[i..][1..] == group[i + 1..];
      RangesStep(ranges, group[i..], remaining);
      if x.host !in remaining {
        continue;
      }
      var low := x.num;
      var num;
      num, remaining := EnumerateRange(x, remaining);
      var high := num - 1;
      assert high >= low;
      ranges := ranges + [Range(low, high, x.width)];
    }
    NoRanges(remaining);
    assert group[|group|..] == [] && ranges + [] == ranges;
  }

  lemma {:induction false} NoRanges(remaining: set<string>)
    ensures GroupRanges([], remaining) == ([], remaining)
  {
  }

  lemma {:induction false} FirstLeft(items: seq<Item>, done: nat)
    requires ItemsReady(items, done) && Adjacent(items) && items != []
    ensures FirstEntry(items, HostSet(items)).1 == HostSet(items[GroupLength(items)..])
    ensures items[0].host in HostSet(items)
  {
    hide Finished;
    assert items[0] in items;
    if items[0].Plain? {
      PlainGroup(items, done);
    } else {
      var taken := NumericGroup(items, done);
    }
  }

  lemma {:induction false} TailReady(items: seq<Item>, k: nat, done: nat)
    requires ItemsReady(items, done) && Adjacent(items) && k <= |items|
    ensures ItemsReady(items[k..], done) && Adjacent(items[k..])
  {
    hide ItemReady;
  }

  /** The rest of a pass put after what is already collected. */
  function Continue(results: seq<Entry>, more: bool, rest: (seq<Entry>, set<string>, bool)): (seq<Entry>, set<string>,
                    bool) {
    (results + rest.0, rest.1, more || rest.2)
  }

  lemma {:induction false} ContinueStep(results: seq<Entry>, more: bool, items: seq<Item>, remaining: set<string>)
    requires items != [] && forall x :: x in items ==> x.Coherent()
    ensures var (entry, rest) := FirstEntry(items, remaining);
      Continue(results, more, Groups(items, remaining))
      == Continue(results + [entry], items[0].Numeric? || more, Groups(items[GroupLength(items)..], rest))
  {
    var (entry, rest) := FirstEntry(items, remaining);
    var tail := Groups(items[GroupLength(items)..], rest);
    assert results + ([entry] + tail.0) == (results + [entry]) + tail.0;
  }

  lemma {:induction false} PassStart(entries: seq<Entry>, done: nat)
    requires Ready(entries, done)
    ensures var items := Sort(ItemsOf(entries));
      && ItemsReady(items, done) && Adjacent(items) && HostSet(items) == HostSet(ItemsOf(entries))
      && (forall x :: x in items ==> x.Coherent())
      && CollectOnce(entries) == Continue([], false, Groups(items, HostSet(items)))
  {
    hide ItemReady, EntryReady;
    var items := ItemsOf(entries);
    ItemsOfReady(entries, done);
    SortKeeps(items);
    SortAdjacent(items);
    HostSetOfSort(items);
    assert [] + CollectOnce(entries).0 == CollectOnce(entries).0;
  }

  /** What one turn of the group loop needs and does. */
  lemma {:induction false} PassStep(sortlist: seq<Item>, k: nat, done: nat, results: seq<Entry>, more: bool)
    requires ItemsReady(sortlist, done) && Adjacent(sortlist) && k < |sortlist|
    requires forall x :: x in sortlist ==> x.Coherent()
    ensures var items := sortlist[k..];
      var size := GroupLength(items);
      var (entry, rest) := FirstEntry(items, HostSet(items));
      && k + size <= |sortlist| && rest == HostSet(sortlist[k + size..]) && items[0].host in HostSet(items)
      && (forall x :: x in items[..size] ==> x.Coherent() && x.Key() == items[0].Key())
      && Continue(results, more, Groups(items, HostSet(items)))
         == Continue(results + [entry], items[0].Numeric? || more, Groups(sortlist[k + size..], rest))
  {
    hide ItemReady, GroupEntry, ItemsReady, Adjacent, Groups, HostSet, FirstEntry, Continue;
    var items := sortlist[k..];
    TailReady(sortlist, k, done);
    FirstLeft(items, done);
    ContinueStep(results, more, items, HostSet(items));
    assert items[GroupLength(items)..] == sortlist[k + GroupLength(items)..];
    assert forall x :: x in items ==> x in sortlist;
  }

  /** The set of all hosts and the sort list. */
  method MakeSortlist(leftRight: seq<Entry>) returns (sortlist: seq<Item>, remaining: set<string>)
    ensures sortlist == Sort(ItemsOf(leftRight)) && remaining == HostSet(ItemsOf(leftRight))
  {
    hide ItemOf, Sort;
    sortlist, remaining := [], {};
    for i := 0 to |leftRight|
      invariant sortlist == ItemsOf(leftRight[..i]) && remaining == HostSet(sortlist)
    {
      var item := ItemOf(leftRight[i]);
      assert leftRight[..i + 1] == leftRight[..i] + [leftRight[i]];
      sortlist := sortlist + [item];
      remaining := remaining + {item.host};
    }
    assert leftRight[..|leftRight|] == leftRight;
    sortlist := Sort(sortlist);
  }

  /**
   * `collect_hostlist_1`, called as `collect_hostlist` calls it. The assertions of the source hold, removing a host
   * without a number never misses, and nothing remains at the end.
   */
  method CollectHostlist1(leftRight: seq<Entry>, ghost done: nat) returns (results: seq<Entry>, needsAnotherLoop: bool)
    requires Ready(leftRight, done)
    ensures (results, {}, needsAnotherLoop) == CollectOnce(leftRight)
  {
    hide ItemsReady, Adjacent, HostSet, CollectOnce, Groups, GroupEntry, Sort;
    PassStart(leftRight, done);
    var sortlist, remaining := MakeSortlist(leftRight);
    results, needsAnotherLoop := [], false;
    var k := 0;
    assert sortlist[0..] == sortlist;
    while k < |sortlist|
      invariant k <= |sortlist| && remaining == HostSet(sortlist[k..])
      invariant CollectOnce(leftRight) == Continue(results, needsAnotherLoop, Groups(sortlist[k..], remaining))
      decreases |sortlist| - k
    {
      PassStep(sortlist, k, done, results, needsAnotherLoop);
      var size := GroupLength(sortlist[k..]);
      var group := sortlist[k..][..size];
      var entry;
      entry, remaining, needsAnotherLoop := CollectGroup(group, remaining, needsAnotherLoop);
      results := results + [entry];
      k := k + size;
    }
    assert sortlist[k..] == [] && results + [] == results;
    NothingLeft();
    assert remaining == {};
  }

  /** One turn of the group loop: the new entry, the remaining hosts and the flag. */
  method CollectGroup(group: seq<Item>, hosts: set<string>, flag: bool)
    returns (entry: Entry, remaining: set<string>, needsAnotherLoop: bool)
    requires group != [] && forall x :: x in group ==> x.Coherent() && x.Key() == group[0].Key()
    requires group[0].host in hosts
    ensures (entry, remaining) == GroupEntry(group, hosts) && needsAnotherLoop == (group[0].Numeric? || flag)
  {
    match group[0] {
      case Plain(host) =>
        assert host in hosts;
        return Entry("", host), hosts - {host}, flag;
      case Numeric(prefix, suffix, _, _, _) =>
        assert forall x :: x in group ==> x.Key().Numeric?;
        var rangeList;
        rangeList, remaining := CollectRanges(group, hosts);
        return Entry(prefix, RangesText(rangeList) + suffix), remaining, true;
    }
  }

  lemma {:induction false} NothingLeft()
    ensures HostSet([]) == {} && Groups([], {}) == ([], {}, false)
  {
  }

  method CollectHostlist(hosts: seq<string>, silentlyDiscardBad: bool) returns (r: Result<string>)
    ensures r == Collect(hosts, silentlyDiscardBad)
  {
    hide Unmarked, EntryReady, CollectOnce;
    var leftRight: seq<Entry> := [];
    for i := 0 to |hosts|
      invariant Prepare(hosts[..i], silentlyDiscardBad) == Ok(leftRight)
      invariant forall j :: 0 <= j < |leftRight| ==> leftRight[j].right == "" && Unmarked(leftRight[j].left)
    {
      var host := Strip(hosts[i]);
      assert hosts[..i + 1][..i] == hosts[..i];
      if host == "" {
        continue;
      }
      if !Unmarked(host) {
        if silentlyDiscardBad {
          continue;
        } else {
          PrepareFails(hosts, silentlyDiscardBad, i + 1);
          return Err(ForbiddenCharacter);
        }
      }
      leftRight := leftRight + [Entry(host, "")];
    }
    assert hosts[..|hosts|] == hosts;
    leftRight := CollectAll(leftRight);
    return Ok(Join(HostTexts(leftRight)));
  }

  /** Call the pass until it says it is done. */
  method CollectAll(entries: seq<Entry>) returns (leftRight: seq<Entry>)
    requires forall j :: 0 <= j < |entries| ==> entries[j].right == "" && Unmarked(entries[j].left)
    ensures leftRight == Passes(entries).0
  {
    hide Unmarked, EntryReady, CollectOnce;
    FreshReady(entries);
    leftRight := entries;
    ghost var passes := 0;
    var looping := true;
    while looping
      invariant Ready(leftRight, passes)
      invariant Passes(entries).0 == if looping then Passes(leftRight).0 else leftRight
      invariant Passes(entries).1 == if looping then passes + Passes(leftRight).1 else passes
      decreases looping, MaxRuns(leftRight)
    {
      PassRuns(leftRight);
      ghost var taken := PassCovers(leftRight, passes);
      leftRight, looping := CollectHostlist1(leftRight, passes);
      passes := passes + 1;
    }
  }

  /** A refused host decides the result whatever follows. */
  lemma {:induction false} PrepareFails(hosts: seq<string>, discardBad: bool, k: nat)
    requires k <= |hosts| && Prepare(hosts[..k], discardBad).Err?
    ensures Prepare(hosts, discardBad) == Prepare(hosts[..k], discardBad)
    decreases |hosts|
  {
    if k < |hosts| {
      var before := hosts[..|hosts| - 1];
      assert before[..k] == hosts[..k];
      PrepareFails(before, discardBad, k);
    } else {
      assert hosts[..k] == hosts;
    }
  }
}
