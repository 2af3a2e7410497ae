/** `collect_hostlist`: from host names to bracket notation, one numeric run a pass, from the right. */
module Collection {
  import opened Decimal
  import opened Expansion
  import opened Lines

  /** A host under way: `left` is still to be analysed, `right` is finished text. */
  datatype Entry = Entry(left: string, right: string) {
    function Host(): string {
      left + right
    }
  }

  // ---------- splitting off the rightmost digit run ----------

  /** The index after the last digit, 0 if there is none. */
  function DigitsEnd(s: string): (e: nat)
    ensures e <= |s| && forall i :: e <= i < |s| ==> !IsDigit(s[i])
    ensures e > 0 ==> IsDigit(s[e - 1])
  {
    if s == "" || IsDigit(s[|s| - 1]) then |s| else DigitsEnd(s[..|s| - 1])
  }

  /** Where the digits at the end of `s` begin. */
  function DigitsStart(s: string): (b: nat)
    ensures b <= |s| && AllDigits(s[b..])
    ensures b > 0 ==> !IsDigit(s[b - 1])
  {
    if s == "" || !IsDigit(s[|s| - 1]) then |s| else DigitsStart(s[..|s| - 1])
  }

  datatype Split = NoNumber | Split(prefix: string, number: string, suffix: string)

  lemma {:induction false} ThreeParts(s: string, b: nat, e: nat)
    requires b <= e <= |s|
    ensures s[..e][..b] == s[..b] && s == s[..b] + s[b..e] + s[e..]
  {
  }

  /** The regular expression of `collect_hostlist_1` on a left part. */
  function SplitLeft(left: string): (r: Split)
    ensures r.NoNumber? <==> forall i :: 0 <= i < |left| ==> !IsDigit(left[i])
    ensures r.Split? ==> left == r.prefix + r.number + r.suffix && IsNumeral(r.number)
  {
    var e := DigitsEnd(left);
    var b := DigitsStart(left[..e]);
    ThreeParts(left, b, e);
    if e == 0 then NoNumber else Split(left[..b], left[b..e], left[e..])
  }

  /** The run is maximal and the last one. */
  lemma {:induction false} SplitShape(left: string)
    ensures var r := SplitLeft(left); r.Split? ==>
      && (r.prefix != "" ==> !IsDigit(r.prefix[|r.prefix| - 1]))
      && forall i :: 0 <= i < |r.suffix| ==> !IsDigit(r.suffix[i])
  {
  }

  /** The split is the one a lazy prefix gives: no shorter prefix leaves digits followed by non-digits. */
  lemma {:induction false} SplitIsLazy(left: string, prefix: string, digits: string, tail: string)
    requires left == prefix + digits + tail && AllDigits(digits)
    requires forall i :: 0 <= i < |tail| ==> !IsDigit(tail[i])
    ensures SplitLeft(left).Split? ==> |SplitLeft(left).prefix| <= |prefix|
  {
  }

  /** The number of maximal digit runs. */
  function DigitRuns(s: string): nat {
    if s == "" then 0
    else
      var k := |s| - 1;
      DigitRuns(s[..k]) + if IsDigit(s[k]) && (k == 0 || !IsDigit(s[k - 1])) then 1 else 0
  }

  lemma {:induction false} DigitRunsEnd(s: string)
    ensures DigitRuns(s) == DigitRuns(s[..DigitsEnd(s)])
    ensures DigitsEnd(s) == 0 <==> DigitRuns(s) == 0
  {
    if s != "" && !IsDigit(s[|s| - 1]) {
      var t := s[..|s| - 1];
      DigitRunsEnd(t);
      assert s[..DigitsEnd(s)] == t[..DigitsEnd(t)];
    } else {
      assert s[..|s|] == s;
      if s != "" {
        DigitRunsStart(s);
      }
    }
  }

  lemma {:induction false} DigitRunsStart(s: string)
    requires s != "" && IsDigit(s[|s| - 1])
    ensures DigitRuns(s) == DigitRuns(s[..DigitsStart(s)]) + 1
  {
    var t := s[..|s| - 1];
    if t != "" && IsDigit(t[|t| - 1]) {
      DigitRunsStart(t);
      assert s[..DigitsStart(s)] == t[..DigitsStart(t)];
    } else {
      assert s[..DigitsStart(s)] == t;
    }
  }

  /** Splitting removes exactly one run. */
  lemma {:induction false} SplitRuns(left: string)
    ensures var r := SplitLeft(left);
      if r.NoNumber? then DigitRuns(left) == 0 else DigitRuns(left) == DigitRuns(r.prefix) + 1
  {
    DigitRunsEnd(left);
    var e := DigitsEnd(left);
    if e > 0 {
      DigitRunsStart(left[..e]);
      assert left[..e][..DigitsStart(left[..e])] == left[..DigitsStart(left[..e])];
    }
  }

  // ---------- the sort list ----------

  /** A sort list item: a host without a number, or prefix/suffix key, number and width. */
  datatype Item =
    | Plain(host: string)
    | Numeric(prefix: string, suffix: string, num: nat, width: nat, host: string)
  {
    function Key(): Item {
      if Plain? then this else Numeric(prefix, suffix, 0, 0, "")
    }

    /** The first component of the sort key. */
    function First(): string {
      if Plain? then host else prefix
    }

    /** Printing the number at its width reproduces the host. */
    predicate Coherent() {
      Numeric? ==> host == HostAt(prefix, width, num, suffix)
    }
  }

  function HostAt(prefix: string, width: nat, num: nat, suffix: string): string {
    prefix + Padded(width, num) + suffix
  }

  function ItemOf(e: Entry): (item: Item)
    ensures item.host == e.Host() && item.Coherent()
  {
    match SplitLeft(e.left)
    case NoNumber => Plain(e.Host())
    case Split(prefix, number, suffix) =>
      PrintValue(number);
      Numeric(prefix, suffix + e.right, Value(number), |number|, e.Host())
  }

  function StrLess(a: string, b: string): bool {
    b != "" && (a == "" || a[0] < b[0] || (a[0] == b[0] && StrLess(a[1..], b[1..])))
  }

  /** Python's order on the sort list's tuples; None sorts before every string. */
  function Less(a: Item, b: Item): bool {
    if a.First() != b.First() then StrLess(a.First(), b.First())
    else if a.Plain? || b.Plain? then a.Plain? && b.Numeric?
    else if a.suffix != b.suffix then StrLess(a.suffix, b.suffix)
    else if a.num != b.num then a.num < b.num
    else if a.width != b.width then a.width < b.width
    else StrLess(a.host, b.host)
  }

  function Insert(x: Item, items: seq<Item>): seq<Item> {
    if items == [] || !Less(items[0], x) then [x] + items else [items[0]] + Insert(x, items[1..])
  }

  /** `sortlist.sort()` */
  function Sort(items: seq<Item>): seq<Item> {
    if items == [] then [] else Insert(items[0], Sort(items[1..]))
  }

  ghost predicate Sorted(items: seq<Item>) {
    forall i, j :: 0 <= i < j < |items| ==> !Less(items[j], items[i])
  }

  // ---------- grouping and range scanning ----------

  /** How many items at the front share the first item's key. */
  function GroupLength(items: seq<Item>): (k: nat)
    requires items != []
    ensures 0 < k <= |items| && forall i :: 0 <= i < k ==> items[i].Key() == items[0].Key()
    ensures k < |items| ==> items[k].Key() != items[0].Key()
  {
    if |items| == 1 || items[1].Key() != items[0].Key() then 1
    else
      var k := 1 + GroupLength(items[1..]);
      assert forall i :: 0 <= i < k ==> items[i].Key() == (if i == 0 then items[0] else items[1..][i - 1]).Key();
      k
  }

  datatype Range = Range(low: nat, high: nat, width: nat)

  /** The scan from `num` upwards: the first number whose host is not there, and what remains. */
  function ScanRange(prefix: string, suffix: string, width: nat, num: nat, remaining: set<string>)
    : (r: (nat, set<string>))
    ensures r.0 >= num && r.1 <= remaining
    ensures HostAt(prefix, width, num, suffix) in remaining ==> r.0 > num && r.1 < remaining
    decreases remaining
  {
    var host := HostAt(prefix, width, num, suffix);
    if host in remaining then ScanRange(prefix, suffix, width, num + 1, remaining - {host}) else (num, remaining)
  }

  /** The ranges found in one group, hosts already covered being skipped. */
  function GroupRanges(group: seq<Item>, remaining: set<string>): (r: (seq<Range>, set<string>))
    requires forall x :: x in group ==> x.Numeric? && x.Coherent()
    ensures r.1 <= remaining
  {
    if group == [] then ([], remaining)
    else
      var x := group[0];
      assert x in group && x.Coherent();
      if x.host !in remaining then GroupRanges(group[1..], remaining)
      else
        var (end, left) := ScanRange(x.prefix, x.suffix, x.width, x.num, remaining);
        assert end > x.num;
        var (ranges, rest) := GroupRanges(group[1..], left);
        ([Range(x.num, end - 1, x.width)] + ranges, rest)
  }

  function FormatRange(r: Range): string {
    if r.low == r.high then Padded(r.width, r.low) else Padded(r.width, r.low) + "-" + Padded(r.width, r.high)
  }

  function FormatRanges(ranges: seq<Range>): (texts: seq<string>)
    ensures |texts| == |ranges|
  {
    seq(|ranges|, i requires 0 <= i < |ranges| => FormatRange(ranges[i]))
  }

  /** The finished text for the numbers of a group; a single number gets no brackets. */
  function RangesText(ranges: seq<Range>): string {
    if |ranges| == 1 && ranges[0].low == ranges[0].high then Padded(ranges[0].width, ranges[0].low)
    else "[" + Join(FormatRanges(ranges)) + "]"
  }

  function GroupEntry(group: seq<Item>, remaining: set<string>): (r: (Entry, set<string>))
    requires group != [] && forall x :: x in group ==> x.Coherent() && x.Key() == group[0].Key()
  {
    assert group[0].Numeric? ==> forall x :: x in group ==> x.Key().Numeric?;
    match group[0]
    case Plain(host) => (Entry("", host), remaining - {host})
    case Numeric(prefix, suffix, _, _, _) =>
      var (ranges, rest) := GroupRanges(group, remaining);
      (Entry(prefix, RangesText(ranges) + suffix), rest)
  }

  /** The entry of the group at the front of the sort list. */
  function FirstEntry(items: seq<Item>, remaining: set<string>): (r: (Entry, set<string>))
    requires items != [] && forall x :: x in items ==> x.Coherent()
  {
    GroupEntry(items[..GroupLength(items)], remaining)
  }

  /** One entry per group; the hosts left over; whether some group was numeric. */
  function Groups(items: seq<Item>, remaining: set<string>): (r: (seq<Entry>, set<string>, bool))
    requires forall x :: x in items ==> x.Coherent()
  {
    if items == [] then ([], remaining, false)
    else
      var (entry, rest) := FirstEntry(items, remaining);
      var (entries, end, more) := Groups(items[GroupLength(items)..], rest);
      ([entry] + entries, end, items[0].Numeric? || more)
  }

  function ItemsOf(entries: seq<Entry>): (items: seq<Item>)
    ensures |items| == |entries| && forall x :: x in items ==> x.Coherent()
  {
    seq(|entries|, i requires 0 <= i < |entries| => ItemOf(entries[i]))
  }

  function HostSet(items: seq<Item>): set<string> {
    set x | x in items :: x.host
  }

  lemma {:induction false} SortKeeps(items: seq<Item>)
    ensures multiset(Sort(items)) == multiset(items)
    ensures forall x :: x in Sort(items) <==> x in items
  {
    if items != [] {
      SortKeeps(items[1..]);
      InsertKeeps(items[0], Sort(items[1..]));
      assert items == [items[0]] + items[1..];
    }
    forall x ensures x in Sort(items) <==> x in items {
      assert x in Sort(items) <==> x in multiset(Sort(items));
    }
  }

  lemma {:induction false} InsertKeeps(x: Item, items: seq<Item>)
    ensures multiset(Insert(x, items)) == multiset{x} + multiset(items)
  {
    if items != [] && Less(items[0], x) {
      InsertKeeps(x, items[1..]);
      assert items == [items[0]] + items[1..];
    }
  }

  /** `collect_hostlist_1` */
  function CollectOnce(entries: seq<Entry>): (r: (seq<Entry>, set<string>, bool)) {
    var items := ItemsOf(entries);
    SortKeeps(items);
    Groups(Sort(items), HostSet(items))
  }

  // ---------- collect_hostlist ----------

  function StripRight(s: string): string {
    if s != "" && IsSpace(s[|s| - 1]) then StripRight(s[..|s| - 1]) else s
  }

  function StripLeft(s: string): string {
    if s != "" && IsSpace(s[0]) then StripLeft(s[1..]) else s
  }

  function Strip(s: string): string {
    StripLeft(StripRight(s))
  }

  /** The stripped hosts as entries; empty ones skipped, bad ones refused or discarded. */
  function Prepare(hosts: seq<string>, discardBad: bool): Result<seq<Entry>> {
    if hosts == [] then Ok([])
    else
      match Prepare(hosts[..|hosts| - 1], discardBad)
      case Err(e) => Err(e)
      case Ok(before) =>
        var host := Strip(hosts[|hosts| - 1]);
        if host == "" then Ok(before)
        else if Unmarked(host) then Ok(before + [Entry(host, "")])
        else if discardBad then Ok(before)
        else Err(ForbiddenCharacter)
  }

  function Max(a: nat, b: nat): nat {
    if a > b then a else b
  }

  /** The largest number of digit runs left in any entry. */
  function MaxRuns(entries: seq<Entry>): nat {
    if entries == [] then 0 else Max(DigitRuns(entries[0].left), MaxRuns(entries[1..]))
  }

  function ItemRuns(x: Item): nat {
    if x.Plain? then 0 else DigitRuns(x.prefix) + 1
  }

  function MaxItemRuns(items: seq<Item>): nat {
    if items == [] then 0 else Max(ItemRuns(items[0]), MaxItemRuns(items[1..]))
  }

  lemma {:induction false} MaxOfItems(entries: seq<Entry>)
    ensures MaxItemRuns(ItemsOf(entries)) == MaxRuns(entries)
  {
    if entries != [] {
      SplitRuns(entries[0].left);
      assert ItemsOf(entries)[1..] == ItemsOf(entries[1..]);
      MaxOfItems(entries[1..]);
    }
  }

  lemma {:induction false} MaxOfInsert(x: Item, items: seq<Item>)
    ensures MaxItemRuns(Insert(x, items)) == Max(ItemRuns(x), MaxItemRuns(items))
  {
    if items != [] && Less(items[0], x) {
      MaxOfInsert(x, items[1..]);
    }
  }

  lemma {:induction false} MaxOfSort(items: seq<Item>)
    ensures MaxItemRuns(Sort(items)) == MaxItemRuns(items)
  {
    if items != [] {
      MaxOfSort(items[1..]);
      MaxOfInsert(items[0], Sort(items[1..]));
    }
  }

  /** Dropping items as heavy as the first keeps the maximum of the two. */
  lemma {:induction false} MaxOfGroup(items: seq<Item>, k: nat)
    requires 0 < k <= |items| && forall i :: 0 <= i < k ==> ItemRuns(items[i]) == ItemRuns(items[0])
    ensures MaxItemRuns(items) == Max(ItemRuns(items[0]), MaxItemRuns(items[k..]))
  {
    if k > 1 {
      forall i | 0 <= i < k - 1 ensures ItemRuns(items[1..][i]) == ItemRuns(items[1..][0]) {
        assert items[1..][i] == items[i + 1];
      }
      MaxOfGroup(items[1..], k - 1);
      assert items[1..][k - 1..] == items[k..];
    }
  }

  lemma {:induction false} GroupsRuns(items: seq<Item>, remaining: set<string>)
    requires forall x :: x in items ==> x.Coherent()
    ensures var (entries, _, more) := Groups(items, remaining);
      && (more <==> MaxItemRuns(items) > 0)
      && MaxRuns(entries) == if MaxItemRuns(items) == 0 then 0 else MaxItemRuns(items) - 1
    decreases |items|
  {
    if items != [] {
      var k := GroupLength(items);
      forall i | 0 <= i < k ensures ItemRuns(items[i]) == ItemRuns(items[0]) {
        assert items[i].Key() == items[0].Key();
      }
      MaxOfGroup(items, k);
      var (entry, rest) := FirstEntry(items, remaining);
      var (entries, end, more) := Groups(items[k..], rest);
      GroupsRuns(items[k..], rest);
      assert Groups(items, remaining).0[1..] == entries;
      assert DigitRuns(entry.left) == if items[0].Plain? then 0 else ItemRuns(items[0]) - 1;
    }
  }

  /** A pass removes one run from every left part that has one, and asks for another pass iff there was one. */
  lemma {:induction false} PassRuns(entries: seq<Entry>)
    ensures var (next, _, more) := CollectOnce(entries);
      && (more <==> MaxRuns(entries) > 0)
      && MaxRuns(next) == if MaxRuns(entries) == 0 then 0 else MaxRuns(entries) - 1
  {
    var items := ItemsOf(entries);
    SortKeeps(items);
    MaxOfItems(entries);
    MaxOfSort(items);
    GroupsRuns(Sort(items), HostSet(items));
  }

  /** The collecting loop from `entries`: the final entries and the number of passes. */
  function Passes(entries: seq<Entry>): (r: (seq<Entry>, nat))
    ensures r.1 == MaxRuns(entries) + 1
    decreases MaxRuns(entries)
  {
    PassRuns(entries);
    var (next, _, more) := CollectOnce(entries);
    if more then
      var (last, n) := Passes(next);
      (last, n + 1)
    else (next, 1)
  }

  function HostTexts(entries: seq<Entry>): (texts: seq<string>)
    ensures |texts| == |entries|
  {
    seq(|entries|, i requires 0 <= i < |entries| => entries[i].Host())
  }

  function Collect(hosts: seq<string>, discardBad: bool): Result<string> {
    match Prepare(hosts, discardBad)
    case Err(e) => Err(e)
    case Ok(entries) => Ok(Join(HostTexts(Passes(entries).0)))
  }
}
