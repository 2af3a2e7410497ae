/** The collected text depends only on the set of hosts. */
module Canonical {
  import opened Expansion
  import opened Lines
  import opened Collection
  import opened Order
  import opened RoundTrip

  ghost predicate Coherent(items: seq<Item>) {
    forall x :: x in items ==> x.Coherent()
  }

  /** `items` without the one at `i`. */
  function Without(items: seq<Item>, i: nat): seq<Item>
    requires i < |items|
  {
    items[..i] + items[i + 1..]
  }

  lemma {:induction false} ScanTakes(prefix: string, suffix: string, width: nat, num: nat, remaining: set<string>)
    ensures HostAt(prefix, width, num, suffix) !in ScanRange(prefix, suffix, width, num, remaining).1
  {
  }

  /** In a group a repeated item changes nothing: its host is gone by then. */
  lemma {:induction false} GroupWithout(group: seq<Item>, i: nat, remaining: set<string>)
    requires forall x :: x in group ==> x.Numeric? && x.Coherent()
    requires i + 1 < |group| && group[i] == group[i + 1]
    ensures forall x :: x in Without(group, i) ==> x in group
    ensures GroupRanges(Without(group, i), remaining) == GroupRanges(group, remaining)
  {
    hide ScanRange, HostAt;
    var short := Without(group, i);
    var x := group[0];
    assert x in group && x.Coherent();
    if i == 0 {
      assert short == group[1..];
      if x.host in remaining {
        ScanTakes(x.prefix, x.suffix, x.width, x.num, remaining);
        assert group[1] == x;
        assert group[1..][1..] == group[2..] == short[1..];
      }
    } else {
      assert short[0] == x && short[1..] == Without(group[1..], i - 1);
      var rest := if x.host in remaining then ScanRange(x.prefix, x.suffix, x.width, x.num, remaining).1 else remaining;
      GroupWithout(group[1..], i - 1, rest);
    }
  }

  lemma {:induction false} EntryWithout(group: seq<Item>, i: nat, remaining: set<string>)
    requires forall x :: x in group ==> x.Coherent() && x.Key() == group[0].Key()
    requires i + 1 < |group| && group[i] == group[i + 1]
    ensures forall x :: x in Without(group, i) ==> x in group
    ensures Without(group, i) != [] && Without(group, i)[0] == group[0]
    ensures GroupEntry(Without(group, i), remaining) == GroupEntry(group, remaining)
  {
    assert Without(group, i)[0] == group[0];
    if group[0].Numeric? {
      assert forall x :: x in group ==> x.Key().Numeric?;
      GroupWithout(group, i, remaining);
    }
  }

  /** A whole group: items of one key, with another key behind them. */
  ghost predicate Group(group: seq<Item>, rest: seq<Item>) {
    && group != []
    && (forall x :: x in group ==> x.Coherent() && x.Key() == group[0].Key())
    && Coherent(rest) && (rest != [] ==> rest[0].Key() != group[0].Key())
  }

  /** A pass handles the first group, then the others. */
  lemma {:induction false} GroupsOf(group: seq<Item>, rest: seq<Item>, remaining: set<string>)
    requires Group(group, rest)
    ensures Coherent(group + rest) && GroupLength(group + rest) == |group|
    ensures var first := GroupEntry(group, remaining);
      var others := Groups(rest, first.1);
      Groups(group + rest, remaining) == ([first.0] + others.0, others.1, group[0].Numeric? || others.2)
  {
    hide GroupEntry;
    var items := group + rest;
    assert items[..|group|] == group && items[|group|..] == rest;
    forall i | 0 <= i < |group| ensures items[i].Key() == items[0].Key() {
      assert items[i] == group[i];
    }
  }

  lemma {:induction false} FirstGroupOf(items: seq<Item>)
    requires Coherent(items) && items != []
    ensures var k := GroupLength(items); Group(items[..k], items[k..]) && items == items[..k] + items[k..]
  {
    var k := GroupLength(items);
    forall x | x in items[..k] ensures x.Coherent() && x.Key() == items[0].Key() {
      assert x in items;
    }
  }

  lemma {:induction false} WithoutSplit(group: seq<Item>, rest: seq<Item>, i: nat)
    requires i < |group + rest|
    ensures i < |group| ==> Without(group + rest, i) == Without(group, i) + rest
    ensures i >= |group| ==> Without(group + rest, i) == group + Without(rest, i - |group|)
  {
  }

  lemma {:induction false} GroupsWithout(items: seq<Item>, i: nat, remaining: set<string>)
    requires Coherent(items) && i + 1 < |items| && items[i] == items[i + 1]
    ensures Coherent(Without(items, i)) && Groups(Without(items, i), remaining) == Groups(items, remaining)
    decreases |items|
  {
    hide GroupEntry, Groups;
    var k := GroupLength(items);
    var group, rest := items[..k], items[k..];
    FirstGroupOf(items);
    GroupsOf(group, rest, remaining);
    WithoutSplit(group, rest, i);
    assert i != k - 1 by {
      assert items[k - 1].Key() == items[0].Key();
    }
    if i + 1 < k {
      assert group[i] == group[i + 1];
      EntryWithout(group, i, remaining);
      GroupsOf(Without(group, i), rest, remaining);
    } else {
      var short := Without(rest, i - k);
      assert rest[i - k] == rest[i - k + 1] && short[0] == rest[0];
      GroupsWithout(rest, i - k, GroupEntry(group, remaining).1);
      GroupsOf(group, short, remaining);
    }
  }

  ghost predicate StrictlySorted(items: seq<Item>) {
    forall i, j :: 0 <= i < j < |items| ==> Less(items[i], items[j])
  }

  lemma {:induction false} NoRepetition(items: seq<Item>)
    requires Sorted(items) && forall i :: 0 <= i < |items| - 1 ==> items[i] != items[i + 1]
    ensures StrictlySorted(items)
  {
    hide Less;
    forall i, j | 0 <= i < j < |items| ensures Less(items[i], items[j]) {
      LessTotal(items[i], items[j]);
      LessTotal(items[i], items[i + 1]);
      LessTotal(items[i + 1], items[j]);
    }
  }

  /** Dropping repetitions from a sorted list changes neither its members nor the pass. */
  lemma {:induction false} Compacted(items: seq<Item>, remaining: set<string>) returns (compact: seq<Item>)
    requires Sorted(items) && Coherent(items)
    ensures StrictlySorted(compact) && (forall x :: x in compact <==> x in items)
    ensures Coherent(compact) && Groups(compact, remaining) == Groups(items, remaining)
    decreases |items|
  {
    hide Less, Groups;
    if i :| 0 <= i < |items| - 1 && items[i] == items[i + 1] {
      GroupsWithout(items, i, remaining);
      compact := Compacted(Without(items, i), remaining);
    } else {
      compact := items;
      NoRepetition(items);
    }
  }

  lemma {:induction false} StrictlySortedUnique(a: seq<Item>, b: seq<Item>)
    requires StrictlySorted(a) && StrictlySorted(b) && forall x :: x in a <==> x in b
    ensures a == b
    decreases |a|
  {
    assert b == [] || b[0] in b;
    if a != [] {
      assert a[0] in a;
      var i :| 0 <= i < |b| && b[i] == a[0];
      var j :| 0 <= j < |a| && a[j] == b[0];
      LessTotal(a[0], b[0]);
      assert a[0] == b[0];
      forall x ensures x in a[1..] <==> x in b[1..] {
        MembersAfterFirst(a, x);
        MembersAfterFirst(b, x);
      }
      StrictlySortedUnique(a[1..], b[1..]);
    }
  }

  lemma {:induction false} MembersAfterFirst(a: seq<Item>, x: Item)
    requires StrictlySorted(a) && a != []
    ensures x in a[1..] <==> x in a && x != a[0]
  {
    LessTotal(a[0], a[0]);
    assert a == [a[0]] + a[1..];
    if x in a[1..] {
      var i :| 0 <= i < |a[1..]| && a[1..][i] == x;
      assert Less(a[0], a[i + 1]);
    }
  }

  lemma {:induction false} SameItems(a: seq<Entry>, b: seq<Entry>)
    requires forall i :: 0 <= i < |a| ==> a[i].right == ""
    requires forall i :: 0 <= i < |b| ==> b[i].right == ""
    requires forall h :: h in HostTexts(a) ==> h in HostTexts(b)
    ensures forall x :: x in ItemsOf(a) ==> x in ItemsOf(b)
  {
    hide SplitLeft;
    forall x | x in ItemsOf(a) ensures x in ItemsOf(b) {
      var i :| 0 <= i < |a| && ItemOf(a[i]) == x;
      assert a[i].left + "" == a[i].left == HostTexts(a)[i];
      assert HostTexts(a)[i] in HostTexts(b);
      var j :| 0 <= j < |b| && HostTexts(b)[j] == a[i].left;
      assert b[j].left + "" == b[j].left;
      assert a[i] == b[j];
      assert ItemsOf(b)[j] == x;
    }
  }

  /** The first pass, and so the whole collection, is a function of the set of hosts. */
  lemma {:induction false} PassIsCanonical(a: seq<Entry>, b: seq<Entry>)
    requires forall i :: 0 <= i < |a| ==> a[i].right == ""
    requires forall i :: 0 <= i < |b| ==> b[i].right == ""
    requires forall h :: h in HostTexts(a) <==> h in HostTexts(b)
    ensures CollectOnce(a) == CollectOnce(b)
  {
    var items, others := ItemsOf(a), ItemsOf(b);
    SameItems(a, b);
    SameItems(b, a);
    SortKeeps(items);
    SortKeeps(others);
    SortSorted(items);
    SortSorted(others);
    var hosts := HostSet(items);
    assert hosts == HostSet(others);
    var compact := Compacted(Sort(items), hosts);
    var compact' := Compacted(Sort(others), hosts);
    StrictlySortedUnique(compact, compact');
  }

  /** Canonical form: order, repetition and surrounding white space of the hosts do not matter. */
  lemma {:induction false} SameHostsSameText(a: seq<string>, b: seq<string>, discardBad: bool)
    requires Prepare(a, discardBad).Ok? && Prepare(b, discardBad).Ok?
    requires forall h :: TakesPart(a, h) <==> TakesPart(b, h)
    ensures Collect(a, discardBad) == Collect(b, discardBad)
  {
    hide TakesPart, HostTexts;
    PrepareHosts(a, discardBad);
    PrepareHosts(b, discardBad);
    var first, second := Prepare(a, discardBad).value, Prepare(b, discardBad).value;
    PassIsCanonical(first, second);
    PassRuns(first);
    PassRuns(second);
  }

  // ---------- normal form ----------

  /** Nothing to strip. */
  predicate Stripped(s: string) {
    s == "" || (!IsSpace(s[0]) && !IsSpace(s[|s| - 1]))
  }

  lemma {:induction false} StripRightEnds(s: string)
    ensures var r := StripRight(s); r == "" || !IsSpace(r[|r| - 1])
    decreases |s|
  {
    if s != "" && IsSpace(s[|s| - 1]) {
      StripRightEnds(s[..|s| - 1]);
    }
  }

  lemma {:induction false} StripLeftStarts(s: string)
    requires s == "" || !IsSpace(s[|s| - 1])
    ensures Stripped(StripLeft(s))
    decreases |s|
  {
    if s != "" && IsSpace(s[0]) {
      StripLeftStarts(s[1..]);
    }
  }

  predicate Blank(s: string) {
    forall i :: 0 <= i < |s| ==> IsSpace(s[i])
  }

  lemma {:induction false} RightIs(s: string) returns (j: nat)
    ensures j <= |s| && StripRight(s) == s[..j] && Blank(s[j..])
    decreases |s|
  {
    if s != "" && IsSpace(s[|s| - 1]) {
      var t := s[..|s| - 1];
      j := RightIs(t);
      assert t[..j] == s[..j] && s[j..] == t[j..] + [s[|s| - 1]];
    } else {
      j := |s|;
      assert s[..j] == s;
    }
  }

  lemma {:induction false} LeftIs(s: string) returns (i: nat)
    ensures i <= |s| && StripLeft(s) == s[i..] && Blank(s[..i])
    decreases |s|
  {
    if s != "" && IsSpace(s[0]) {
      i := LeftIs(s[1..]);
      i := i + 1;
      assert s[1..][i - 1..] == s[i..] && s[..i] == [s[0]] + s[1..][..i - 1];
    } else {
      i := 0;
      assert s[i..] == s;
    }
  }

  /** Stripping takes white space away from both ends, all of it and nothing else. */
  lemma {:induction false} StripIs(s: string) returns (front: string, back: string)
    ensures s == front + Strip(s) + back && Blank(front) && Blank(back) && Stripped(Strip(s))
  {
    hide Strip, StripLeft, StripRight;
    var j := RightIs(s);
    var i := LeftIs(s[..j]);
    StripTwice(s);
    front, back := s[..j][..i], s[j..];
    assert Strip(s) == s[..j][i..] by { StripInSteps(s); }
    assert s == s[..j][..i] + s[..j][i..] + s[j..];
  }

  lemma {:induction false} StripInSteps(s: string)
    ensures Strip(s) == StripLeft(StripRight(s))
  {
  }

  lemma {:induction false} StripTwice(s: string)
    ensures Stripped(Strip(s)) && Strip(Strip(s)) == Strip(s)
  {
    StripRightEnds(s);
    StripLeftStarts(StripRight(s));
  }

  /** What takes part of hosts that took part is these hosts. */
  lemma {:induction false} NamesTakePart(hosts: seq<string>, names: seq<string>, h: string)
    requires forall x :: x in names <==> TakesPart(hosts, x)
    ensures TakesPart(names, h) <==> TakesPart(hosts, h)
    ensures h in names ==> Strip(h) == h && Unmarked(h)
  {
    hide Strip, Unmarked;
    forall x | x in names ensures Strip(x) == x {
      var i :| 0 <= i < |hosts| && Strip(hosts[i]) == x;
      StripTwice(hosts[i]);
    }
    if h in names {
      var i :| 0 <= i < |names| && names[i] == h;
      assert Strip(names[i]) == h;
    }
    if TakesPart(names, h) {
      var i :| 0 <= i < |names| && Strip(names[i]) == h;
      assert names[i] in names;
    }
  }

  /** The collected text is a normal form: whenever it can be expanded, collecting the hosts gives it again. */
  lemma {:induction false} NormalForm(hosts: seq<string>, discardBad: bool, allowDuplicates: bool)
    requires discardBad || forall i :: 0 <= i < |hosts| ==> Unmarked(Strip(hosts[i]))
    ensures Collect(hosts, discardBad).Ok?
    ensures var text := Collect(hosts, discardBad).value; var names := Expand(text, allowDuplicates);
      names.Ok? ==> Collect(names.value, discardBad) == Ok(text)
  {
    hide Strip, Unmarked, TakesPart, Collect, Expand, CollectedParts;
    CollectThenExpand(hosts, discardBad, allowDuplicates);
    var names := Expand(Collect(hosts, discardBad).value, allowDuplicates);
    if names.Ok? {
      forall h ensures TakesPart(names.value, h) <==> TakesPart(hosts, h) {
        NamesTakePart(hosts, names.value, h);
      }
      forall i | 0 <= i < |names.value| ensures Unmarked(Strip(names.value[i])) {
        NamesTakePart(hosts, names.value, names.value[i]);
        assert names.value[i] in names.value;
      }
      PrepareHosts(names.value, discardBad);
      SameHostsSameText(names.value, hosts, discardBad);
    }
  }
}
