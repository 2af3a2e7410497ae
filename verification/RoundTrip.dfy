/** Collecting hosts and expanding the text gives the hosts back. */
module RoundTrip {
  import opened Expansion
  import opened Meaning
  import opened Collection
  import opened Order
  import opened LargeNumerals
  import opened NameAlgebra
  import opened Distinctness
  import opened Cover

  // ---------- one pass ----------

  lemma {:induction false} ItemsOfReady(entries: seq<Entry>, done: nat)
    requires Ready(entries, done)
    ensures ItemsReady(ItemsOf(entries), done)
  {
    hide EntryReady, ItemReady;
    forall x | x in ItemsOf(entries) ensures ItemReady(x, done) {
      var i :| 0 <= i < |entries| && ItemOf(entries[i]) == x;
      ItemOfReady(entries[i], done);
    }
  }

  lemma {:induction false} SortAdjacent(items: seq<Item>)
    ensures Adjacent(Sort(items))
  {
    var s := Sort(items);
    SortSorted(items);
    forall i, j, k | 0 <= i < j < k < |s| && s[i].Key() == s[k].Key() ensures s[j].Key() == s[i].Key() {
      BetweenKeys(s[i], s[j], s[k]);
    }
  }

  lemma {:induction false} HostSetOfSort(items: seq<Item>)
    ensures HostSet(Sort(items)) == HostSet(items)
  {
    SortKeeps(items);
  }

  lemma {:induction false} HostSetOfEntries(entries: seq<Entry>)
    ensures forall h :: h in HostSet(ItemsOf(entries)) <==> h in HostTexts(entries)
  {
    var items, texts := ItemsOf(entries), HostTexts(entries);
    forall h ensures h in HostSet(items) <==> h in texts {
      if h in HostSet(items) {
        var i :| 0 <= i < |items| && items[i].host == h;
        assert texts[i] == h;
      }
      if h in texts {
        var i :| 0 <= i < |texts| && texts[i] == h;
        assert items[i] in items && items[i].host == h;
      }
    }
  }

  /**
   * Main result on collect_hostlist_1, in every reachable pass: each host is taken by exactly one scan, nothing
   * remains, and the new entries denote exactly the names of the hosts, in scan order.
   */
  lemma {:induction false} PassCovers(entries: seq<Entry>, done: nat) returns (taken: seq<string>)
    requires Ready(entries, done)
    ensures Distinct(taken) && forall h :: h in taken <==> h in HostTexts(entries)
    ensures var (next, rest, _) := CollectOnce(entries);
      && rest == {} && Ready(next, done + 1)
      && Flat(HostTexts(next)) == Flat(taken)
      && forall i :: 0 <= i < |next| ==> WellFormed(next[i].Host())
  {
    hide ItemReady, EntryReady, WellFormed;
    var items := ItemsOf(entries);
    ItemsOfReady(entries, done);
    SortKeeps(items);
    SortAdjacent(items);
    HostSetOfSort(items);
    HostSetOfEntries(entries);
    taken := GroupsCover(Sort(items), done);
  }

  // ---------- all passes ----------

  lemma {:induction false} FlatContains(hosts: seq<string>, i: nat)
    requires i < |hosts|
    ensures forall x :: x in Names(hosts[i]) ==> x in Flat(hosts)
  {
    hide Names;
    if i > 0 {
      FlatContains(hosts[1..], i - 1);
    }
  }

  lemma {:induction false} Without(b: seq<string>, k: nat)
    requires k < |b|
    ensures multiset(b[..k] + b[k + 1..]) == multiset(b) - multiset{b[k]}
  {
    assert b == b[..k] + ([b[k]] + b[k + 1..]);
  }

  lemma {:induction false} FlatWithout(b: seq<string>, k: nat)
    requires k < |b|
    ensures multiset(Flat(b)) == multiset(Names(b[k])) + multiset(Flat(b[..k] + b[k + 1..]))
  {
    hide Names;
    var before, after := b[..k], b[k + 1..];
    assert b == before + ([b[k]] + after);
    FlatConcat(before, [b[k]] + after);
    FlatConcat(before, after);
    assert ([b[k]] + after)[1..] == after;
  }

  lemma {:induction false} FlatPermuted(a: seq<string>, b: seq<string>)
    requires multiset(a) == multiset(b)
    ensures multiset(Flat(a)) == multiset(Flat(b))
  {
    hide Names;
    if a == [] {
      assert |multiset(b)| == |b|;
    } else {
      var k := FirstIn(a, b);
      FlatWithout(b, k);
      FlatPermuted(a[1..], b[..k] + b[k + 1..]);
    }
  }

  /** Where the first of `a` stands in a permutation, and what is left. */
  lemma {:induction false} FirstIn(a: seq<string>, b: seq<string>) returns (k: nat)
    requires a != [] && multiset(a) == multiset(b)
    ensures k < |b| && b[k] == a[0] && multiset(a[1..]) == multiset(b[..k] + b[k + 1..])
  {
    assert a[0] in multiset(b);
    k :| 0 <= k < |b| && b[k] == a[0];
    Without(b, k);
    assert a == [a[0]] + a[1..];
  }

  /** Texts that denote something, and nothing twice, are themselves different. */
  lemma {:induction false} FlatDistinct(hosts: seq<string>)
    requires Distinct(Flat(hosts)) && forall i :: 0 <= i < |hosts| ==> Names(hosts[i]) != []
    ensures Distinct(hosts)
  {
    hide Names;
    if hosts != [] {
      var us, rest := Names(hosts[0]), Flat(hosts[1..]);
      DistinctParts(us, rest);
      assert us[0] in us;
      FlatDistinct(hosts[1..]);
      forall i | 0 < i < |hosts| ensures hosts[i] != hosts[0] {
        FlatContains(hosts[1..], i - 1);
      }
    }
  }

  /** All hosts well formed. */
  ghost predicate Denoting(entries: seq<Entry>) {
    forall i :: 0 <= i < |entries| ==> WellFormed(entries[i].Host())
  }

  /** Passes after the first only permute the names. */
  lemma {:induction false} PassesCover(entries: seq<Entry>, done: nat)
    requires Ready(entries, done) && Denoting(entries) && Distinct(Flat(HostTexts(entries)))
    ensures var last := Passes(entries).0;
      && Denoting(last)
      && multiset(Flat(HostTexts(last))) == multiset(Flat(HostTexts(entries)))
    decreases MaxRuns(entries)
  {
    hide EntryReady, WellFormed, Names, Flat;
    var hosts := HostTexts(entries);
    forall i | 0 <= i < |hosts| ensures Names(hosts[i]) != [] {
      NamesNotEmpty(hosts[i]);
    }
    FlatDistinct(hosts);
    var taken := PassCovers(entries, done);
    SameMembers(taken, hosts);
    FlatPermuted(taken, hosts);
    PassRuns(entries);
    var (next, _, more) := CollectOnce(entries);
    if more {
      DistinctSame(Flat(hosts), Flat(HostTexts(next)));
      PassesCover(next, done + 1);
    }
  }

  lemma {:induction false} NamesNotEmpty(s: string)
    requires WellFormed(s)
    ensures Names(s) != []
  {
    ExpandPartMeaning(s);
  }

  // ---------- from hosts to text ----------

  /** The hosts that take part: stripped, not empty, free of commas and brackets. */
  ghost predicate TakesPart(hosts: seq<string>, h: string) {
    h != "" && Unmarked(h) && exists i :: 0 <= i < |hosts| && Strip(hosts[i]) == h
  }

  /** What is refused in a host: the three characters the notation uses, and nothing else. */
  lemma {:induction false} UnmarkedIs(h: string)
    ensures Unmarked(h) <==> '[' !in h && ']' !in h && ',' !in h
  {
    forall i | 0 <= i < |h| ensures h[i] in "[]," <==> h[i] == '[' || h[i] == ']' || h[i] == ',' {
      assert "[],"[0] == '[' && "[],"[1] == ']' && "[],"[2] == ',';
    }
  }

  lemma {:induction false} PrepareHosts(hosts: seq<string>, discardBad: bool)
    ensures var r := Prepare(hosts, discardBad);
      && (r.Ok? <==> discardBad || forall i :: 0 <= i < |hosts| ==> Unmarked(Strip(hosts[i])))
      && (r.Err? ==> r.error == ForbiddenCharacter)
      && (r.Ok? ==> forall i :: 0 <= i < |r.value| ==> r.value[i].right == "")
      && (r.Ok? ==> forall h :: TakesPart(hosts, h) <==> h in HostTexts(r.value))
  {
    assert Unmarked("");
    hide Unmarked, Strip;
    if hosts != [] {
      var k := |hosts| - 1;
      var before := hosts[..k];
      PrepareHosts(before, discardBad);
      assert forall i :: 0 <= i < k ==> hosts[i] == before[i];
      var r := Prepare(hosts, discardBad);
      if r.Ok? {
        var host, entries := Strip(hosts[k]), Prepare(before, discardBad).value;
        assert host + "" == host;
        assert HostTexts(entries + [Entry(host, "")]) == HostTexts(entries) + [host];
        forall h ensures TakesPart(hosts, h) <==> h in HostTexts(r.value) {
          assert TakesPart(hosts, h) <==> TakesPart(before, h) || (h == host && h != "" && Unmarked(h));
        }
      }
    } else {
      assert HostTexts([]) == [];
    }
  }

  lemma {:induction false} FlatUnmarked(hosts: seq<string>)
    requires forall i :: 0 <= i < |hosts| ==> Unmarked(hosts[i]) && hosts[i] != ""
    ensures Flat(hosts) == hosts
  {
    if hosts != [] {
      UnmarkedName(hosts[0]);
      FlatUnmarked(hosts[1..]);
      assert hosts == [hosts[0]] + hosts[1..];
    }
  }

  lemma {:induction false} FreshReady(entries: seq<Entry>)
    requires forall i :: 0 <= i < |entries| ==> entries[i].right == "" && Unmarked(entries[i].left)
    ensures Ready(entries, 0)
  {
  }

  /** The parts of the collected text denote exactly the hosts that take part, each once. */
  lemma {:induction false} CollectedNames(hosts: seq<string>, entries: seq<Entry>)
    requires forall i :: 0 <= i < |entries| ==> entries[i].right == ""
    requires forall h :: TakesPart(hosts, h) <==> h in HostTexts(entries)
    ensures var last := Passes(entries).0;
      && Denoting(last) && Distinct(Flat(HostTexts(last)))
      && forall h :: h in Flat(HostTexts(last)) <==> TakesPart(hosts, h)
  {
    hide WellFormed, Names, Flat, TakesPart, HostTexts;
    FreshEntries(hosts, entries);
    var taken := PassCovers(entries, 0);
    FlatTaken(hosts, taken);
    PassRuns(entries);
    var (next, _, more) := CollectOnce(entries);
    if more {
      PassesCover(next, 1);
      DistinctSame(taken, Flat(HostTexts(Passes(next).0)));
    }
  }

  lemma {:induction false} FreshEntries(hosts: seq<string>, entries: seq<Entry>)
    requires forall i :: 0 <= i < |entries| ==> entries[i].right == ""
    requires forall h :: TakesPart(hosts, h) <==> h in HostTexts(entries)
    ensures Ready(entries, 0)
  {
    hide Unmarked;
    forall i | 0 <= i < |entries| ensures Unmarked(entries[i].left) {
      assert entries[i].left + "" == entries[i].left;
      assert HostTexts(entries)[i] == entries[i].left;
      assert TakesPart(hosts, entries[i].left);
    }
    FreshReady(entries);
  }

  lemma {:induction false} FlatTaken(hosts: seq<string>, taken: seq<string>)
    requires forall h :: h in taken ==> TakesPart(hosts, h)
    ensures Flat(taken) == taken
  {
    hide Unmarked;
    assert forall i :: 0 <= i < |taken| ==> taken[i] in taken;
    FlatUnmarked(taken);
  }

  /** The parts of the collected text. */
  function CollectedParts(hosts: seq<string>, discardBad: bool): seq<string>
    requires Prepare(hosts, discardBad).Ok?
  {
    HostTexts(Passes(Prepare(hosts, discardBad).value).0)
  }

  lemma {:induction false} FlatIsAllNames(parts: seq<string>)
    requires "" !in Flat(parts)
    ensures AllNames(parts) == Flat(parts) && forall i :: 0 <= i < |parts| ==> parts[i] != ""
  {
    if parts != [] {
      assert Names("") == [""];
      assert forall x :: x in Flat(parts[1..]) ==> x in Flat(parts);
      assert forall x :: x in Names(parts[0]) ==> x in Flat(parts);
      FlatIsAllNames(parts[1..]);
    }
  }

  /** What collecting promises of the expansion of its text. */
  ghost predicate GivesBack(hosts: seq<string>, parts: seq<string>, r: Result<seq<string>>) {
    && (forall p :: p in parts ==> WellFormed(p))
    && (r.Ok? <==> forall p :: p in parts ==> |Names(p)| <= MAX_SIZE && !Overflows(p))
    && (r.Ok? ==> r.value == Flat(parts) && Distinct(r.value) && forall h :: h in r.value <==> TakesPart(hosts, h))
    && (r.Err? ==> exists p :: p in parts && Refused(r.error, p))
  }

  /**
   * The round trip. If no host is refused, expanding the collected text gives exactly the hosts that take part, each
   * once and part by part, whether or not duplicates are allowed, as long as no part denotes more than MAX_SIZE names
   * or has a range that ends beyond a C long; otherwise expansion refuses the text for such a part.
   */
  lemma {:induction false} CollectThenExpand(hosts: seq<string>, discardBad: bool, allowDuplicates: bool)
    requires discardBad || forall i :: 0 <= i < |hosts| ==> Unmarked(Strip(hosts[i]))
    ensures Prepare(hosts, discardBad).Ok? && Collect(hosts, discardBad).Ok?
    ensures GivesBack(hosts, CollectedParts(hosts, discardBad),
        Expand(Collect(hosts, discardBad).value, allowDuplicates))
  {
    hide WellFormed, Names, Flat, Passes, Prepare, TakesPart;
    PrepareHosts(hosts, discardBad);
    var entries := Prepare(hosts, discardBad).value;
    CollectedNames(hosts, entries);
    TextGivesBack(hosts, HostTexts(Passes(entries).0), allowDuplicates);
  }

  lemma {:induction false} TextGivesBack(hosts: seq<string>, parts: seq<string>, allowDuplicates: bool)
    requires AllWellFormedParts(parts) && Distinct(Flat(parts))
    requires forall h :: h in Flat(parts) <==> TakesPart(hosts, h)
    ensures GivesBack(hosts, parts, Expand(Join(parts), allowDuplicates))
  {
    hide Names, Flat, Overflows, Refused, Expand, FirstOccurrences, AllNames, Factors;
    assert !TakesPart(hosts, "");
    FlatIsAllNames(parts);
    PurgedExpansion(Join(parts));
    if parts == [] {
      NothingToExpand();
    } else {
      ExpandMeaning(parts);
    }
  }

  lemma {:induction false} NothingToExpand()
    ensures Join([]) == "" && Expand("", true) == Ok([]) && AllNames([]) == []
  {
    hide Expand;
    assert Join([""]) == "" && AllNames([""]) == [] && Fits("");
    ExpandMeaning([""]);
  }

  ghost predicate AllWellFormedParts(parts: seq<string>) {
    forall i :: 0 <= i < |parts| ==> WellFormed(parts[i])
  }

  lemma {:induction false} FlatSize(hosts: seq<string>, i: nat)
    requires i < |hosts|
    ensures |Names(hosts[i])| <= |Flat(hosts)|
  {
    hide Names;
    if i > 0 {
      FlatSize(hosts[1..], i - 1);
    }
  }

  /** Names of the parts are hosts that take part. */
  lemma {:induction false} FlatHolds(parts: seq<string>, p: string, name: string)
    requires p in parts && name in Names(p)
    ensures name in Flat(parts)
  {
    hide Names;
    if parts[0] != p {
      FlatHolds(parts[1..], p, name);
    }
  }

  /**
   * Conditions on the hosts alone: with at most MAX_SIZE different ones the expansion fails only for a range that
   * ends beyond a C long, and without a numeral that large in any host there is none.
   */
  lemma {:induction false} FewHostsFit(hosts: seq<string>, discardBad: bool, allowDuplicates: bool,
                                       members: set<string>)
    requires discardBad || forall i :: 0 <= i < |hosts| ==> Unmarked(Strip(hosts[i]))
    requires (forall h :: h in members <==> TakesPart(hosts, h)) && |members| <= MAX_SIZE
    ensures Collect(hosts, discardBad).Ok?
    ensures var r := Expand(Collect(hosts, discardBad).value, allowDuplicates);
      && (r.Ok? <==> forall p :: p in CollectedParts(hosts, discardBad) ==> IsPart(p) && !Overflows(p))
      && (r.Err? ==> r.error == LongOverflow)
      && ((forall h :: h in members ==> !HasLargeNumeral(h)) ==> r.Ok?)
  {
    hide WellFormed, Names, Flat, Passes, Prepare, TakesPart, HasLargeNumeral, Overflows;
    CollectThenExpand(hosts, discardBad, allowDuplicates);
    PrepareHosts(hosts, discardBad);
    CollectedNames(hosts, Prepare(hosts, discardBad).value);
    var parts := CollectedParts(hosts, discardBad);
    DistinctSize(Flat(parts), members);
    forall p | p in parts ensures IsPart(p) && |Names(p)| <= MAX_SIZE {
      var i :| 0 <= i < |parts| && parts[i] == p;
      FlatSize(parts, i);
      WellFormedIsPart(p);
    }
    if p :| p in parts && Overflows(p) {
      OverflowShows(p);
      var i :| 0 <= i < |Names(p)| && HasLargeNumeral(Names(p)[i]);
      FlatHolds(parts, p, Names(p)[i]);
    }
  }

  lemma {:induction false} WellFormedIsPart(p: string)
    requires WellFormed(p)
    ensures IsPart(p)
  {
  }

  // ---------- the number of passes ----------

  lemma {:induction false} MaxRunsIsMax(entries: seq<Entry>)
    ensures forall i :: 0 <= i < |entries| ==> DigitRuns(entries[i].left) <= MaxRuns(entries)
    ensures MaxRuns(entries) > 0 ==> exists i :: 0 <= i < |entries| && DigitRuns(entries[i].left) == MaxRuns(entries)
  {
    if entries != [] {
      var rest := entries[1..];
      MaxRunsIsMax(rest);
      assert forall i :: 0 <= i < |rest| ==> rest[i] == entries[i + 1];
      assert entries[0].left == entries[0].left;
    }
  }

  /** The collecting loop makes one pass more than the largest number of digit runs in a host. */
  lemma {:induction false} PassCount(hosts: seq<string>, discardBad: bool)
    requires Prepare(hosts, discardBad).Ok?
    ensures var passes := Passes(Prepare(hosts, discardBad).value).1;
      && (forall h :: TakesPart(hosts, h) ==> DigitRuns(h) + 1 <= passes)
      && (passes > 1 ==> exists h :: TakesPart(hosts, h) && DigitRuns(h) + 1 == passes)
  {
    hide TakesPart, DigitRuns;
    PrepareHosts(hosts, discardBad);
    var entries := Prepare(hosts, discardBad).value;
    MaxRunsIsMax(entries);
    forall i | 0 <= i < |entries| ensures HostTexts(entries)[i] == entries[i].left {
      assert entries[i].left + "" == entries[i].left;
    }
    if MaxRuns(entries) > 0 {
      var i :| 0 <= i < |entries| && DigitRuns(entries[i].left) == MaxRuns(entries);
      assert HostTexts(entries)[i] in HostTexts(entries);
    }
  }
}
