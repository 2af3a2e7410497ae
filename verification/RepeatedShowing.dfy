/** Drawing the same map twice under any tags: exactly when the second showing is the first. */
module RepeatedShowing {
  import opened Grouping
  import opened GroupMembers
  import opened Load
  import opened StatObjects
  import opened DerivedEvents
  import opened SecondShowing

  /** Events that only `derived_events` writes. */
  const WRITTEN: set<string> := {"load", "iops", "bytes", "load_eff"}

  /**
   * A group survives being drawn: the rows behind its first have none of any event that is kept as it is; what they
   * have of bytes makes up for the first row's being scaled once more; no load was shared out to the group, since a
   * share would count as requests; and its load comes from a row behind the first, or is nothing.
   */
  ghost predicate Survives(all: seq<Stats>, groups: seq<Stats>) {
    && all != []
    && var first, rest := all[0], all[1..];
       && (forall e :: e in Fold(all) && EventKind(e) != Bytes && e !in WRITTEN ==> SumOver(rest, e) == 0.0)
       && (forall e :: e in Fold(all) && EventKind(e) == Bytes ==>
             (1.0 - BYTES_FACTOR) * Get(first, e) == BYTES_FACTOR * SumOver(rest, e))
       && EffectiveLoad(Fold(all), groups) == 0.0
       && ("load" in Events(rest) || Get(first, "load") == 0.0)
  }

  /** The group as it is summed up the second time: its first row now holds what was shown of it. */
  ghost function Resummed(all: seq<Stats>, groups: seq<Stats>): Stats
    requires all != []
  {
    Fold([Derived(Fold(all), groups)] + all[1..])
  }

  ghost predicate Unwritten(all: seq<Stats>) {
    forall i :: 0 <= i < |all| ==> "load_eff" !in all[i]
  }

  // ---------- one group ----------

  /** Single events of a group with its derived events. */
  lemma {:induction false} DerivedIs(stats: Stats, groups: seq<Stats>)
    requires "load_eff" !in stats
    ensures var d := Derived(stats, groups);
      && d.Keys == stats.Keys + {"load", "iops", "bytes"}
          + (if Norm(TotalIops(groups), TotalMegabytes(groups)) > 0 then {"load_eff"} else {})
      && d["load"] == Get(stats, "load") * LOAD_FACTOR && d["iops"] == Iops(stats) && d["bytes"] == Megabytes(stats)
      && Get(d, "load_eff") == EffectiveLoad(stats, groups)
      && forall e :: e in stats && e !in WRITTEN ==>
           d[e] == if EventKind(e) == Bytes then stats[e] * BYTES_FACTOR else stats[e]
  {
    hide EventKind, Iops, Megabytes, TotalIops, TotalMegabytes, Part, Share;
  }

  lemma {:induction false} LastLoadIs(all: seq<Stats>, a: real, b: real)
    ensures "load" in Events(all) ==> LastLoad(all, a) == LastLoad(all, b)
    ensures "load" !in Events(all) ==> LastLoad(all, a) == a && LastLoad(all, b) == b
  {
    if all != [] {
      LastLoadIs(all[..|all| - 1], a, b);
    }
  }

  lemma {:induction false} NoneWritten(all: seq<Stats>)
    requires Unwritten(all)
    ensures "load_eff" !in Events(all) && SumOver(all, "load_eff") == 0.0
    decreases |all|
  {
    if all != [] {
      assert forall i :: 0 <= i < |all| - 1 ==> all[..|all| - 1][i] == all[i];
      NoneWritten(all[..|all| - 1]);
    }
  }

  /** Single events of a group summed up again, against what was shown of it. */
  lemma {:induction false} ResummedIs(all: seq<Stats>, groups: seq<Stats>)
    requires all != [] && Unwritten(all)
    ensures "load_eff" !in Fold(all)
    ensures var sum, d, again, rest := Fold(all), Derived(Fold(all), groups), Resummed(all, groups), all[1..];
      && again.Keys == d.Keys
      && Get(again, "load") == (if "load" in Events(rest) then Get(sum, "load") else d["load"])
      && Get(again, "load_eff") == EffectiveLoad(sum, groups)
      && forall e :: e in sum && e !in WRITTEN ==> again[e] == d[e] + SumOver(rest, e)
  {
    hide Fold, Derived, EffectiveLoad, EventKind, LastLoad, SumOver, Events;
    var first, rest := all[0], all[1..];
    assert all == [first] + rest;
    assert forall i :: 0 <= i < |rest| ==> rest[i] == all[i + 1];
    NoneWritten(rest);
    FoldIs(first, rest);
    DerivedIs(Fold(all), groups);
    var d := Derived(Fold(all), groups);
    FoldIs(d, rest);
    LastLoadIs(rest, Get(first, "load"), Get(d, "load"));
  }

  /** Summed up again, a group has its requests and the share of the load as one more. */
  lemma {:induction false} ResummedIops(all: seq<Stats>, groups: seq<Stats>)
    requires all != [] && Unwritten(all)
    requires forall e :: e in Fold(all) && EventKind(e) == Requests && e !in WRITTEN ==> SumOver(all[1..], e) == 0.0
    ensures Iops(Resummed(all, groups)) == Iops(Fold(all)) + EffectiveLoad(Fold(all), groups)
  {
    hide Fold, Derived, EffectiveLoad, EventKind, SumOver, Resummed, Unwritten, Events;
    var sum, again := Fold(all), Resummed(all, groups);
    Kinds();
    ResummedIs(all, groups);
    DerivedIs(sum, groups);
    var others := again.Keys - {"load_eff"};
    SumAgrees(others, again, sum.Keys, sum, Requests);
    if "load_eff" in again {
      SumPick(again.Keys, "load_eff", again, Requests);
    } else {
      assert others == again.Keys;
    }
  }

  lemma {:induction false} ResummedMegabytes(all: seq<Stats>, groups: seq<Stats>)
    requires Survives(all, groups) && Unwritten(all)
    ensures Megabytes(Resummed(all, groups)) == Megabytes(Fold(all))
  {
    hide Fold, Derived, EffectiveLoad, EventKind, SumOver, Resummed, Unwritten, Events;
    var sum, again := Fold(all), Resummed(all, groups);
    Kinds();
    ResummedIs(all, groups);
    DerivedIs(sum, groups);
    forall e | e in sum && EventKind(e) == Bytes ensures again[e] == sum[e] {
      BytesSurvive(all, groups, e);
    }
    SumAgrees(again.Keys, again, sum.Keys, sum, Bytes);
  }

  /** Bytes scaled and summed up again are what they were exactly when the rows behind make up for the scaling. */
  lemma {:induction false} BytesSurvive(all: seq<Stats>, groups: seq<Stats>, e: string)
    requires all != [] && Unwritten(all) && e in Fold(all) && EventKind(e) == Bytes
    ensures e in Resummed(all, groups)
    ensures Resummed(all, groups)[e] == Fold(all)[e]
      <==> (1.0 - BYTES_FACTOR) * Get(all[0], e) == BYTES_FACTOR * SumOver(all[1..], e)
  {
    hide Fold, Derived, EffectiveLoad, EventKind, SumOver, Resummed, Unwritten, Events;
    var sum := Fold(all);
    Kinds();
    ResummedIs(all, groups);
    DerivedIs(sum, groups);
    FoldIs(all[0], all[1..]);
    assert all == [all[0]] + all[1..];
    ScaledAgain(Get(all[0], e), SumOver(all[1..], e));
  }

  lemma {:induction false} ScaledAgain(x: real, y: real)
    ensures (x + y) * BYTES_FACTOR + y == x + y <==> (1.0 - BYTES_FACTOR) * x == BYTES_FACTOR * y
  {
  }

  /** If what is shown again is the same, the group survives. */
  lemma {:induction false} SameSurvives(all: seq<Stats>, groups: seq<Stats>, again: seq<Stats>)
    requires all != [] && Unwritten(all)
    requires Derived(Resummed(all, groups), again) == Derived(Fold(all), groups)
    ensures Survives(all, groups)
  {
    hide Fold, Derived, EffectiveLoad, EventKind, SumOver, Resummed, Unwritten, Events;
    var sum, more, rest := Fold(all), Resummed(all, groups), all[1..];
    var d, d' := Derived(sum, groups), Derived(more, again);
    ResummedIs(all, groups);
    DerivedIs(sum, groups);
    Kinds();
    forall e | e in sum && e !in WRITTEN
      ensures EventKind(e) != Bytes ==> SumOver(rest, e) == 0.0
      ensures EventKind(e) == Bytes ==> more[e] == sum[e]
    {
      DerivedOther(more, again, e);
    }
    forall e | e in sum && EventKind(e) == Bytes
      ensures (1.0 - BYTES_FACTOR) * Get(all[0], e) == BYTES_FACTOR * SumOver(rest, e)
    {
      BytesSurvive(all, groups, e);
    }
    ResummedIops(all, groups);
    DerivedSums(more, again);
    FoldIs(all[0], rest);
    LastLoadIs(rest, Get(all[0], "load"), 0.0);
    assert all == [all[0]] + rest;
  }

  lemma {:induction false} DerivedOther(stats: Stats, groups: seq<Stats>, e: string)
    requires e in stats && e !in WRITTEN
    ensures var d := Derived(stats, groups);
      e in d && d[e] == if EventKind(e) == Bytes then stats[e] * BYTES_FACTOR else stats[e]
  {
    hide EventKind, Iops, Megabytes, TotalIops, TotalMegabytes, Part, Share;
  }

  lemma {:induction false} DerivedSums(stats: Stats, groups: seq<Stats>)
    ensures var d := Derived(stats, groups);
      && "load" in d && "iops" in d && "bytes" in d
      && d["load"] == Get(stats, "load") * LOAD_FACTOR && d["iops"] == Iops(stats) && d["bytes"] == Megabytes(stats)
  {
    hide EventKind, Iops, Megabytes, TotalIops, TotalMegabytes, Part, Share;
  }

  /** An event that only the clients write is shown as before. */
  lemma {:induction false} EventSurvives(all: seq<Stats>, groups: seq<Stats>, again: seq<Stats>, e: string)
    requires Survives(all, groups) && Unwritten(all) && e in Fold(all) && e !in WRITTEN
    ensures var d, d' := Derived(Fold(all), groups), Derived(Resummed(all, groups), again);
      e in d && e in d' && d'[e] == d[e]
  {
    hide Fold, Derived, EffectiveLoad, EventKind, SumOver, Resummed, Unwritten, Events;
    var more := Resummed(all, groups);
    ResummedIs(all, groups);
    DerivedIs(Fold(all), groups);
    DerivedOther(more, again, e);
    if EventKind(e) == Bytes {
      BytesSurvive(all, groups, e);
    }
  }

  lemma {:induction false} LoadSurvives(all: seq<Stats>, groups: seq<Stats>)
    requires Survives(all, groups) && Unwritten(all)
    ensures Get(Resummed(all, groups), "load") == Get(Fold(all), "load")
  {
    hide Fold, Derived, EffectiveLoad, EventKind, SumOver, Resummed, Unwritten, Events;
    ResummedIs(all, groups);
    DerivedIs(Fold(all), groups);
    FoldIs(all[0], all[1..]);
    LastLoadIs(all[1..], Get(all[0], "load"), 0.0);
    assert all == [all[0]] + all[1..];
  }

  /** If the group and the totals survive, what is shown again is the same. */
  lemma {:induction false} SurvivorStays(all: seq<Stats>, groups: seq<Stats>, again: seq<Stats>)
    requires all != [] && Survives(all, groups) && Unwritten(all)
    requires TotalIops(again) == TotalIops(groups) && TotalMegabytes(again) == TotalMegabytes(groups)
    ensures Derived(Resummed(all, groups), again) == Derived(Fold(all), groups)
  {
    hide Fold, Derived, EffectiveLoad, EventKind, Resummed, Unwritten, TotalIops, TotalMegabytes, Survives;
    var sum, more := Fold(all), Resummed(all, groups);
    var d, d' := Derived(sum, groups), Derived(more, again);
    ResummedIs(all, groups);
    SurvivorSums(all, groups);
    LoadSurvives(all, groups);
    DerivedIs(sum, groups);
    DerivedSums(more, again);
    SameShare(sum, groups, more, again);
    forall e | e in sum && e !in WRITTEN ensures e in d' && d'[e] == d[e] {
      EventSurvives(all, groups, again, e);
    }
    assert d'.Keys == d.Keys;
  }

  /** The same load, sums and totals give the same share. */
  lemma {:induction false} SameShare(a: Stats, groups: seq<Stats>, b: Stats, again: seq<Stats>)
    requires "load_eff" !in a && Get(a, "load") == Get(b, "load")
    requires Iops(a) == Iops(b) && Megabytes(a) == Megabytes(b)
    requires TotalIops(again) == TotalIops(groups) && TotalMegabytes(again) == TotalMegabytes(groups)
    ensures "load_eff" in Derived(a, groups) ==>
              "load_eff" in Derived(b, again) && Derived(b, again)["load_eff"] == Derived(a, groups)["load_eff"]
    ensures Derived(b, again).Keys == b.Keys + {"load", "iops", "bytes"}
          + (if Norm(TotalIops(groups), TotalMegabytes(groups)) > 0 then {"load_eff"} else {})
  {
    hide EventKind, Iops, Megabytes, TotalIops, TotalMegabytes, Part, Share;
  }

  // ---------- all groups ----------

  lemma {:induction false} SameTotals(a: seq<Stats>, b: seq<Stats>)
    requires |a| == |b|
    requires forall g :: 0 <= g < |a| ==> Iops(a[g]) == Iops(b[g]) && Megabytes(a[g]) == Megabytes(b[g])
    ensures TotalIops(a) == TotalIops(b) && TotalMegabytes(a) == TotalMegabytes(b)
    decreases |a|
  {
    hide Iops, Megabytes;
    if a != [] {
      SameTotals(a[..|a| - 1], b[..|b| - 1]);
    }
  }

  lemma {:induction false} SameGroupKeys(a: seq<Row>, b: seq<Row>, wanted: set<string>)
    requires RowKeys(a) == RowKeys(b)
    ensures GroupKeys(a, wanted) == GroupKeys(b, wanted)
    decreases |a|
  {
    hide Restrict;
    assert |a| == |RowKeys(a)| == |b|;
    if a != [] {
      var k := |a| - 1;
      assert RowKeys(a)[k] == RowKeys(b)[k];
      assert RowKeys(a[..k]) == RowKeys(a)[..k] == RowKeys(b)[..k] == RowKeys(b[..k]);
      SameGroupKeys(a[..k], b[..k], wanted);
    }
  }

  lemma {:induction false} SameKeptKeys(a: seq<Row>, b: seq<Row>, filters: Filters, server: string,
                                        wanted: set<string>)
    requires RowKeys(a) == RowKeys(b)
    ensures RowKeys(Kept(a, filters, server, wanted)) == RowKeys(Kept(b, filters, server, wanted))
    decreases |a|
  {
    hide Restrict, Keep;
    assert |a| == |RowKeys(a)| == |b|;
    if a != [] {
      var k := |a| - 1;
      assert RowKeys(a)[k] == RowKeys(b)[k];
      assert RowKeys(a[..k]) == RowKeys(a)[..k] == RowKeys(b)[..k] == RowKeys(b[..k]);
      SameKeptKeys(a[..k], b[..k], filters, server, wanted);
      var first, second := Kept(a[..k], filters, server, wanted), Kept(b[..k], filters, server, wanted);
      assert RowKeys(first + [a[k]]) == RowKeys(first) + [a[k].tags];
      assert RowKeys(second + [b[k]]) == RowKeys(second) + [b[k].tags];
      assert first + [] == first && second + [] == second;
    }
  }

  /** Filters keep or drop all rows of a group. */
  lemma {:induction false} UnderKept(rows: seq<Row>, filters: Filters, server: string, wanted: set<string>, key: Tags)
    ensures Under(Kept(rows, filters, server, wanted), wanted, key)
         == if Keep(filters, server, key) then Under(rows, wanted, key) else []
    decreases |rows|
  {
    hide Restrict, Keep;
    if rows != [] {
      var k := |rows| - 1;
      var before := Kept(rows[..k], filters, server, wanted);
      UnderKept(rows[..k], filters, server, wanted, key);
      UnderStep(before, rows[k], wanted, key);
      assert before + [] == before;
    }
  }

  lemma {:induction false} NoneUnder(rows: seq<Row>, wanted: set<string>, key: Tags)
    ensures Under(rows, wanted, key) == [] <==>
            forall i :: 0 <= i < |rows| ==> Restrict(rows[i].tags, wanted) != key
    decreases |rows|
  {
    hide Restrict;
    if rows != [] {
      var k := |rows| - 1;
      NoneUnder(rows[..k], wanted, key);
      assert forall i :: 0 <= i < k ==> rows[..k][i] == rows[i];
    }
  }

  /** The first row of a group is replaced, the others are as they were. */
  ghost predicate FirstChanged(rows: seq<Row>, changed: seq<Row>, wanted: set<string>, key: Tags, first: Stats) {
    && |changed| == |rows|
    && forall j :: 0 <= j < |rows| && Restrict(rows[j].tags, wanted) == key ==>
         changed[j].stats == if Under(rows[..j], wanted, key) == [] then first else rows[j].stats
  }

  lemma {:induction false} FirstChangedBefore(rows: seq<Row>, changed: seq<Row>, wanted: set<string>, key: Tags,
                                              first: Stats)
    requires rows != [] && FirstChanged(rows, changed, wanted, key, first)
    ensures FirstChanged(rows[..|rows| - 1], changed[..|rows| - 1], wanted, key, first)
  {
    hide Restrict, Under;
    assert forall j :: 0 <= j < |rows| - 1 ==> rows[..|rows| - 1][..j] == rows[..j];
  }

  lemma {:induction false} UnderChanged(rows: seq<Row>, changed: seq<Row>, wanted: set<string>, key: Tags,
                                        first: Stats)
    requires RowKeys(changed) == RowKeys(rows) && FirstChanged(rows, changed, wanted, key, first)
    ensures var under := Under(rows, wanted, key);
      Under(changed, wanted, key) == if under == [] then [] else [first] + under[1..]
    decreases |rows|
  {
    hide Restrict, Under;
    if rows == [] {
      assert changed == rows && Under([], wanted, key) == [] by { NoneUnder([], wanted, key); }
    } else {
      var k := |rows| - 1;
      assert RowKeys(rows)[k] == RowKeys(changed)[k];
      assert RowKeys(rows[..k]) == RowKeys(rows)[..k] == RowKeys(changed)[..k] == RowKeys(changed[..k]);
      FirstChangedBefore(rows, changed, wanted, key, first);
      UnderChanged(rows[..k], changed[..k], wanted, key, first);
      UnderStep(rows[..k], rows[k], wanted, key);
      UnderStep(changed[..k], changed[k], wanted, key);
      assert rows == rows[..k] + [rows[k]] && changed == changed[..k] + [changed[k]];
      var before := Under(rows[..k], wanted, key);
      if before != [] {
        Appended(before, first, rows[k].stats);
      }
    }
  }

  lemma {:induction false} Appended(before: seq<Stats>, first: Stats, last: Stats)
    requires before != []
    ensures [first] + before[1..] + [last] == [first] + (before + [last])[1..]
  {
  }

  /** What drawing leaves of the rows of a group: the first holds what is shown of it. */
  lemma {:induction false} AfterUnder(rows: seq<Row>, filters: Filters, server: string, wanted: set<string>, key: Tags)
    requires Keep(filters, server, key)
    ensures var after := AfterShown(rows, filters, server, wanted);
      var under, shown := Under(rows, wanted, key), Shown(rows, filters, server, wanted);
      && RowKeys(after) == RowKeys(rows)
      && Under(after, wanted, key) == if under == [] then [] else [Lookup(shown, key)] + under[1..]
  {
    hide Restrict, Keep, Lookup, Shown, Under;
    var after, shown := AfterShown(rows, filters, server, wanted), Shown(rows, filters, server, wanted);
    assert RowKeys(after) == RowKeys(rows);
    forall j | 0 <= j < |rows| && Restrict(rows[j].tags, wanted) == key
      ensures Opens(RowKeys(rows), j, filters, server, wanted) <==> Under(rows[..j], wanted, key) == []
    {
      NoneUnder(rows[..j], wanted, key);
      assert forall i :: 0 <= i < j ==> rows[..j][i].tags == RowKeys(rows)[i];
    }
    UnderChanged(rows, after, wanted, key, Lookup(shown, key));
  }

  lemma {:induction false} GroupRowsAre(rows: seq<Row>, wanted: set<string>, g: nat)
    requires g < |GroupRows(rows, wanted)|
    ensures var row := GroupRows(rows, wanted)[g];
      && row.tags == GroupKeys(rows, wanted)[g] && row.tags in Group(rows, wanted)
      && Under(rows, wanted, row.tags) != [] && row.stats == Fold(Under(rows, wanted, row.tags))
  {
    hide Group, Under, Fold;
    KeysOfGroup(rows, wanted);
    GroupIsFold(rows, wanted, GroupKeys(rows, wanted)[g]);
  }

  lemma {:induction false} FoundAt(rows: seq<Row>, wanted: set<string>, g: nat)
    requires g < |GroupRows(rows, wanted)|
    ensures var derived := DerivedRows(GroupRows(rows, wanted)); Lookup(derived, derived[g].tags) == derived[g].stats
  {
    hide Group, Derived, GroupKeys;
    KeysOfGroup(rows, wanted);
    var derived, keys := DerivedRows(GroupRows(rows, wanted)), GroupKeys(rows, wanted);
    forall j | 0 <= j < |derived| ensures derived[j].tags == keys[j] {
      GroupRowsAre(rows, wanted, j);
    }
    var f := FindRow(derived, derived[g].tags);
    assert f < |derived| ==> keys[f] == keys[g];
  }

  lemma {:induction false} KeptKey(rows: seq<Row>, filters: Filters, server: string, wanted: set<string>, key: Tags)
    requires key in Group(Kept(rows, filters, server, wanted), wanted)
    ensures Keep(filters, server, key)
  {
    hide Keep, Under, Fold;
    var kept := Kept(rows, filters, server, wanted);
    UnderKept(rows, filters, server, wanted, key);
    GroupIsFold(kept, wanted, key);
  }

  /** The second time, the same groups are summed up, each from what was shown of it and its rows behind the first. */
  lemma {:induction false} SecondGroups(rows: seq<Row>, filters: Filters, server: string, wanted: set<string>)
    ensures var kept := Kept(rows, filters, server, wanted);
      var before := GroupRows(kept, wanted);
      var again := GroupRows(Kept(AfterShown(rows, filters, server, wanted), filters, server, wanted), wanted);
      && |again| == |before|
      && forall g :: 0 <= g < |before| ==>
           var all := Under(kept, wanted, before[g].tags);
           && all != [] && before[g].stats == Fold(all) && before[g].tags in Group(kept, wanted)
           && again[g] == Row(before[g].tags, Resummed(all, StatsOf(before)))
  {
    hide Keep, Kept, Lookup, DerivedRows, Under, Fold, Group, AfterShown, GroupRows, GroupKeys, Derived;
    var after, kept := AfterShown(rows, filters, server, wanted), Kept(rows, filters, server, wanted);
    var before, again := GroupRows(kept, wanted), GroupRows(Kept(after, filters, server, wanted), wanted);
    SameAfter(rows, filters, server, wanted);
    SameKeptKeys(rows, after, filters, server, wanted);
    SameGroupKeys(kept, Kept(after, filters, server, wanted), wanted);
    forall g | 0 <= g < |before|
      ensures var all := Under(kept, wanted, before[g].tags);
        && all != [] && before[g].stats == Fold(all) && before[g].tags in Group(kept, wanted)
        && again[g] == Row(before[g].tags, Resummed(all, StatsOf(before)))
    {
      var key := before[g].tags;
      GroupRowsAre(kept, wanted, g);
      GroupRowsAre(Kept(after, filters, server, wanted), wanted, g);
      KeptKey(rows, filters, server, wanted, key);
      UnderKept(rows, filters, server, wanted, key);
      UnderKept(after, filters, server, wanted, key);
      AfterUnder(rows, filters, server, wanted, key);
      FoundAt(kept, wanted, g);
      DerivedAt(before, g);
    }
  }

  lemma {:induction false} DerivedAt(rows: seq<Row>, g: nat)
    requires g < |rows|
    ensures DerivedRows(rows)[g] == Row(rows[g].tags, Derived(rows[g].stats, StatsOf(rows)))
  {
    hide Derived;
  }

  lemma {:induction false} SameAfter(rows: seq<Row>, filters: Filters, server: string, wanted: set<string>)
    ensures RowKeys(AfterShown(rows, filters, server, wanted)) == RowKeys(rows)
  {
    hide Keep, Shown, Lookup;
  }

  lemma {:induction false} UnwrittenUnder(rows: seq<Row>, wanted: set<string>, key: Tags)
    requires forall i :: 0 <= i < |rows| ==> "load_eff" !in rows[i].stats
    ensures Unwritten(Under(rows, wanted, key))
    decreases |rows|
  {
    hide Restrict;
    if rows != [] {
      UnwrittenUnder(rows[..|rows| - 1], wanted, key);
    }
  }

  /** Every group that is shown survives. */
  ghost predicate AllSurvive(kept: seq<Row>, wanted: set<string>) {
    forall key :: key in Group(kept, wanted) ==> Survives(Under(kept, wanted, key), StatsOf(GroupRows(kept, wanted)))
  }

  /**
   * Drawing the screen twice from one map under any tags: what is shown is the same exactly when every group that is
   * shown survives being overwritten.
   */
  lemma {:induction false} ShownTwice(rows: seq<Row>, filters: Filters, server: string, wanted: set<string>)
    requires forall i :: 0 <= i < |rows| ==> "load_eff" !in rows[i].stats
    ensures var left := AfterShown(rows, filters, server, wanted);
      Shown(left, filters, server, wanted) == Shown(rows, filters, server, wanted)
      <==> AllSurvive(Kept(rows, filters, server, wanted), wanted)
  {
    hide Keep, Kept, Under, Fold, Group, AfterShown, GroupRows, Derived, Resummed, Survives, TotalIops,
        TotalMegabytes, Unwritten;
    var kept := Kept(rows, filters, server, wanted);
    var before := GroupRows(kept, wanted);
    var again := GroupRows(Kept(AfterShown(rows, filters, server, wanted), filters, server, wanted), wanted);
    SecondGroups(rows, filters, server, wanted);
    var groups, more := StatsOf(before), StatsOf(again);
    forall key ensures Unwritten(Under(kept, wanted, key)) {
      UnwrittenUnder(rows, wanted, key);
      UnderKept(rows, filters, server, wanted, key);
      assert Unwritten([]) by { NothingUnwritten(); }
    }
    if AllSurvive(kept, wanted) {
      forall g | 0 <= g < |before|
        ensures Iops(more[g]) == Iops(groups[g]) && Megabytes(more[g]) == Megabytes(groups[g])
      {
        SurvivorSums(Under(kept, wanted, before[g].tags), groups);
      }
      SameTotals(more, groups);
      forall g | 0 <= g < |before| ensures DerivedRows(again)[g] == DerivedRows(before)[g] {
        SurvivorStays(Under(kept, wanted, before[g].tags), groups, more);
      }
      assert DerivedRows(again) == DerivedRows(before);
    }
    if DerivedRows(again) == DerivedRows(before) {
      forall key | key in Group(kept, wanted) ensures Survives(Under(kept, wanted, key), groups) {
        var g := GroupAt(kept, wanted, key);
        assert DerivedRows(again)[g] == DerivedRows(before)[g];
        SameSurvives(Under(kept, wanted, key), groups, more);
      }
    }
  }

  /** A server's own rows after it has been drawn a number of times. */
  ghost function Left(rows: seq<Row>, filters: Filters, server: string, wanted: set<string>, n: nat): seq<Row> {
    if n == 0 then rows else AfterShown(Left(rows, filters, server, wanted, n - 1), filters, server, wanted)
  }

  /** What is shown the next time. */
  ghost function Drawn(rows: seq<Row>, filters: Filters, server: string, wanted: set<string>, n: nat): seq<Row> {
    Shown(Left(rows, filters, server, wanted, n), filters, server, wanted)
  }

  /** If the second showing is the first, drawing has no further effect. */
  lemma {:induction false} LeftIsFixed(rows: seq<Row>, filters: Filters, server: string, wanted: set<string>)
    requires var left := AfterShown(rows, filters, server, wanted);
      Shown(left, filters, server, wanted) == Shown(rows, filters, server, wanted)
    ensures var left := AfterShown(rows, filters, server, wanted);
      AfterShown(left, filters, server, wanted) == left
  {
    hide Shown, Lookup, Opens, Restrict;
    var left := AfterShown(rows, filters, server, wanted);
    assert RowKeys(left) == RowKeys(rows) by { SameAfter(rows, filters, server, wanted); }
    forall j | 0 <= j < |left| ensures AfterShown(left, filters, server, wanted)[j] == left[j] {
      assert RowKeys(left)[j] == left[j].tags && RowKeys(rows)[j] == rows[j].tags;
    }
  }

  /** Every drawing of a map shows the same, however often a key is pressed, exactly when every group survives one. */
  lemma {:induction false} ShownAnyTimes(rows: seq<Row>, filters: Filters, server: string, wanted: set<string>)
    requires forall i :: 0 <= i < |rows| ==> "load_eff" !in rows[i].stats
    ensures (forall n: nat :: Drawn(rows, filters, server, wanted, n) == Shown(rows, filters, server, wanted))
      <==> AllSurvive(Kept(rows, filters, server, wanted), wanted)
  {
    hide Shown, AfterShown, AllSurvive, Kept;
    ShownTwice(rows, filters, server, wanted);
    if AllSurvive(Kept(rows, filters, server, wanted), wanted) {
      LeftIsFixed(rows, filters, server, wanted);
      forall n: nat
        ensures Drawn(rows, filters, server, wanted, n) == Shown(rows, filters, server, wanted)
      {
        LeftAfterOne(rows, filters, server, wanted, n);
      }
    }
    assert Drawn(rows, filters, server, wanted, 1) == Shown(AfterShown(rows, filters, server, wanted), filters, server,
        wanted) by { LeftOnce(rows, filters, server, wanted); }
  }

  lemma {:induction false} LeftOnce(rows: seq<Row>, filters: Filters, server: string, wanted: set<string>)
    ensures Left(rows, filters, server, wanted, 1) == AfterShown(rows, filters, server, wanted)
  {
    hide AfterShown;
    assert Left(rows, filters, server, wanted, 0) == rows;
  }

  lemma {:induction false} LeftAfterOne(rows: seq<Row>, filters: Filters, server: string, wanted: set<string>, n: nat)
    requires var left := AfterShown(rows, filters, server, wanted);
      AfterShown(left, filters, server, wanted) == left
    ensures Left(rows, filters, server, wanted, n)
         == if n == 0 then rows else AfterShown(rows, filters, server, wanted)
  {
    hide AfterShown;
    if n > 0 {
      LeftAfterOne(rows, filters, server, wanted, n - 1);
    }
  }

  lemma {:induction false} NothingUnwritten()
    ensures Unwritten([])
  {
  }

  lemma {:induction false} SurvivorSums(all: seq<Stats>, groups: seq<Stats>)
    requires Survives(all, groups) && Unwritten(all)
    ensures Iops(Resummed(all, groups)) == Iops(Fold(all)) && Megabytes(Resummed(all, groups)) == Megabytes(Fold(all))
  {
    hide Fold, EventKind, SumOver, Resummed, Unwritten, Events, EffectiveLoad, Iops, Megabytes;
    ResummedIops(all, groups);
    ResummedMegabytes(all, groups);
  }

  lemma {:induction false} GroupAt(rows: seq<Row>, wanted: set<string>, key: Tags) returns (g: nat)
    requires key in Group(rows, wanted)
    ensures g < |GroupRows(rows, wanted)| && GroupRows(rows, wanted)[g].tags == key
  {
    hide Group, GroupKeys;
    KeysOfGroup(rows, wanted);
    g :| 0 <= g < |GroupKeys(rows, wanted)| && GroupKeys(rows, wanted)[g] == key;
  }

  // ---------- showings that differ ----------

  lemma {:induction false} OneGroup(rows: seq<Row>, key: Tags, all: seq<Stats>)
    requires |rows| == |all| > 0
    requires forall i :: 0 <= i < |rows| ==> rows[i].stats == all[i] && Restrict(rows[i].tags, key.Keys) == key
    ensures Kept(rows, NO_FILTERS, "s", key.Keys) == rows
    ensures Under(rows, key.Keys, key) == all && key in Group(rows, key.Keys)
    decreases |rows|
  {
    hide Restrict, Fold;
    var k := |rows| - 1;
    if k > 0 {
      OneGroup(rows[..k], key, all[..k]);
    } else {
      assert rows[..0] == [] && all[..0] == [];
    }
    GroupIsFold(rows, key.Keys, key);
  }

  /** A server under load: the load is scaled down at every drawing. */
  lemma {:induction false} LoadIsScaledAgain()
    ensures var rows := [Row(map["server" := "s"], map["load" := 100.0])];
      var left := AfterShown(rows, NO_FILTERS, "s", {"server"});
      Shown(left, NO_FILTERS, "s", {"server"}) != Shown(rows, NO_FILTERS, "s", {"server"})
  {
    hide Shown, AfterShown, GroupRows, Group, EffectiveLoad, Fold, Kept, Under;
    var key, stats := map["server" := "s"], map["load" := 100.0];
    var rows := [Row(key, stats)];
    assert key.Keys == {"server"};
    OneGroup(rows, key, [stats]);
    ShownTwice(rows, NO_FILTERS, "s", {"server"});
  }

  lemma {:induction false} ReadsAreRequests()
    ensures EventKind("reads") == Requests
  {
    NotIn("reads", "[usec");
    NotIn("reads", "[bytes");
  }

  /** Requests behind the first row do not survive. */
  lemma {:induction false} RequestsDoNotSurvive(one: Stats, two: Stats, groups: seq<Stats>)
    requires "reads" in one && Get(two, "reads") != 0.0
    ensures !Survives([one, two], groups)
  {
    hide EffectiveLoad, EventKind, Fold;
    ReadsAreRequests();
    FoldIs(one, [two]);
    assert [one] + [two] == [one, two] && [one, two][1..] == [two];
    SumOfOne(two, "reads");
  }

  lemma {:induction false} SumOfOne(stats: Stats, e: string)
    ensures SumOver([stats], e) == Get(stats, e)
  {
    assert [stats][..0] == [];
  }

  /** Two jobs on one server, without load or bytes: the requests of the second are added again at every drawing. */
  lemma {:induction false} RequestsAreAddedAgain()
    ensures var rows := [Row(map["server" := "s", "jid" := "1"], map["reads" := 1.0]),
                         Row(map["server" := "s", "jid" := "2"], map["reads" := 2.0])];
      var left := AfterShown(rows, NO_FILTERS, "s", {"server"});
      Shown(left, NO_FILTERS, "s", {"server"}) != Shown(rows, NO_FILTERS, "s", {"server"})
  {
    hide Shown, AfterShown, GroupRows, Group, Survives, Kept, Under;
    var key, one, two := map["server" := "s"], map["reads" := 1.0], map["reads" := 2.0];
    var rows := [Row(map["server" := "s", "jid" := "1"], one), Row(map["server" := "s", "jid" := "2"], two)];
    assert key.Keys == {"server"};
    OneGroup(rows, key, [one, two]);
    RequestsDoNotSurvive(one, two, StatsOf(GroupRows(rows, key.Keys)));
    ShownTwice(rows, NO_FILTERS, "s", {"server"});
  }
}
