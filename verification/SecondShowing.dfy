/** Showing the same map twice: what derived events do to a map they have already been added to. */
module SecondShowing {
  import opened Distinctness
  import opened Grouping
  import opened Load
  import opened StatObjects
  import opened Substrings
  import opened DerivedEvents

  /**
   * Rows with tags of their own, all of them wanted: the published rows, grouped by the tags they were published
   * under.
   */
  ghost predicate Separate(rows: seq<Row>, wanted: set<string>) {
    && Distinct(RowKeys(rows))
    && forall i :: 0 <= i < |rows| ==> rows[i].tags.Keys <= wanted
  }

  /** No load, and no bytes moved. */
  predicate Idle(stats: Stats) {
    Get(stats, "load") == 0.0 && forall e :: e in stats && EventKind(e) == Bytes ==> stats[e] == 0.0
  }

  // ---------- each row is a group ----------

  lemma {:induction false} RestrictAll(tags: Tags, wanted: set<string>)
    requires tags.Keys <= wanted
    ensures Restrict(tags, wanted) == tags
  {
  }

  lemma {:induction false} SeparatePrefix(rows: seq<Row>, wanted: set<string>, k: nat)
    requires Separate(rows, wanted) && k < |rows|
    ensures Separate(rows[..k], wanted) && FindRow(rows[..k], rows[k].tags) == k
  {
    var keys := RowKeys(rows);
    assert forall i :: 0 <= i < k ==> RowKeys(rows[..k])[i] == keys[i] && rows[..k][i] == rows[i];
    assert forall i :: 0 <= i < k ==> keys[i] != keys[k];
  }

  lemma {:induction false} SeparateRowsAreGroups(rows: seq<Row>, wanted: set<string>)
    requires Separate(rows, wanted)
    ensures GroupRows(rows, wanted) == rows
    decreases |rows|
  {
    hide GroupRows, Restrict, FindRow, Separate;
    if rows == [] {
      NoRows(wanted);
    } else {
      var k := |rows| - 1;
      SeparatePrefix(rows, wanted, k);
      SeparateRowsAreGroups(rows[..k], wanted);
      assert rows == rows[..k] + [rows[k]];
      GroupRowsAdd(rows[..k], rows[k], wanted);
      SeparateWanted(rows, wanted, k);
      RestrictAll(rows[k].tags, wanted);
    }
  }

  lemma {:induction false} SeparateWanted(rows: seq<Row>, wanted: set<string>, i: nat)
    requires Separate(rows, wanted) && i < |rows|
    ensures rows[i].tags.Keys <= wanted
  {
  }

  /** Kept rows are separate too, and none is new. */
  lemma {:induction false} KeptSeparate(rows: seq<Row>, filters: Filters, server: string, wanted: set<string>)
    requires Separate(rows, wanted)
    ensures Separate(Kept(rows, filters, server, wanted), wanted)
    ensures forall r :: r in Kept(rows, filters, server, wanted) ==> r in rows
    decreases |rows|
  {
    hide Keep, Restrict;
    if rows != [] {
      var k := |rows| - 1;
      SeparatePrefix(rows, wanted, k);
      KeptSeparate(rows[..k], filters, server, wanted);
      var before := Kept(rows[..k], filters, server, wanted);
      assert forall r :: r in before ==> r in rows[..k];
      forall i | 0 <= i < |before| ensures before[i].tags != rows[k].tags {
        assert before[i] in rows[..k];
      }
      AddSeparate(before, rows[k], wanted);
      assert before + [] == before;
    }
  }

  lemma {:induction false} AddSeparate(rows: seq<Row>, row: Row, wanted: set<string>)
    requires Separate(rows, wanted) && row.tags.Keys <= wanted
    requires forall i :: 0 <= i < |rows| ==> rows[i].tags != row.tags
    ensures Separate(rows + [row], wanted)
  {
    var more := rows + [row];
    forall i, j | 0 <= i < j < |more| ensures RowKeys(more)[i] != RowKeys(more)[j] {
      if j < |rows| {
        assert RowKeys(rows)[i] != RowKeys(rows)[j];
      }
    }
  }

  /** Rows with the same tags, the kept ones changed to what is shown under their tags. */
  ghost predicate Changed(rows: seq<Row>, changed: seq<Row>, shown: seq<Row>, filters: Filters, server: string,
                          wanted: set<string>) {
    && |changed| == |rows|
    && forall j :: 0 <= j < |rows| ==>
         changed[j] == if Keep(filters, server, Restrict(rows[j].tags, wanted))
             then Row(rows[j].tags, Lookup(shown, rows[j].tags)) else rows[j]
  }

  lemma {:induction false} KeptOfChanged(rows: seq<Row>, changed: seq<Row>, shown: seq<Row>, filters: Filters,
                                         server: string, wanted: set<string>)
    requires Changed(rows, changed, shown, filters, server, wanted)
    ensures var kept, after := Kept(rows, filters, server, wanted), Kept(changed, filters, server, wanted);
      |after| == |kept| && forall g :: 0 <= g < |kept| ==> after[g] == Row(kept[g].tags, Lookup(shown, kept[g].tags))
    decreases |rows|
  {
    hide Keep, Restrict, Lookup;
    if rows != [] {
      var k := |rows| - 1;
      assert forall j :: 0 <= j < k ==> rows[..k][j] == rows[j] && changed[..k][j] == changed[j];
      KeptOfChanged(rows[..k], changed[..k], shown, filters, server, wanted);
    }
  }

  lemma {:induction false} AfterShownIsChanged(rows: seq<Row>, filters: Filters, server: string, wanted: set<string>)
    requires Separate(rows, wanted)
    ensures Changed(rows, AfterShown(rows, filters, server, wanted), Shown(rows, filters, server, wanted), filters,
        server, wanted)
  {
    hide Keep, Shown, Lookup, Restrict;
    forall j | 0 <= j < |rows|
      ensures Opens(RowKeys(rows), j, filters, server, wanted) <==>
          Keep(filters, server, Restrict(rows[j].tags, wanted))
      ensures Restrict(rows[j].tags, wanted) == rows[j].tags
    {
      RestrictAll(rows[j].tags, wanted);
      forall i | 0 <= i < j ensures Restrict(RowKeys(rows)[i], wanted) != Restrict(RowKeys(rows)[j], wanted) {
        RestrictAll(rows[i].tags, wanted);
      }
    }
  }

  lemma {:induction false} LookupAt(rows: seq<Row>, wanted: set<string>, g: nat)
    requires Separate(rows, wanted) && g < |rows|
    ensures Lookup(rows, rows[g].tags) == rows[g].stats
  {
    var f := FindRow(rows, rows[g].tags);
    assert forall j :: 0 <= j < g ==> RowKeys(rows)[j] != RowKeys(rows)[g];
    assert forall j :: 0 <= j <= g ==> RowKeys(rows)[j] == rows[j].tags;
  }

  lemma {:induction false} DerivedSeparate(rows: seq<Row>, wanted: set<string>)
    requires Separate(rows, wanted)
    ensures Separate(DerivedRows(rows), wanted)
  {
    hide Derived;
    assert RowKeys(DerivedRows(rows)) == RowKeys(rows);
  }

  /** Shown again under the same tags, the rows are derived from what was shown. */
  lemma {:induction false} ShownAgain(rows: seq<Row>, filters: Filters, server: string, wanted: set<string>)
    requires Separate(rows, wanted)
    ensures var kept := Kept(rows, filters, server, wanted);
      && Separate(kept, wanted) && Shown(rows, filters, server, wanted) == DerivedRows(kept)
      && Shown(AfterShown(rows, filters, server, wanted), filters, server, wanted) == DerivedRows(DerivedRows(kept))
  {
    hide Keep, DerivedRows, GroupRows, Lookup, AfterShown, Kept, Separate, Changed;
    var kept := Kept(rows, filters, server, wanted);
    KeptSeparate(rows, filters, server, wanted);
    SeparateRowsAreGroups(kept, wanted);
    var shown := DerivedRows(kept);
    DerivedSeparate(kept, wanted);
    AfterShownIsChanged(rows, filters, server, wanted);
    var after := AfterShown(rows, filters, server, wanted);
    KeptOfChanged(rows, after, shown, filters, server, wanted);
    DerivedTags(kept);
    forall g | 0 <= g < |kept| ensures Kept(after, filters, server, wanted)[g] == shown[g] {
      LookupAt(shown, wanted, g);
    }
    assert Kept(after, filters, server, wanted) == shown;
    SeparateRowsAreGroups(shown, wanted);
  }

  lemma {:induction false} DerivedTags(rows: seq<Row>)
    ensures forall g :: 0 <= g < |rows| ==> DerivedRows(rows)[g].tags == rows[g].tags
  {
    hide Derived;
  }

  // ---------- deriving twice ----------

  lemma {:induction false} NotIn(s: string, sub: string)
    requires sub != "" && sub[0] !in s
    ensures !Contains(s, sub)
  {
    forall i | 0 <= i <= |s| ensures !At(s, i, sub) {
      if i + |sub| <= |s| {
        assert s[i..i + |sub|][0] == s[i];
      }
    }
  }

  lemma {:induction false} Kinds()
    ensures EventKind("load") == LoadValue && EventKind("load_eff") == Requests
    ensures EventKind("iops") == Ignored && EventKind("bytes") == Ignored
  {
    NotIn("load", "[usec");
    NotIn("load", "[bytes");
    NotIn("load_eff", "[usec");
    NotIn("load_eff", "[bytes");
  }

  /** What becomes of single events. */
  lemma {:induction false} DerivedEvent(stats: Stats, groups: seq<Stats>, e: string)
    ensures Get(Derived(stats, groups), "load") == Get(stats, "load") * LOAD_FACTOR
    ensures e in stats && EventKind(e) == Bytes ==>
              e in Derived(stats, groups) && Derived(stats, groups)[e] == stats[e] * BYTES_FACTOR
  {
    hide EventKind, Iops, Megabytes, TotalIops, TotalMegabytes, Part, Share;
    Kinds();
  }

  /** If deriving twice gives the same, there was no load and nothing was moved. */
  lemma {:induction false} SameMeansIdle(stats: Stats, groups: seq<Stats>, again: seq<Stats>)
    requires Derived(Derived(stats, groups), again) == Derived(stats, groups)
    ensures Idle(stats)
  {
    hide EventKind, Derived;
    var once := Derived(stats, groups);
    DerivedEvent(stats, groups, "");
    DerivedEvent(once, again, "");
    forall e | e in stats && EventKind(e) == Bytes ensures stats[e] == 0.0 {
      DerivedEvent(stats, groups, e);
      DerivedEvent(once, again, e);
    }
  }

  /** The sums of an idle group are what they were. */
  lemma {:induction false} IdleSums(stats: Stats, groups: seq<Stats>)
    requires Idle(stats) && "load_eff" !in stats
    ensures Iops(Derived(stats, groups)) == Iops(stats)
    ensures Megabytes(Derived(stats, groups)) == Megabytes(stats) == 0.0
  {
    hide EventKind, TotalIops, TotalMegabytes, Share;
    Kinds();
    var once := Derived(stats, groups);
    assert once.Keys <= stats.Keys + {"load", "iops", "bytes", "load_eff"};
    SumAgrees(once.Keys, once, stats.Keys, stats, Requests);
    SumAgrees(once.Keys, once, {}, stats, Bytes);
    SumAgrees(stats.Keys, stats, {}, stats, Bytes);
  }

  lemma {:induction false} IdleStays(stats: Stats, groups: seq<Stats>, again: seq<Stats>)
    requires Idle(stats) && "load_eff" !in stats
    requires TotalIops(again) == TotalIops(groups) && TotalMegabytes(again) == TotalMegabytes(groups)
    ensures Derived(Derived(stats, groups), again) == Derived(stats, groups)
  {
    hide EventKind, TotalIops, TotalMegabytes, Iops, Megabytes, Share;
    IdleSums(stats, groups);
    Kinds();
    var once := Derived(stats, groups);
    assert Summarised(once) == once;
  }

  lemma {:induction false} IdleTotals(some: seq<Stats>, groups: seq<Stats>)
    requires forall i :: 0 <= i < |some| ==> Idle(some[i]) && "load_eff" !in some[i]
    ensures TotalIops(DerivedAll(some, groups)) == TotalIops(some)
    ensures TotalMegabytes(DerivedAll(some, groups)) == TotalMegabytes(some)
    decreases |some|
  {
    hide Idle, Derived, Iops, Megabytes;
    if some != [] {
      var k := |some| - 1;
      IdleTotals(some[..k], groups);
      assert DerivedAll(some, groups)[..k] == DerivedAll(some[..k], groups);
      IdleSums(some[k], groups);
    }
  }

  ghost function DerivedAll(some: seq<Stats>, groups: seq<Stats>): (r: seq<Stats>)
    ensures |r| == |some|
  {
    seq(|some|, i requires 0 <= i < |some| => Derived(some[i], groups))
  }

  lemma {:induction false} DerivingTwice(rows: seq<Row>)
    requires forall i :: 0 <= i < |rows| ==> "load_eff" !in rows[i].stats
    ensures DerivedRows(DerivedRows(rows)) == DerivedRows(rows)
      <==> forall i :: 0 <= i < |rows| ==> Idle(rows[i].stats)
  {
    hide Idle, Derived, TotalIops, TotalMegabytes;
    var groups, once := StatsOf(rows), DerivedRows(rows);
    var again, twice := StatsOf(once), DerivedRows(once);
    assert again == DerivedAll(groups, groups);
    if forall i :: 0 <= i < |rows| ==> Idle(rows[i].stats) {
      IdleTotals(groups, groups);
      forall i | 0 <= i < |rows| ensures twice[i] == once[i] {
        IdleStays(rows[i].stats, groups, again);
      }
    }
    if twice == once {
      forall i | 0 <= i < |rows| ensures Idle(rows[i].stats) {
        assert twice[i].stats == Derived(once[i].stats, again) && once[i].stats == Derived(rows[i].stats, groups);
        SameMeansIdle(rows[i].stats, groups, again);
      }
    }
  }

  /**
   * Drawing the screen twice from one map, by the tags its rows were published under, shows the same exactly when no
   * row that is shown has a load or moved bytes: otherwise loads and bytes are scaled down once more.
   */
  lemma {:induction false} SecondShowingIsFirst(rows: seq<Row>, filters: Filters, server: string, wanted: set<string>)
    requires Separate(rows, wanted) && forall i :: 0 <= i < |rows| ==> "load_eff" !in rows[i].stats
    ensures var kept := Kept(rows, filters, server, wanted);
      Shown(AfterShown(rows, filters, server, wanted), filters, server, wanted) == Shown(rows, filters, server, wanted)
      <==> forall i :: 0 <= i < |kept| ==> Idle(kept[i].stats)
  {
    hide Shown, AfterShown, Idle, DerivedRows, Separate, Kept;
    ShownAgain(rows, filters, server, wanted);
    KeptSeparate(rows, filters, server, wanted);
    var kept := Kept(rows, filters, server, wanted);
    forall i | 0 <= i < |kept| ensures "load_eff" !in kept[i].stats {
      assert kept[i] in kept && kept[i] in rows;
    }
    DerivingTwice(kept);
  }
}
