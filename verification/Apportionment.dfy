/** From published rates to shown loads: the effective loads a consumer shows add up to the server's load. */
module Apportionment {
  import opened Options
  import opened Grouping
  import opened Rates
  import opened HostMap
  import opened Load
  import opened StatObjects
  import opened DerivedEvents

  /** Rows that all carry one load and no negative value. */
  ghost predicate LoadedRows(rows: seq<Row>, load: real) {
    forall i :: 0 <= i < |rows| ==> NonNegative(rows[i].stats) && HasLoad(rows[i].stats, load)
  }

  ghost predicate NonNegativeRows(rows: seq<Row>) {
    forall i :: 0 <= i < |rows| ==> NonNegative(rows[i].stats)
  }

  lemma {:induction false} AggregateNonNegative(rates: seq<RateRow>, statsType: string)
    requires forall i :: 0 <= i < |rates| ==> NonNegative(rates[i].stats)
    ensures NonNegativeRows(AggregateRows(rates, statsType))
  {
    if rates != [] {
      AggregateNonNegative(rates[..|rates| - 1], statsType);
    }
  }

  lemma {:induction false} GroupRowsNonNegative(rows: seq<Row>, wanted: set<string>)
    requires NonNegativeRows(rows)
    ensures NonNegativeRows(GroupRows(rows, wanted))
  {
    hide NonNegative;
    GroupNonNegative(rows, wanted);
    KeysOfGroup(rows, wanted);
    var groups, keys := GroupRows(rows, wanted), GroupKeys(rows, wanted);
    forall i | 0 <= i < |groups| ensures NonNegative(groups[i].stats) {
      assert keys[i] in keys && groups[i].stats == Group(rows, wanted)[keys[i]];
    }
  }

  lemma {:induction false} GroupRowsLoaded(rows: seq<Row>, wanted: set<string>, load: real)
    requires LoadedRows(rows, load)
    ensures LoadedRows(GroupRows(rows, wanted), load)
  {
    hide NonNegative, HasLoad;
    GroupNonNegative(rows, wanted);
    GroupLoad(rows, wanted, load);
    KeysOfGroup(rows, wanted);
    var groups, keys := GroupRows(rows, wanted), GroupKeys(rows, wanted);
    forall i | 0 <= i < |groups| ensures NonNegative(groups[i].stats) && HasLoad(groups[i].stats, load) {
      assert keys[i] in keys && groups[i].stats == Group(rows, wanted)[keys[i]];
    }
  }

  lemma {:induction false} KeptLoaded(rows: seq<Row>, filters: Filters, server: string, wanted: set<string>, load: real)
    requires LoadedRows(rows, load)
    ensures LoadedRows(Kept(rows, filters, server, wanted), load)
  {
    hide Keep, NonNegative, HasLoad;
    if rows != [] {
      KeptLoaded(rows[..|rows| - 1], filters, server, wanted, load);
    }
  }

  /** The kernel load a tick copies to every group. */
  function KernelLoad(rates: seq<RateRow>, wanted: set<string>): real {
    var cpu := GroupRows(AggregateRows(rates, "cpu"), wanted);
    if cpu == [] then 0.0 else Get(cpu[|cpu| - 1].stats, "system")
  }

  /** If cpu rates are there, every published group carries the kernel's load, and nothing published is negative. */
  lemma {:induction false} PublishedLoaded(news: seq<Tagged>, olds: seq<Counters>, dt: real, obdclass: Option<string>,
                                           wanted: set<string>)
    requires dt > 0.0
    ensures var rates := CalcRates(news, olds, 1.0 / dt);
      && KernelLoad(rates, wanted) >= 0.0
      && (AggregateRows(rates, "cpu") != [] ==>
            LoadedRows(ServerGroups(rates, obdclass, wanted), KernelLoad(rates, wanted)))
  {
    hide CalcRates, AggregateRows, GroupRows;
    var rates := CalcRates(news, olds, 1.0 / dt);
    assert 1.0 / dt > 0.0;
    RatesNonNegative(news, olds, 1.0 / dt);
    AggregateNonNegative(rates, "cpu");
    GroupRowsNonNegative(AggregateRows(rates, "cpu"), wanted);
    if IsCounted(obdclass) {
      AggregateNonNegative(rates, obdclass.value);
      GroupRowsNonNegative(AggregateRows(rates, obdclass.value), wanted);
    }
  }

  /**
   * Load apportioning as shown: whatever the tags and filters a consumer groups by, the effective loads it shows for
   * a server whose published rows carry one load add up to that load, scaled, as soon as there is traffic among them.
   */
  lemma {:induction false} ShownLoadsAddUp(rows: seq<Row>, filters: Filters, server: string, wanted: set<string>,
                                           load: real)
    requires LoadedRows(rows, load) && load >= 0.0
    ensures var groups := StatsOf(GroupRows(Kept(rows, filters, server, wanted), wanted));
      var shown := Shown(rows, filters, server, wanted);
      TotalIops(groups) > 0.0 || TotalMegabytes(groups) > 0.0 ==>
        && RowSum(shown, "load_eff") == load * LOAD_FACTOR
        && forall i :: 0 <= i < |shown| ==> 0.0 <= Get(shown[i].stats, "load_eff") <= load * LOAD_FACTOR
  {
    hide TotalIops, TotalMegabytes, GroupRows, Kept, Derived, NonNegative, HasLoad;
    KeptLoaded(rows, filters, server, wanted, load);
    GroupRowsLoaded(Kept(rows, filters, server, wanted), wanted, load);
    var regrouped := GroupRows(Kept(rows, filters, server, wanted), wanted);
    var groups := StatsOf(regrouped);
    if TotalIops(groups) > 0.0 || TotalMegabytes(groups) > 0.0 {
      LoadIsSharedOut(groups, load);
      SumOfShown(regrouped, groups);
      forall i | 0 <= i < |groups| ensures 0.0 <= EffectiveLoad(groups[i], groups) <= load * LOAD_FACTOR {
        ShareIsBounded(groups, load, i);
      }
      var shown := Shown(rows, filters, server, wanted);
      assert forall i :: 0 <= i < |shown| ==> Get(shown[i].stats, "load_eff") == EffectiveLoad(groups[i], groups);
      assert DerivedWith(regrouped, groups) == DerivedRows(regrouped);
    }
  }

  /** Some rows derived among all groups of the server. */
  ghost function DerivedWith(rows: seq<Row>, groups: seq<Stats>): (r: seq<Row>)
    ensures |r| == |rows|
  {
    seq(|rows|, i requires 0 <= i < |rows| => Row(rows[i].tags, Derived(rows[i].stats, groups)))
  }

  lemma {:induction false} SumOfShown(rows: seq<Row>, groups: seq<Stats>)
    ensures RowSum(DerivedWith(rows, groups), "load_eff") == EffectiveSum(StatsOf(rows), groups)
  {
    hide Derived;
    if rows != [] {
      var k := |rows| - 1;
      SumOfShown(rows[..k], groups);
      assert DerivedWith(rows, groups)[..k] == DerivedWith(rows[..k], groups);
      assert StatsOf(rows)[..k] == StatsOf(rows[..k]);
    }
  }

  /** What a shown group says of the server's load. */
  lemma {:induction false} ShownLoadIs(stats: Stats, groups: seq<Stats>, load: real)
    requires HasLoad(stats, load)
    ensures Get(Derived(stats, groups), "load") == load * LOAD_FACTOR
  {
    hide Iops, Megabytes, Part, Share;
  }

  /**
   * From a tick to the screen, over every run: if cpu rates are there when a server publishes, then whatever tags and
   * filters a consumer groups by, every row it shows carries the kernel's load, and the effective loads it shows add
   * up to that load as soon as there is traffic among them, each between nothing and that load.
   */
  lemma {:induction false} ShownLoadsOfRun(actions: seq<Action>, server: string, filters: Filters, wanted: set<string>)
    requires EmissionOf(Run(actions), server).Some?
    requires AggregateRows(RatesOf(Run(actions), server), "cpu") != []
    ensures var rows := EmissionOf(Run(actions), server).value.groups;
      var groups := StatsOf(GroupRows(Kept(rows, filters, server, wanted), wanted));
      var shown := Shown(rows, filters, server, wanted);
      && (forall i :: 0 <= i < |shown| ==>
            Get(shown[i].stats, "load") == KernelLoad(RatesOf(Run(actions), server), GROUP_TAGS) * LOAD_FACTOR)
      && (TotalIops(groups) > 0.0 || TotalMegabytes(groups) > 0.0 ==>
            forall i :: 0 <= i < |shown| ==>
              && RowSum(shown, "load_eff") == Get(shown[i].stats, "load")
              && 0.0 <= Get(shown[i].stats, "load_eff") <= Get(shown[i].stats, "load"))
  {
    hide TotalIops, TotalMegabytes, GroupRows, Kept, Derived, NonNegative, HasLoad, Run, CalcRates, ServerGroups,
        KernelLoad;
    var s := Run(actions);
    var h := s.hosts[server];
    var dt := h.time.value - h.otime.value;
    PublishedLoaded(TagsFor(s, server), h.odata.value, dt, h.obdclass, GROUP_TAGS);
    var rows, load := EmissionOf(s, server).value.groups, KernelLoad(RatesOf(s, server), GROUP_TAGS);
    ShownLoadsAddUp(rows, filters, server, wanted, load);
    KeptLoaded(rows, filters, server, wanted, load);
    GroupRowsLoaded(Kept(rows, filters, server, wanted), wanted, load);
    var regrouped := GroupRows(Kept(rows, filters, server, wanted), wanted);
    var shown := Shown(rows, filters, server, wanted);
    forall i | 0 <= i < |shown| ensures Get(shown[i].stats, "load") == load * LOAD_FACTOR {
      ShownLoadIs(regrouped[i].stats, StatsOf(regrouped), load);
    }
  }

  /** The rates a tick computes for a server. */
  function RatesOf(s: State, server: string): seq<RateRow>
    requires EmissionOf(s, server).Some?
  {
    var h := s.hosts[server];
    CalcRates(TagsFor(s, server), h.odata.value, 1.0 / (h.time.value - h.otime.value))
  }
}
