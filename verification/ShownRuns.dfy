/** What is shown, over whole runs of the server: its sums over the raw rows, and a second showing of one map. */
module ShownRuns {
  import opened Options
  import opened Grouping
  import opened GroupMembers
  import opened Load
  import opened Rates
  import opened HostMap
  import opened StatObjects
  import opened DerivedEvents
  import opened SecondShowing
  import opened RepeatedShowing

  // ---------- roll-up as shown ----------

  lemma {:induction false} SumSame(events: set<string>, a: Stats, b: Stats, kind: Kind)
    requires events <= a.Keys && events <= b.Keys
    requires forall e :: e in events && EventKind(e) == kind ==> a[e] == b[e]
    ensures SumOf(events, a, kind) == SumOf(events, b, kind)
  {
    hide EventKind, SumOf;
    SumAgrees(events, a, events, b, kind);
  }

  /** Requests and bytes of a regrouped group are those of the group the raw rows make. */
  lemma {:induction false} RolledUpSums(raw: seq<Row>, fine: set<string>, coarse: set<string>, key: Tags)
    requires key in Group(raw, coarse * fine)
    ensures key in Group(GroupRows(raw, fine), coarse)
    ensures var twice, once := Group(GroupRows(raw, fine), coarse)[key], Group(raw, coarse * fine)[key];
      Iops(twice) == Iops(once) && Megabytes(twice) == Megabytes(once)
  {
    hide EventKind, Group, SumOf, GroupRows;
    RollUpKeys(raw, fine, coarse, key);
    var twice, once := Group(GroupRows(raw, fine), coarse)[key], Group(raw, coarse * fine)[key];
    NotLoad();
    forall e | e != "load" ensures Get(twice, e) == Get(once, e) {
      RollUp(raw, fine, coarse, key, e);
    }
    var both := twice.Keys + once.Keys;
    SumPadded(both, twice, Requests);
    SumPadded(both, once, Requests);
    SumPadded(both, twice, Bytes);
    SumPadded(both, once, Bytes);
    SumSame(both, Padded(both, twice), Padded(both, once), Requests);
    SumSame(both, Padded(both, twice), Padded(both, once), Bytes);
  }

  /** The events of a set, 0 where there are none. */
  ghost function Padded(events: set<string>, stats: Stats): Stats {
    map e | e in events :: Get(stats, e)
  }

  lemma {:induction false} SumPadded(events: set<string>, stats: Stats, kind: Kind)
    requires stats.Keys <= events
    ensures SumOf(events, Padded(events, stats), kind) == SumOf(stats.Keys, stats, kind)
  {
    hide EventKind, SumOf;
    SumAgrees(events, Padded(events, stats), stats.Keys, stats, kind);
  }

  /**
   * Roll-up as shown: whatever coarser tags and filters a consumer uses on a map grouped by `fine`, there is a row for
   * exactly the tags that raw rows have and the filters let through, and the requests and bytes shown for it are the
   * sums over the raw rows with those tags.
   */
  lemma {:induction false} ShownRollUp(raw: seq<Row>, fine: set<string>, filters: Filters, server: string,
                                       coarse: set<string>, key: Tags)
    ensures var shown := Shown(GroupRows(raw, fine), filters, server, coarse);
      var all, f := Under(raw, coarse * fine, key), FindRow(shown, key);
      && (f < |shown| <==> all != [] && Keep(filters, server, key))
      && (f < |shown| ==>
            && Get(shown[f].stats, "iops") == TotalIops(all) && Get(shown[f].stats, "bytes") == TotalMegabytes(all))
  {
    hide Group, Under, Fold, Keep, Kept, GroupKeys, Derived, Iops, Megabytes, TotalIops, TotalMegabytes;
    var rows := GroupRows(raw, fine);
    var kept := Kept(rows, filters, server, coarse);
    var shown := Shown(rows, filters, server, coarse);
    var f := FindRow(shown, key);
    ShownKeys(kept, coarse, key);
    KeptGroups(rows, filters, server, coarse);
    RollUpKeys(raw, fine, coarse, key);
    GroupIsFold(raw, coarse * fine, key);
    if f < |shown| {
      GroupRowsAre(kept, coarse, f);
      RolledUpSums(raw, fine, coarse, key);
      FoldAdds(Under(raw, coarse * fine, key));
      GroupIsFold(kept, coarse, key);
      DerivedSums(GroupRows(kept, coarse)[f].stats, StatsOf(GroupRows(kept, coarse)));
    }
  }

  lemma {:induction false} ShownKeys(kept: seq<Row>, coarse: set<string>, key: Tags)
    ensures var shown := DerivedRows(GroupRows(kept, coarse)); var f := FindRow(shown, key);
      && (f < |shown| <==> key in Group(kept, coarse))
      && (f < |shown| ==> GroupRows(kept, coarse)[f].tags == key)
  {
    hide Group, GroupKeys, Derived;
    if key in Group(kept, coarse) {
      var g := GroupAt(kept, coarse, key);
      assert DerivedRows(GroupRows(kept, coarse))[g].tags == key;
    }
    var shown := DerivedRows(GroupRows(kept, coarse));
    var f := FindRow(shown, key);
    if f < |shown| {
      GroupRowsAre(kept, coarse, f);
    }
  }

  // ---------- filters ----------

  /** What the filters ask of a group: its user, its job, its server. */
  ghost predicate Allowed(filters: Filters, server: string, tags: Tags) {
    && (filters.user.Some? && "uid" in tags ==> tags["uid"] == filters.user.value)
    && (filters.job.Some? && "jid" in tags ==> tags["jid"] == filters.job.value)
    && (filters.server.Some? ==> server == filters.server.value)
  }

  /** A row is shown with these tags. */
  ghost predicate IsShown(shown: seq<Row>, tags: Tags) {
    exists i :: 0 <= i < |shown| && shown[i].tags == tags
  }

  /**
   * What the filters do: a shown row with a user has the user of the user filter, one with a job the job of the job
   * filter, and under a server filter no other server shows anything; and exactly the groups of the rows for which
   * this holds are shown.
   */
  lemma {:induction false} ShownFiltered(rows: seq<Row>, filters: Filters, server: string, wanted: set<string>)
    ensures var shown := Shown(rows, filters, server, wanted);
      && (forall i :: 0 <= i < |shown| ==>
            && (filters.user.Some? && "uid" in shown[i].tags ==> shown[i].tags["uid"] == filters.user.value)
            && (filters.job.Some? && "jid" in shown[i].tags ==> shown[i].tags["jid"] == filters.job.value)
            && (filters.server.Some? ==> server == filters.server.value))
      && (filters.server.Some? && server != filters.server.value ==> shown == [])
      && (forall tags :: IsShown(shown, tags) <==>
            Allowed(filters, server, tags) && exists j :: 0 <= j < |rows| && Restrict(rows[j].tags, wanted) == tags)
  {
    hide Group, Kept, DerivedRows, GroupRows, Restrict;
    var shown := Shown(rows, filters, server, wanted);
    forall tags
      ensures IsShown(shown, tags) <==>
          Allowed(filters, server, tags) && exists j :: 0 <= j < |rows| && Restrict(rows[j].tags, wanted) == tags
    {
      ShownIs(rows, filters, server, wanted, tags);
    }
    forall i | 0 <= i < |shown|
      ensures filters.user.Some? && "uid" in shown[i].tags ==> shown[i].tags["uid"] == filters.user.value
      ensures filters.job.Some? && "jid" in shown[i].tags ==> shown[i].tags["jid"] == filters.job.value
      ensures filters.server.Some? ==> server == filters.server.value
    {
      assert IsShown(shown, shown[i].tags) && Allowed(filters, server, shown[i].tags);
    }
    assert shown != [] ==> IsShown(shown, shown[0].tags);
  }

  lemma {:induction false} ShownIs(rows: seq<Row>, filters: Filters, server: string, wanted: set<string>, tags: Tags)
    ensures IsShown(Shown(rows, filters, server, wanted), tags) <==>
        Allowed(filters, server, tags) && exists j :: 0 <= j < |rows| && Restrict(rows[j].tags, wanted) == tags
  {
    hide Group, Kept, Restrict, DerivedRows, GroupRows;
    var kept := Kept(rows, filters, server, wanted);
    ShownKeys(kept, wanted, tags);
    KeptGroups(rows, filters, server, wanted);
    GroupOccurs(rows, wanted, tags);
    var shown := Shown(rows, filters, server, wanted);
    var f := FindRow(shown, tags);
    assert IsShown(shown, tags) <==> f < |shown|;
    assert Keep(filters, server, tags) <==> Allowed(filters, server, tags);
  }

  // ---------- what a server publishes ----------

  lemma {:induction false} GroupsSeparate(rows: seq<Row>, wanted: set<string>)
    ensures Separate(GroupRows(rows, wanted), wanted)
  {
    hide Group, GroupKeys;
    KeysOfGroup(rows, wanted);
    var groups := GroupRows(rows, wanted);
    assert RowKeys(groups) == GroupKeys(rows, wanted);
    forall i | 0 <= i < |groups| ensures groups[i].tags.Keys <= wanted {
      GroupRowsAre(rows, wanted, i);
      GroupOccurs(rows, wanted, groups[i].tags);
    }
  }

  /** Published rows have tags of their own, among those they are grouped by. */
  lemma {:induction false} PublishedSeparate(rates: seq<RateRow>, obdclass: Option<string>, wanted: set<string>)
    ensures Separate(ServerGroups(rates, obdclass, wanted), wanted)
  {
    hide GroupRows, AggregateRows;
    var groups, rows := ClassGroups(rates, obdclass, wanted), ServerGroups(rates, obdclass, wanted);
    if IsCounted(obdclass) {
      GroupsSeparate(AggregateRows(rates, obdclass.value), wanted);
    }
    assert RowKeys(rows) == RowKeys(groups);
    forall i | 0 <= i < |rows| ensures rows[i].tags.Keys <= wanted {
      assert rows[i].tags == groups[i].tags;
    }
  }

  /** No row records this event. */
  ghost predicate Without(rows: seq<Row>, e: string) {
    forall i :: 0 <= i < |rows| ==> e !in rows[i].stats
  }

  /** No counter has this name. */
  predicate NotCounted(data: seq<Counters>, e: string) {
    forall i :: 0 <= i < |data| && data[i].stats.Some? ==> e !in data[i].stats.value
  }

  lemma {:induction false} RatesWithout(news: seq<Tagged>, olds: seq<Counters>, idt: real, e: string)
    requires forall i :: 0 <= i < |news| && news[i].core.stats.Some? ==> e !in news[i].core.stats.value
    ensures forall r :: r in CalcRates(news, olds, idt) ==> e !in r.stats
    decreases |news|
  {
    hide Indexed, CopiedTags;
    if news != [] {
      var k := |news| - 1;
      assert forall i :: 0 <= i < k ==> news[..k][i] == news[i];
      RatesWithout(news[..k], olds, idt, e);
    }
  }

  lemma {:induction false} AggregateWithout(rates: seq<RateRow>, statsType: string, e: string)
    requires e != "nclients" && forall r :: r in rates ==> e !in r.stats
    ensures Without(AggregateRows(rates, statsType), e)
    decreases |rates|
  {
    hide NewClient, Clients;
    if rates != [] {
      var k := |rates| - 1;
      assert forall r :: r in rates[..k] ==> r in rates;
      AggregateWithout(rates[..k], statsType, e);
    }
  }

  lemma {:induction false} GroupsWithout(rows: seq<Row>, wanted: set<string>, e: string)
    requires Without(rows, e)
    ensures Without(GroupRows(rows, wanted), e)
  {
    hide Group, GroupKeys, Restrict;
    var groups := GroupRows(rows, wanted);
    forall i | 0 <= i < |groups| ensures e !in groups[i].stats {
      GroupRowsAre(rows, wanted, i);
      GroupKeyStats(rows, wanted, i);
      GroupEvents(rows, wanted, groups[i].tags, e);
    }
  }

  lemma {:induction false} GroupKeyStats(rows: seq<Row>, wanted: set<string>, i: nat)
    requires i < |GroupRows(rows, wanted)| && GroupRows(rows, wanted)[i].tags in Group(rows, wanted)
    ensures GroupRows(rows, wanted)[i].stats == Group(rows, wanted)[GroupRows(rows, wanted)[i].tags]
  {
    hide Group, GroupKeys;
    KeysOfGroup(rows, wanted);
  }

  /** What no counter is called, no published row records, but the two events the server adds. */
  lemma {:induction false} PublishedWithout(news: seq<Tagged>, olds: seq<Counters>, idt: real, obdclass: Option<string>,
                                            wanted: set<string>, e: string)
    requires e != "nclients" && e != "load"
    requires forall i :: 0 <= i < |news| && news[i].core.stats.Some? ==> e !in news[i].core.stats.value
    ensures Without(ServerGroups(CalcRates(news, olds, idt), obdclass, wanted), e)
  {
    hide CalcRates, AggregateRows, GroupRows;
    var rates := CalcRates(news, olds, idt);
    RatesWithout(news, olds, idt, e);
    if IsCounted(obdclass) {
      AggregateWithout(rates, obdclass.value, e);
      GroupsWithout(AggregateRows(rates, obdclass.value), wanted, e);
    }
  }

  /**
   * Over every run: what a server publishes has tags of its own among the five it groups by, and records no effective
   * load as long as no counter is called that.
   */
  lemma {:induction false} EmissionIsSeparate(actions: seq<Action>, server: string)
    requires EmissionOf(Run(actions), server).Some?
    ensures Separate(EmissionOf(Run(actions), server).value.groups, GROUP_TAGS)
    ensures Run(actions).hosts[server].data.Some?
    ensures NotCounted(Run(actions).hosts[server].data.value, "load_eff") ==>
        Without(EmissionOf(Run(actions), server).value.groups, "load_eff")
  {
    hide Run, CalcRates, ServerGroups, Separate, TagsOf;
    var s := Run(actions);
    var h := s.hosts[server];
    var news, idt := TagsFor(s, server), 1.0 / (h.time.value - h.otime.value);
    PublishedSeparate(CalcRates(news, h.odata.value, idt), h.obdclass, GROUP_TAGS);
    if NotCounted(h.data.value, "load_eff") {
      PublishedWithout(news, h.odata.value, idt, h.obdclass, GROUP_TAGS, "load_eff");
    }
  }

  lemma {:induction false} SeparateIn(rows: seq<Row>, wanted: set<string>, more: set<string>)
    requires Separate(rows, wanted) && wanted <= more
    ensures Separate(rows, more)
  {
  }

  /**
   * Drawing twice what a server published, over every run: under any tags the showings are the same exactly when every
   * group that is shown survives; under the published tags or more, exactly when no row that is shown has a load or
   * moved bytes.
   */
  lemma {:induction false} DrawnTwice(actions: seq<Action>, server: string, filters: Filters, wanted: set<string>)
    requires EmissionOf(Run(actions), server).Some?
    requires NotCounted(Run(actions).hosts[server].data.value, "load_eff")
    ensures var rows := EmissionOf(Run(actions), server).value.groups;
      var left, kept := AfterShown(rows, filters, server, wanted), Kept(rows, filters, server, wanted);
      var same := Shown(left, filters, server, wanted) == Shown(rows, filters, server, wanted);
      && (same <==> AllSurvive(kept, wanted))
      && (GROUP_TAGS <= wanted ==> (same <==> forall i :: 0 <= i < |kept| ==> Idle(kept[i].stats)))
  {
    hide Run, EmissionOf, Shown, AfterShown, Kept, AllSurvive, Idle, Separate, NotCounted;
    EmissionIsSeparate(actions, server);
    var rows := EmissionOf(Run(actions), server).value.groups;
    ShownTwice(rows, filters, server, wanted);
    if GROUP_TAGS <= wanted {
      SeparateIn(rows, GROUP_TAGS, wanted);
      SecondShowingIsFirst(rows, filters, server, wanted);
    }
  }
}
