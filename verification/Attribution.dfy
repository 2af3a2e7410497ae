/** Attribution: each published group is charged exactly the traffic of its job, user, system and file system. */
module Attribution {
  import opened Options
  import opened Grouping
  import opened Rates
  import opened HostMap
  import opened History
  import opened Conservation

  /** What is published of an event under a tag set. */
  function PublishedValue(rows: seq<Row>, key: Tags, event: string): real {
    var i := FindRow(rows, key);
    if i < |rows| then Get(rows[i].stats, event) else 0.0
  }

  /** The gains of the entries whose wanted tags are `key`. */
  function GainsUnder(olds: seq<Counters>, news: seq<Tagged>, statsType: string, event: string, wanted: set<string>,
                      key: Tags): real {
    if news == [] then 0.0
    else
      var k := |news| - 1;
      GainsUnder(olds, news[..k], statsType, event, wanted, key) +
      if Restrict(news[k].tags, wanted) == key then Gain(olds, news[k].core, statsType, event) else 0.0
  }

  // ---------- one tick ----------

  lemma {:induction false} AggregateTotal(rows: seq<RateRow>, r: RateRow, statsType: string, wanted: set<string>,
                                          key: Tags, event: string)
    requires Additive(event)
    ensures Total(AggregateRows(rows + [r], statsType), wanted, key, event)
         == Total(AggregateRows(rows, statsType), wanted, key, event)
            + if r.statsType == statsType && Restrict(r.tags, wanted) == key then Get(r.stats, event) else 0.0
  {
    hide Restrict;
    assert (rows + [r])[..|rows|] == rows;
    if r.statsType == statsType {
      var n := NewClient(r, Clients(rows, statsType));
      TotalAppend(AggregateRows(rows, statsType), Row(r.tags, r.stats["nclients" := n]), wanted, key, event);
    }
  }

  /** A rate keeps the tags of its entry that groups are made by. */
  lemma {:induction false} RateKeepsTags(e: Tagged, olds: seq<Counters>, idt: real, wanted: set<string>)
    requires wanted <= GROUP_TAGS && RateOf(e, olds, idt).Some? && e.core.statsType != Some("cpu")
    ensures Restrict(RateOf(e, olds, idt).value.tags, wanted) == Restrict(e.tags, wanted)
  {
    assert e.core.statsType.Some?;
    hide Indexed, RateStats;
    var tags := CopiedTags(e, e.core.statsType.value);
    forall t | t in wanted ensures (t in tags <==> t in e.tags) && (t in tags ==> tags[t] == e.tags[t]) {
      assert t in GROUP_TAGS;
    }
  }

  /** What one more rate adds to a total, times the interval, is its entry's gain if it has the tags. */
  lemma {:induction false} RowTotalIsGain(rows: seq<RateRow>, e: Tagged, olds: seq<Counters>, dt: real,
                                          statsType: string, event: string, wanted: set<string>, key: Tags)
    requires dt > 0.0 && Additive(event) && statsType != "cpu" && wanted <= GROUP_TAGS
    requires RateOf(e, olds, 1.0 / dt).Some?
    ensures var r := RateOf(e, olds, 1.0 / dt).value;
      dt * Total(AggregateRows(rows + [r], statsType), wanted, key, event)
      == dt * Total(AggregateRows(rows, statsType), wanted, key, event)
         + if Restrict(e.tags, wanted) == key then Gain(olds, e.core, statsType, event) else 0.0
  {
    hide AggregateRows, Total, Gain, Restrict, CopiedTags, Indexed;
    var r := RateOf(e, olds, 1.0 / dt).value;
    AggregateTotal(rows, r, statsType, wanted, key, event);
    RowIsGain(e, olds, dt, statsType, event);
    if r.statsType == statsType {
      RateKeepsTags(e, olds, 1.0 / dt, wanted);
    }
    Distribute(dt, Total(AggregateRows(rows, statsType), wanted, key, event),
               if r.statsType == statsType && Restrict(r.tags, wanted) == key then Get(r.stats, event) else 0.0);
    assert dt * 0.0 == 0.0;
  }

  lemma {:induction false} TotalIsGains(news: seq<Tagged>, olds: seq<Counters>, dt: real, statsType: string,
                                        event: string, wanted: set<string>, key: Tags)
    requires dt > 0.0 && Additive(event) && statsType != "cpu" && wanted <= GROUP_TAGS
    ensures dt * Total(AggregateRows(CalcRates(news, olds, 1.0 / dt), statsType), wanted, key, event)
         == GainsUnder(olds, news, statsType, event, wanted, key)
  {
    hide AggregateRows, Total, Gain, Restrict, RateOf, Get, Additive;
    if news == [] {
      NothingUnder(statsType, wanted, key, event);
      assert dt * 0.0 == 0.0;
    } else {
      var k := |news| - 1;
      var before, row := CalcRates(news[..k], olds, 1.0 / dt), RateOf(news[k], olds, 1.0 / dt);
      TotalIsGains(news[..k], olds, dt, statsType, event, wanted, key);
      if row.Some? {
        RowTotalIsGain(before, news[k], olds, dt, statsType, event, wanted, key);
      } else {
        NoRowNoGain(news[k], olds, dt, statsType, event);
        assert before + [] == before;
      }
    }
  }

  lemma {:induction false} NothingUnder(statsType: string, wanted: set<string>, key: Tags, event: string)
    ensures Total(AggregateRows([], statsType), wanted, key, event) == 0.0
  {
  }

  /** A group is found under its tags, with the sum over its rows. */
  lemma {:induction false} PublishedIsTotal(raw: seq<Row>, wanted: set<string>, key: Tags, event: string)
    requires event != "load"
    ensures PublishedValue(GroupRows(raw, wanted), key, event) == Total(raw, wanted, key, event)
  {
    hide Group, Total;
    KeysOfGroup(raw, wanted);
    GroupSums(raw, wanted, key, event);
    var rows, keys := GroupRows(raw, wanted), GroupKeys(raw, wanted);
    if key in keys {
      var j :| 0 <= j < |keys| && keys[j] == key;
      assert rows[j].tags == key;
    }
  }

  lemma {:induction false} LoadKeepsOthers(rows: seq<Row>, cpu: seq<Row>, key: Tags, event: string)
    requires event != "load"
    ensures PublishedValue(WithLoad(rows, cpu), key, event) == PublishedValue(rows, key, event)
  {
    var loaded := WithLoad(rows, cpu);
    assert forall j :: 0 <= j < |rows| ==> loaded[j].tags == rows[j].tags;
    var i, j := FindRow(rows, key), FindRow(loaded, key);
    assert i == j;
  }

  /** Attribution in one tick: each group is charged the gains of the exports with its tags, and no others. */
  lemma {:induction false} TickCharges(h: Host, tagged: seq<Tagged>, wanted: set<string>, key: Tags, event: string)
    requires Additive(event) && wanted <= GROUP_TAGS && HostTick(h, tagged, wanted).1.Some?
    ensures var e := HostTick(h, tagged, wanted).1.value;
      e.dt * PublishedValue(e.groups, key, event)
      == if IsCounted(h.obdclass) then GainsUnder(h.odata.value, tagged, h.obdclass.value, event, wanted, key) else 0.0
  {
    hide GroupRows, AggregateRows, CalcRates, Total, GainsUnder, PublishedValue, WithLoad;
    var dt := h.time.value - h.otime.value;
    var rates := CalcRates(tagged, h.odata.value, 1.0 / dt);
    var cpu := GroupRows(AggregateRows(rates, "cpu"), wanted);
    LoadKeepsOthers(ClassGroups(rates, h.obdclass, wanted), cpu, key, event);
    if IsCounted(h.obdclass) {
      var raw := AggregateRows(rates, h.obdclass.value);
      PublishedIsTotal(raw, wanted, key, event);
      TotalIsGains(tagged, h.odata.value, dt, h.obdclass.value, event, wanted, key);
    } else {
      NothingPublished(key, event);
      assert dt * 0.0 == 0.0;
    }
  }

  lemma {:induction false} NothingPublished(key: Tags, event: string)
    ensures PublishedValue([], key, event) == 0.0
  {
  }

  // ---------- over a run ----------

  /** The tags an export is grouped by, from the history of reports alone. */
  function HistoricTags(actions: seq<Action>, server: string, c: Counters): Tags {
    if c.nid.None? then map["server" := server]
    else
      map["server" := server,
          "system" := ClaimedValue(actions, c.nid.value, System, "*"),
          "jid" := ClaimedValue(actions, c.nid.value, Jid, "*"),
          "uid" := ClaimedValue(actions, c.nid.value, Uid, "*"),
          "fid" := if c.target.Some? then Fid(c.target.value) else "*"]
  }

  lemma {:induction false} TagsAreHistoric(actions: seq<Action>, server: string, c: Counters)
    ensures Restrict(TagsOf(Run(actions), server, c), GROUP_TAGS) == HistoricTags(actions, server, c)
  {
    hide ClaimedValue, Run, Claimer, Fid;
    if c.nid.Some? {
      TagsAgreeWithHistory(actions, server, c);
    }
  }

  /** The gains of the exports that the history of reports puts under `key`. */
  function ChargedGains(actions: seq<Action>, server: string, olds: seq<Counters>, news: seq<Counters>,
                        statsType: string, event: string, key: Tags): real {
    if news == [] then 0.0
    else
      var k := |news| - 1;
      ChargedGains(actions, server, olds, news[..k], statsType, event, key) +
      if HistoricTags(actions, server, news[k]) == key then Gain(olds, news[k], statsType, event) else 0.0
  }

  lemma {:induction false} GainsAreCharged(actions: seq<Action>, server: string, olds: seq<Counters>,
                                           news: seq<Counters>, statsType: string, event: string, key: Tags)
    ensures GainsUnder(olds, TaggedData(Run(actions), server, news), statsType, event, GROUP_TAGS, key)
         == ChargedGains(actions, server, olds, news, statsType, event, key)
  {
    hide HistoricTags, Gain, Run, TagsOf, Restrict;
    if news != [] {
      var k := |news| - 1;
      var tagged := TaggedData(Run(actions), server, news);
      GainsAreCharged(actions, server, olds, news[..k], statsType, event, key);
      assert tagged[..k] == TaggedData(Run(actions), server, news[..k]);
      TagsAreHistoric(actions, server, news[k]);
    }
  }

  /**
   * Attribution over every run: what a tick publishes of an event under a tag set, times its interval, is exactly the
   * increase of the counters of those exports whose client was last claimed by a host that last reported that job,
   * user and system, and whose target is of that file system.
   */
  lemma {:induction false} ChargedToHistory(actions: seq<Action>, server: string, key: Tags, event: string)
    requires Additive(event) && EmissionOf(Run(actions), server).Some?
    ensures var h, e := Run(actions).hosts[server], EmissionOf(Run(actions), server).value;
      e.dt * PublishedValue(e.groups, key, event)
      == if IsCounted(h.obdclass) then
           ChargedGains(actions, server, h.odata.value, h.data.value, h.obdclass.value, event, key)
         else 0.0
  {
    hide PublishedValue, GainsUnder, ChargedGains, Run, CalcRates, ServerGroups, TaggedData;
    var s := Run(actions);
    var h := s.hosts[server];
    TickCharges(h, TagsFor(s, server), GROUP_TAGS, key, event);
    if IsCounted(h.obdclass) {
      GainsAreCharged(actions, server, h.odata.value, h.data.value, h.obdclass.value, event, key);
    }
  }
}
