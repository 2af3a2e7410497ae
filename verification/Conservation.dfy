/** Traffic conservation: over a whole run, what is emitted is what the counters gained. */
module Conservation {
  import opened Options
  import opened Grouping
  import opened Rates
  import opened HostMap

  /** Every event but the two the server overwrites in a group. */
  predicate Additive(event: string) {
    event != "load" && event != "nclients"
  }

  // ---------- one tick ----------

  function Clipped(x: int): int {
    if x > 0 then x else 0
  }

  /** The increase of an event from an old entry to a new one: nothing unless both record it, and never negative. */
  function Difference(news: map<string, int>, olds: map<string, int>, event: string): int {
    if event in news && event in olds then Clipped(news[event] - olds[event]) else 0
  }

  /** What one new entry adds to an event: its increase, if the entry is of the counted class and can be joined. */
  function Gain(olds: seq<Counters>, c: Counters, statsType: string, event: string): real {
    if c.statsType == Some(statsType) && c.stats.Some? && Indexed(olds, c).Some?
    then Difference(c.stats.value, Indexed(olds, c).value, event) as real else 0.0
  }

  /**
   * The rate of an entry: it has one exactly when it has counters and the last old entry under its key is there, and
   * then it has every event of the new counters, each with its clipped increase, scaled; an event that the old entry
   * does not have has rate 0.
   */
  lemma {:induction false} RateIs(e: Tagged, olds: seq<Counters>, idt: real, event: string)
    requires KeyOf(e.core).Some?
    ensures var i, rate := LastWithKey(olds, e.core), RateOf(e, olds, idt);
      && (rate.Some? <==> i >= 0 && e.core.stats.Some?)
      && (rate.Some? ==>
            olds[i].stats.Some? &&
            var news, before := e.core.stats.value, olds[i].stats.value;
            && (event in rate.value.stats <==> event in news)
            && (event in news && event !in before ==> rate.value.stats[event] == 0.0)
            && (event in news && event in before ==>
                  rate.value.stats[event] == (if news[event] > before[event] then news[event] - before[event] else 0)
                      as real * idt))
  {
    hide KeyOf, OldIndex, CopiedTags, LastMatch, SameSource;
    JoinExactly(olds, e.core);
    LastWithKeyHas(olds, e.core);
    assert 0 as real * idt == 0.0;
  }

  /** The rates keep the order of the entries. */
  lemma {:induction false} RatesInOrder(a: seq<Tagged>, b: seq<Tagged>, olds: seq<Counters>, idt: real)
    ensures CalcRates(a + b, olds, idt) == CalcRates(a, olds, idt) + CalcRates(b, olds, idt)
    decreases |b|
  {
    hide RateOf;
    if b == [] {
      assert a + b == a;
    } else {
      var k := |b| - 1;
      assert (a + b)[..|a| + k] == a + b[..k];
      RatesInOrder(a, b[..k], olds, idt);
    }
  }

  function Gains(olds: seq<Counters>, news: seq<Counters>, statsType: string, event: string): real {
    if news == [] then 0.0
    else
      var k := |news| - 1;
      Gains(olds, news[..k], statsType, event) + Gain(olds, news[k], statsType, event)
  }

  /** The gain from one snapshot to the next: only a class the server aggregates counts. */
  function Increase(olds: seq<Counters>, snapshot: Snapshot, event: string): real {
    if IsCounted(snapshot.obdclass)
    then Gains(olds, snapshot.data, snapshot.obdclass.value, event) else 0.0
  }

  lemma {:induction false} AggregateAppend(rows: seq<RateRow>, r: RateRow, statsType: string, event: string)
    requires Additive(event)
    ensures RowSum(AggregateRows(rows + [r], statsType), event)
         == RowSum(AggregateRows(rows, statsType), event) + if r.statsType == statsType then Get(r.stats, event)
             else 0.0
  {
    assert (rows + [r])[..|rows|] == rows;
    if r.statsType == statsType {
      var n := NewClient(r, Clients(rows, statsType));
    }
  }

  /** One row's rate times the time between the snapshots is its entry's gain. */
  lemma {:induction false} RowIsGain(e: Tagged, olds: seq<Counters>, dt: real, statsType: string, event: string)
    requires dt > 0.0 && RateOf(e, olds, 1.0 / dt).Some?
    ensures var r := RateOf(e, olds, 1.0 / dt).value;
      dt * (if r.statsType == statsType then Get(r.stats, event) else 0.0) == Gain(olds, e.core, statsType, event)
  {
    assert e.core.statsType.Some?;
    hide Indexed, CopiedTags;
    var news := e.core.stats.value;
    assert dt * 0.0 == 0.0;
  }

  /** Rates times the time between the snapshots are the gains. */
  lemma {:induction false} RatesAreGains(news: seq<Tagged>, olds: seq<Counters>, dt: real, statsType: string,
                                         event: string)
    requires dt > 0.0 && Additive(event)
    ensures dt * RowSum(AggregateRows(CalcRates(news, olds, 1.0 / dt), statsType), event)
         == Gains(olds, Cores(news), statsType, event)
  {
    hide RateOf, AggregateRows, RowSum, Gain;
    if news == [] {
      NothingAggregated(statsType, event);
      assert dt * 0.0 == 0.0;
    } else {
      var k := |news| - 1;
      var before, row := CalcRates(news[..k], olds, 1.0 / dt), RateOf(news[k], olds, 1.0 / dt);
      RatesAreGains(news[..k], olds, dt, statsType, event);
      assert Cores(news)[..k] == Cores(news[..k]);
      if row.Some? {
        AggregateAppend(before, row.value, statsType, event);
        RowIsGain(news[k], olds, dt, statsType, event);
        Distribute(dt, RowSum(AggregateRows(before, statsType), event),
                   if row.value.statsType == statsType then Get(row.value.stats, event) else 0.0);
      } else {
        NoRowNoGain(news[k], olds, dt, statsType, event);
        assert before + [] == before;
      }
    }
  }

  lemma {:induction false} NothingAggregated(statsType: string, event: string)
    ensures RowSum(AggregateRows([], statsType), event) == 0.0
  {
  }

  lemma {:induction false} NoRowNoGain(e: Tagged, olds: seq<Counters>, dt: real, statsType: string, event: string)
    requires dt > 0.0 && RateOf(e, olds, 1.0 / dt).None?
    ensures Gain(olds, e.core, statsType, event) == 0.0
  {
    hide Indexed, CopiedTags, RateStats;
  }

  lemma {:induction false} Distribute(dt: real, a: real, b: real)
    ensures dt * (a + b) == dt * a + dt * b
  {
  }

  function Cores(tagged: seq<Tagged>): (r: seq<Counters>)
    ensures |r| == |tagged|
  {
    seq(|tagged|, i requires 0 <= i < |tagged| => tagged[i].core)
  }

  lemma {:induction false} LoadChangesNothing(rows: seq<Row>, cpu: seq<Row>, event: string)
    requires Additive(event)
    ensures RowSum(WithLoad(rows, cpu), event) == RowSum(rows, event)
  {
    hide Loaded, RowSum;
    if cpu != [] {
      LoadedChangesNothing(rows, Get(cpu[|cpu| - 1].stats, "system"), event);
    }
  }

  lemma {:induction false} LoadedChangesNothing(rows: seq<Row>, load: real, event: string)
    requires Additive(event)
    ensures RowSum(Loaded(rows, load), event) == RowSum(rows, event)
  {
    if rows != [] {
      var k := |rows| - 1;
      LoadedChangesNothing(rows[..k], load, event);
      assert Loaded(rows, load)[..k] == Loaded(rows[..k], load);
    }
  }

  /** What a tick emits of an event for a server: rate times time, summed over all tag groups. */
  function Amount(emission: Option<Emission>, event: string): real {
    if emission.None? then 0.0 else emission.value.dt * RowSum(emission.value.groups, event)
  }

  /** Conservation in one tick: the emitted amount is the gain since the old data, however the exports are tagged. */
  lemma {:induction false} TickConserves(h: Host, tagged: seq<Tagged>, wanted: set<string>, event: string)
    requires Additive(event) && h.data.Some? && Cores(tagged) == h.data.value
    requires HostTick(h, tagged, wanted).1.Some?
    ensures Amount(HostTick(h, tagged, wanted).1, event)
         == Increase(h.odata.value, Snapshot(h.time.value, h.data.value, h.obdclass), event)
  {
    hide GroupRows, AggregateRows, CalcRates, RowSum, Gains;
    var dt := h.time.value - h.otime.value;
    var rates := CalcRates(tagged, h.odata.value, 1.0 / dt);
    var cpu := GroupRows(AggregateRows(rates, "cpu"), wanted);
    if IsCounted(h.obdclass) {
      var raw := AggregateRows(rates, h.obdclass.value);
      LoadChangesNothing(GroupRows(raw, wanted), cpu, event);
      GroupingConserves(raw, wanted, event);
      RatesAreGains(tagged, h.odata.value, dt, h.obdclass.value, event);
    } else {
      LoadChangesNothing([], cpu, event);
      NoRows(event);
      assert dt * 0.0 == 0.0;
    }
  }

  lemma {:induction false} NoRows(event: string)
    ensures RowSum([], event) == 0.0
  {
  }

  // ---------- a run ----------

  /** Everything emitted of an event for server `key` in a run. */
  function Emitted(actions: seq<Action>, key: string, event: string): real {
    if actions == [] then 0.0
    else
      var k := |actions| - 1;
      Emitted(actions[..k], key, event) +
      if actions[k].Tick? then Amount(EmissionOf(Run(actions[..k]), key), event) else 0.0
  }

  /** The gains from each accepted snapshot to the next. */
  function TotalIncrease(accepted: seq<Snapshot>, event: string): real {
    if |accepted| <= 1 then 0.0
    else
      var k := |accepted| - 1;
      TotalIncrease(accepted[..k], event) + Increase(accepted[k - 1].data, accepted[k], event)
  }

  /** Whatever RPCs and ticks are interleaved, the emitted total is the total gain over the accepted snapshots. */
  lemma {:induction false} EmittedIsIncrease(actions: seq<Action>, key: string, event: string)
    requires Additive(event)
    ensures Emitted(actions, key, event) == TotalIncrease(Accepted(actions, key), event)
  {
    hide Increase, Amount, TickOf;
    if actions != [] {
      var k := |actions| - 1;
      var before := actions[..k];
      EmittedIsIncrease(before, key, event);
      var s, accepted := Run(before), Accepted(before, key);
      assert accepted + [] == accepted;
      NothingEmitted(event);
      if actions[k].Tick? && key in s.hosts {
        TickAdds(before, key, event);
      }
    }
  }

  lemma {:induction false} NothingEmitted(event: string)
    ensures Amount(None, event) == 0.0
  {
  }

  lemma {:induction false} TickAdds(before: seq<Action>, key: string, event: string)
    requires Additive(event) && key in Run(before).hosts
    ensures var s, accepted := Run(before), Accepted(before, key);
      var taken := Taken(s, key);
      TotalIncrease(accepted + (if taken.Some? then [taken.value] else []), event)
      == TotalIncrease(accepted, event) + Amount(EmissionOf(s, key), event)
  {
    hide Increase, CalcRates, ServerGroups, TagsOf;
    var s, accepted := Run(before), Accepted(before, key);
    var h, tagged, taken := s.hosts[key], TagsFor(s, key), Taken(s, key);
    SnapshotsFollow(before, key);
    var more := if taken.Some? then [taken.value] else [];
    TickFollows(h, tagged, accepted, more);
    assert accepted + [] == accepted;
    if taken.Some? && accepted != [] {
      assert (accepted + more)[..|accepted|] == accepted;
      assert Cores(tagged) == h.data.value;
      TickConserves(h, tagged, GROUP_TAGS, event);
    }
  }

  // ---------- exports present throughout ----------

  /** The export `c` counts the event in this data. */
  ghost predicate Counts(data: seq<Counters>, c: Counters, event: string) {
    LastMatch(data, c).Some? && event in LastMatch(data, c).value
  }

  function Counter(data: seq<Counters>, c: Counters, event: string): int {
    var stats := LastMatch(data, c);
    if stats.Some? && event in stats.value then stats.value[event] else 0
  }

  /** No two entries of a snapshot are for the same source, and keys are formed as Lustre forms them. */
  ghost predicate WellKeyed(data: seq<Counters>) {
    && (forall i :: 0 <= i < |data| ==> Plain(data[i]))
    && (forall i, j :: 0 <= i < j < |data| ==> !SameSource(data[i], data[j]))
  }

  /** Different exports of one class, none of them a cpu. */
  ghost predicate AreExports(exports: seq<Counters>, statsType: string) {
    && statsType != "cpu"
    && (forall i :: 0 <= i < |exports| ==> IsExport(exports[i], statsType))
    && (forall i, j :: 0 <= i < j < |exports| ==> !SameSource(exports[i], exports[j]))
  }

  ghost predicate IsExport(c: Counters, statsType: string) {
    Plain(c) && c.statsType == Some(statsType) && c.nid.Some? && c.target.Some?
  }

  /** Every entry of the class that counts the event is one of the exports. */
  ghost predicate Covered(data: seq<Counters>, exports: seq<Counters>, statsType: string, event: string) {
    forall i :: 0 <= i < |data| && Countable(data[i], statsType, event) ==>
      exists j :: 0 <= j < |exports| && SameSource(data[i], exports[j])
  }

  /** A client's entry of the class that records the event. */
  predicate Countable(c: Counters, statsType: string, event: string) {
    c.statsType == Some(statsType) && c.nid.Some? && c.target.Some? && c.stats.Some? && event in c.stats.value
  }

  /** The exports' clipped differences from one data array to another. */
  function Differences(olds: seq<Counters>, news: seq<Counters>, exports: seq<Counters>, event: string): int {
    if exports == [] then 0
    else
      var k := |exports| - 1;
      Differences(olds, news, exports[..k], event) +
      Clipped(Counter(news, exports[k], event) - Counter(olds, exports[k], event))
  }

  /** `data` without the entry at `i`. */
  function Without(data: seq<Counters>, i: nat): seq<Counters>
    requires i < |data|
  {
    data[..i] + data[i + 1..]
  }

  lemma {:induction false} GainsNonNegative(olds: seq<Counters>, news: seq<Counters>, statsType: string, event: string)
    ensures Gains(olds, news, statsType, event) >= 0.0
  {
    hide Indexed;
    if news != [] {
      GainsNonNegative(olds, news[..|news| - 1], statsType, event);
    }
  }

  lemma {:induction false} GainsWithout(olds: seq<Counters>, news: seq<Counters>, i: nat, statsType: string,
                                        event: string)
    requires i < |news|
    ensures Gains(olds, news, statsType, event)
         == Gains(olds, Without(news, i), statsType, event) + Gain(olds, news[i], statsType, event)
    decreases |news|
  {
    hide Gain;
    var k := |news| - 1;
    if i < k {
      GainsWithout(olds, news[..k], i, statsType, event);
      assert Without(news, i)[..k - 1] == Without(news[..k], i);
    } else {
      assert Without(news, i) == news[..k];
    }
  }

  /** Where a source is matched: one entry, if keys are unique. */
  lemma {:induction false} MatchAt(data: seq<Counters>, c: Counters) returns (i: nat)
    requires LastMatch(data, c).Some?
    ensures i < |data| && SameSource(data[i], c) && data[i].stats == LastMatch(data, c)
  {
    var k := |data| - 1;
    if SameSource(data[k], c) && data[k].stats.Some? {
      i := k;
    } else {
      i := MatchAt(data[..k], c);
    }
  }

  lemma {:induction false} MatchWithout(data: seq<Counters>, i: nat, c: Counters)
    requires i < |data| && !SameSource(data[i], c)
    ensures LastMatch(Without(data, i), c) == LastMatch(data, c)
    decreases |data|
  {
    hide SameSource;
    var k := |data| - 1;
    if i < k {
      MatchWithout(data[..k], i, c);
      assert Without(data, i)[..k - 1] == Without(data[..k], i);
    } else {
      assert Without(data, i) == data[..k];
    }
  }

  lemma {:induction false} MatchSame(data: seq<Counters>, a: Counters, b: Counters)
    requires SameSource(a, b)
    ensures LastMatch(data, a) == LastMatch(data, b)
  {
    if data != [] {
      MatchSame(data[..|data| - 1], a, b);
    }
  }

  lemma {:induction false} WithoutWellKeyed(data: seq<Counters>, i: nat)
    requires WellKeyed(data) && i < |data|
    ensures WellKeyed(Without(data, i))
  {
    hide Plain, SameSource;
    var short := Without(data, i);
    assert forall j :: 0 <= j < |short| ==> short[j] == data[if j < i then j else j + 1];
  }

  lemma {:induction false} CoveredWithout(data: seq<Counters>, i: nat, exports: seq<Counters>, statsType: string,
                                          event: string)
    requires WellKeyed(data) && i < |data| && exports != [] && Covered(data, exports, statsType, event)
    requires SameSource(data[i], exports[|exports| - 1])
    ensures Covered(Without(data, i), exports[..|exports| - 1], statsType, event)
  {
    var short, k := Without(data, i), |exports| - 1;
    forall m | 0 <= m < |short| && Countable(short[m], statsType, event)
      ensures exists j :: 0 <= j < k && SameSource(short[m], exports[..k][j])
    {
      var at := if m < i then m else m + 1;
      assert short[m] == data[at];
      var j :| 0 <= j < |exports| && SameSource(data[at], exports[j]);
      assert j != k by {
        if at < i {
          assert !SameSource(data[at], data[i]);
        } else {
          assert !SameSource(data[i], data[at]);
        }
      }
      assert exports[..k][j] == exports[j];
    }
  }

  /** A matched export's gain is its clipped difference. */
  lemma {:induction false} GainIsDifference(olds: seq<Counters>, news: seq<Counters>, c: Counters, statsType: string,
                                            event: string)
    returns (i: nat)
    requires WellKeyed(olds) && WellKeyed(news) && statsType != "cpu" && IsExport(c, statsType)
    requires Counts(olds, c, event) && Counts(news, c, event)
    ensures i < |news| && SameSource(news[i], c)
    ensures Gain(olds, news[i], statsType, event)
         == Clipped(Counter(news, c, event) - Counter(olds, c, event)) as real
  {
    i := MatchAt(news, c);
    JoinIsSearch(olds, news[i]);
    MatchSame(olds, news[i], c);
  }

  /** An entry no export covers gains nothing that counts. */
  lemma {:induction false} UncoveredGains(olds: seq<Counters>, news: seq<Counters>, statsType: string, event: string)
    requires Covered(news, [], statsType, event) && statsType != "cpu"
    ensures Gains(olds, news, statsType, event) == 0.0
  {
    if news != [] {
      var k := |news| - 1;
      assert Covered(news[..k], [], statsType, event) by {
        assert forall i :: 0 <= i < k ==> news[..k][i] == news[i];
      }
      UncoveredGains(olds, news[..k], statsType, event);
      assert Gain(olds, news[k], statsType, event) == 0.0;
    }
  }

  /**
   * The gain of a step is at least the exports' clipped differences, and exactly that if the exports are all there
   * is.
   */
  lemma {:induction false} StepGains(olds: seq<Counters>, news: seq<Counters>, exports: seq<Counters>,
                                     statsType: string, event: string)
    requires WellKeyed(olds) && WellKeyed(news) && AreExports(exports, statsType)
    requires forall i :: 0 <= i < |exports| ==> Counts(olds, exports[i], event) && Counts(news, exports[i], event)
    ensures Gains(olds, news, statsType, event) >= Differences(olds, news, exports, event) as real
    ensures Covered(news, exports, statsType, event) ==>
              Gains(olds, news, statsType, event) == Differences(olds, news, exports, event) as real
    decreases |exports|
  {
    hide Gain, WellKeyed, Plain, LastMatch;
    if exports == [] {
      GainsNonNegative(olds, news, statsType, event);
      if Covered(news, exports, statsType, event) {
        UncoveredGains(olds, news, statsType, event);
      }
    } else {
      var k := |exports| - 1;
      var c, others := exports[k], exports[..k];
      assert IsExport(c, statsType) && Counts(olds, c, event) && Counts(news, c, event);
      var i := GainIsDifference(olds, news, c, statsType, event);
      var short := Without(news, i);
      GainsWithout(olds, news, i, statsType, event);
      WithoutWellKeyed(news, i);
      OthersKeep(news, i, exports, event);
      StepGains(olds, short, others, statsType, event);
      SameDifferences(olds, news, short, others, event);
      if Covered(news, exports, statsType, event) {
        CoveredWithout(news, i, exports, statsType, event);
      }
    }
  }

  lemma {:induction false} OthersKeep(news: seq<Counters>, i: nat, exports: seq<Counters>, event: string)
    requires i < |news| && exports != [] && SameSource(news[i], exports[|exports| - 1])
    requires forall a, b :: 0 <= a < b < |exports| ==> !SameSource(exports[a], exports[b])
    ensures forall j :: 0 <= j < |exports| - 1 ==>
              LastMatch(Without(news, i), exports[j]) == LastMatch(news, exports[j])
  {
    forall j | 0 <= j < |exports| - 1 ensures LastMatch(Without(news, i), exports[j]) == LastMatch(news, exports[j]) {
      assert !SameSource(exports[j], exports[|exports| - 1]);
      MatchWithout(news, i, exports[j]);
    }
  }

  lemma {:induction false} SameDifferences(olds: seq<Counters>, a: seq<Counters>, b: seq<Counters>,
                                           exports: seq<Counters>, event: string)
    requires forall j :: 0 <= j < |exports| ==> LastMatch(a, exports[j]) == LastMatch(b, exports[j])
    ensures Differences(olds, a, exports, event) == Differences(olds, b, exports, event)
  {
    hide LastMatch;
    if exports != [] {
      SameDifferences(olds, a, b, exports[..|exports| - 1], event);
    }
  }

  // ---------- telescoping ----------

  /** The sum of the exports' counters. */
  function CounterSum(data: seq<Counters>, exports: seq<Counters>, event: string): int {
    if exports == [] then 0
    else CounterSum(data, exports[..|exports| - 1], event) + Counter(data, exports[|exports| - 1], event)
  }

  lemma {:induction false} DifferencesBound(olds: seq<Counters>, news: seq<Counters>, exports: seq<Counters>,
                                            event: string)
    ensures var gained := CounterSum(news, exports, event) - CounterSum(olds, exports, event);
      && Differences(olds, news, exports, event) >= gained
      && ((forall i :: 0 <= i < |exports| ==>
             Counter(olds, exports[i], event) <= Counter(news, exports[i], event)) ==>
            Differences(olds, news, exports, event) == gained)
  {
    hide Counter;
    if exports != [] {
      DifferencesBound(olds, news, exports[..|exports| - 1], event);
      assert forall i :: 0 <= i < |exports| - 1 ==> exports[..|exports| - 1][i] == exports[i];
    }
  }

  /** Snapshots of a class that all hold the exports, with keys as they should be. */
  ghost predicate Present(accepted: seq<Snapshot>, exports: seq<Counters>, statsType: string, event: string) {
    forall n :: 0 <= n < |accepted| ==>
      && accepted[n].obdclass == Some(statsType) && WellKeyed(accepted[n].data)
      && forall i :: 0 <= i < |exports| ==> Counts(accepted[n].data, exports[i], event)
  }

  /** Nothing but the exports counts the event, and their counters never fall. */
  ghost predicate Steady(accepted: seq<Snapshot>, exports: seq<Counters>, statsType: string, event: string) {
    && (forall n :: 0 <= n < |accepted| ==> Covered(accepted[n].data, exports, statsType, event))
    && (forall n, i :: 0 < n < |accepted| && 0 <= i < |exports| ==>
          Counter(accepted[n - 1].data, exports[i], event) <= Counter(accepted[n].data, exports[i], event))
  }

  /** The last accepted counters of the exports minus the first. */
  function Gained(accepted: seq<Snapshot>, exports: seq<Counters>, event: string): int
    requires accepted != []
  {
    CounterSum(accepted[|accepted| - 1].data, exports, event) - CounterSum(accepted[0].data, exports, event)
  }

  lemma {:induction false} Telescope(accepted: seq<Snapshot>, exports: seq<Counters>, statsType: string, event: string)
    requires statsType == "mds" || statsType == "oss"
    requires AreExports(exports, statsType) && Present(accepted, exports, statsType, event) && accepted != []
    ensures var gained := Gained(accepted, exports, event);
      && TotalIncrease(accepted, event) >= gained as real
      && (Steady(accepted, exports, statsType, event) ==> TotalIncrease(accepted, event) == gained as real)
  {
    hide WellKeyed, AreExports, Gains, CounterSum, Differences, Counts, Covered, Counter;
    if |accepted| > 1 {
      var k := |accepted| - 1;
      var before := accepted[..k];
      var olds, news := accepted[k - 1].data, accepted[k].data;
      Telescope(before, exports, statsType, event);
      StepGains(olds, news, exports, statsType, event);
      DifferencesBound(olds, news, exports, event);
      if Steady(accepted, exports, statsType, event) {
        assert Steady(before, exports, statsType, event);
      }
    }
  }

  /**
   * Traffic conservation over whole runs. For any interleaving of RPCs and ticks and any retagging between them, and
   * for any exports of the server's class that every accepted snapshot holds: what the ticks emit of an event, summed
   * over all tag groups, is at least the last accepted counters minus the first; it is exactly that when the exports
   * are all that count the event and their counters never fall.
   */
  lemma {:induction false} TrafficConserved(actions: seq<Action>, key: string, exports: seq<Counters>,
                                            statsType: string, event: string)
    requires Additive(event) && (statsType == "mds" || statsType == "oss") && AreExports(exports, statsType)
    requires Accepted(actions, key) != [] && Present(Accepted(actions, key), exports, statsType, event)
    ensures var accepted := Accepted(actions, key);
      var gained := Gained(accepted, exports, event);
      && Emitted(actions, key, event) >= gained as real
      && (Steady(accepted, exports, statsType, event) ==> Emitted(actions, key, event) == gained as real)
  {
    hide TotalIncrease, Emitted, Accepted, CounterSum, Present, Steady, AreExports;
    EmittedIsIncrease(actions, key, event);
    Telescope(Accepted(actions, key), exports, statsType, event);
  }
}
