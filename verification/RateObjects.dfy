/** `calc_rates` and `aggregate_stat` on the shared objects, proved against the functions of `Rates`. */
module RateObjects {
  import opened Distinctness
  import opened Grouping
  import opened Options
  import opened Rates
  import opened StatObjects

  /** An entry of a data array: counters never change, tags are put on in place. */
  class Export {
    const core: Counters
    var tags: Tags

    constructor (core: Counters)
      ensures this.core == core && tags == map[]
    {
      this.core, this.tags := core, map[];
    }

    function Value(): Tagged
      reads this
    {
      Tagged(core, tags)
    }
  }

  function CoresOf(data: seq<Export>): (cores: seq<Counters>)
    ensures |cores| == |data|
  {
    seq(|data|, i requires 0 <= i < |data| => data[i].core)
  }

  function Values(data: seq<Export>): (tagged: seq<Tagged>)
    reads data
    ensures |tagged| == |data|
  {
    seq(|data|, i requires 0 <= i < |data| reads data => data[i].Value())
  }

  /** An entry of a rate array: it holds the event object that aggregation stores and adds to. */
  datatype RateEntry = RateEntry(statsType: string, nid: Option<string>, tags: Tags, stats: StatObject) {
    function Value(): RateRow
      reads stats
    {
      RateRow(statsType, nid, tags, stats.values)
    }
  }

  /** The rate entries have their own objects. */
  ghost predicate OwnObjects(rates: seq<RateEntry>) {
    forall i, j :: 0 <= i < j < |rates| ==> rates[i].stats != rates[j].stats
  }

  ghost function ObjectsOf(rates: seq<RateEntry>): set<StatObject> {
    set i | 0 <= i < |rates| :: rates[i].stats
  }

  /** The objects of the rows of one type. */
  ghost function ObjectsOfType(rates: seq<RateEntry>, statsType: string): set<StatObject> {
    set i | 0 <= i < |rates| && rates[i].statsType == statsType :: rates[i].stats
  }

  ghost function RateRows(rates: seq<RateEntry>): (rows: seq<RateRow>)
    reads ObjectsOf(rates)
    ensures |rows| == |rates|
  {
    seq(|rates|, i requires 0 <= i < |rates| reads ObjectsOf(rates) => rates[i].Value())
  }

  /** The map from join keys to old counters. */
  method IndexOld(data: seq<Export>) returns (index: map<string, map<string, int>>)
    ensures index == OldIndex(CoresOf(data))
  {
    index := map[];
    for i := 0 to |data|
      invariant index == OldIndex(CoresOf(data[..i]))
    {
      var c := data[i].core;
      assert CoresOf(data[..i + 1])[..i] == CoresOf(data[..i]);
      if c.statsType.None? {
        continue;
      }
      if c.stats.None? {
        continue;
      }
      if c.statsType.value == "cpu" {
        index := index["cpu" := c.stats.value];
        continue;
      }
      if c.nid.None? || c.target.None? {
        continue;
      }
      index := index[JoinKey(c.nid.value, c.target.value, c.statsType.value) := c.stats.value];
    }
    assert data[..|data|] == data;
  }

  /** The clipped and scaled increases of one entry's events. */
  method ScaleDeltas(news: map<string, int>, olds: map<string, int>, idt: real) returns (rates: Stats)
    ensures rates == RateStats(news, olds, idt)
  {
    rates := map[];
    var todo := news.Keys;
    while todo != {}
      invariant todo <= news.Keys
      invariant rates == map e | e in news && e !in todo :: Rate(Delta(news, olds, e), idt)
      decreases todo
    {
      var event :| event in todo;
      var delta := 0;
      if event in olds {
        delta := news[event] - olds[event];
      }
      if delta < 0 {
        delta := 0;
      }
      rates := rates[event := Rate(delta, idt)];
      todo := todo - {event};
    }
  }

  /** The rate of one new entry against the index. */
  method RateEntryOf(e: Export, index: map<string, map<string, int>>, idt: real, ghost olds: seq<Counters>)
    returns (entry: Option<RateEntry>)
    requires index == OldIndex(olds)
    ensures entry.None? <==> RateOf(e.Value(), olds, idt).None?
    ensures entry.Some? ==> fresh(entry.value.stats) && RateOf(e.Value(), olds, idt) == Some(entry.value.Value())
  {
    hide OldIndex, CopiedTags, RateStats;
    var c := e.core;
    if c.statsType.None? {
      return None;
    }
    var isCpu := c.statsType.value == "cpu";
    if !isCpu && (c.nid.None? || c.target.None?) {
      return None;
    }
    var key := if isCpu then "cpu" else JoinKey(c.nid.value, c.target.value, c.statsType.value);
    if key !in index {
      return None;
    }
    if c.stats.None? {
      return None;
    }
    var rates := ScaleDeltas(c.stats.value, index[key], idt);
    var stats := new StatObject(rates);
    var tags := CopiedTags(e.Value(), c.statsType.value);
    return Some(RateEntry(c.statsType.value, if isCpu then None else c.nid, tags, stats));
  }

  lemma {:induction false} CalcStep(tagged: seq<Tagged>, i: nat, olds: seq<Counters>, idt: real)
    requires i < |tagged|
    ensures var row := RateOf(tagged[i], olds, idt);
      CalcRates(tagged[..i + 1], olds, idt) == CalcRates(tagged[..i], olds, idt) + if row.Some? then [row.value] else []
  {
    hide RateOf;
    assert tagged[..i + 1][..i] == tagged[..i];
  }

  /** `calc_rates` */
  method ComputeRates(nda: seq<Export>, oda: seq<Export>, idt: real) returns (rates: seq<RateEntry>)
    ensures OwnObjects(rates) && fresh(ObjectsOf(rates))
    ensures RateRows(rates) == CalcRates(Values(nda), CoresOf(oda), idt)
  {
    ghost var tagged, olds := Values(nda), CoresOf(oda);
    var omap := IndexOld(oda);
    rates := [];
    for i := 0 to |nda|
      invariant OwnObjects(rates) && fresh(ObjectsOf(rates))
      invariant RateRows(rates) == CalcRates(tagged[..i], olds, idt)
    {
      hide RateOf, OldIndex, CalcRates;
      CalcStep(tagged, i, olds, idt);
      ghost var before := RateRows(rates);
      assert nda[i].Value() == tagged[i];
      var entry := RateEntryOf(nda[i], omap, idt, olds);
      if entry.Some? {
        AppendOwn(rates, entry.value);
        rates := rates + [entry.value];
      } else {
        assert before + [] == before;
      }
    }
    assert tagged[..|tagged|] == tagged;
  }

  lemma {:induction false} AppendOwn(rates: seq<RateEntry>, entry: RateEntry)
    requires OwnObjects(rates) && entry.stats !in ObjectsOf(rates)
    ensures OwnObjects(rates + [entry]) && ObjectsOf(rates + [entry]) == ObjectsOf(rates) + {entry.stats}
    ensures RateRows(rates + [entry]) == RateRows(rates) + [entry.Value()]
  {
    var all := rates + [entry];
    assert forall j :: 0 <= j < |rates| ==> all[j] == rates[j] && all[j].stats in ObjectsOf(rates);
    assert all[|rates|] == entry;
  }

  /**
   * `aggregate_stat` into an empty map: each matching row is marked with its client count and then stored or added.
   * Only objects of matching rows are touched.
   */
  method AggregateStat(rates: seq<RateEntry>, wanted: set<string>, statsType: string) returns (tagMap: TagMap)
    requires OwnObjects(rates)
    modifies ObjectsOfType(rates, statsType)
    ensures fresh(tagMap) && tagMap.Valid() && tagMap.time == None
        && tagMap.Objects() <= ObjectsOfType(rates, statsType)
    ensures tagMap.Rows() == GroupRows(AggregateRows(old(RateRows(rates)), statsType), wanted)
  {
    ghost var rows := RateRows(rates);
    tagMap := new TagMap();
    var clients := {};
    for i := 0 to |rates|
      invariant tagMap.Valid() && tagMap.time == None && tagMap.Objects() <= ObjectsOfType(rates, statsType)
      invariant clients == Clients(rows[..i], statsType)
      invariant forall j :: i <= j < |rates| ==>
                  rates[j].stats !in tagMap.Objects() && rates[j].stats.values == rows[j].stats
      invariant tagMap.Rows() == GroupRows(AggregateRows(rows[..i], statsType), wanted)
    {
      hide GroupRows, Restrict, AddRow, AggregateRows, Clients;
      AggregateStep(rows, i, statsType, wanted);
      if rates[i].statsType != statsType {
        continue;
      }
      assert rates[i].stats in ObjectsOfType(rates, statsType);
      clients := CountAndAdd(tagMap, rates[i], wanted, clients);
    }
    assert rows[..|rows|] == rows;
  }

  /** A matching row: count its client if it is new, then accumulate. */
  method CountAndAdd(tagMap: TagMap, entry: RateEntry, wanted: set<string>, clients: set<string>)
    returns (seen: set<string>)
    requires tagMap.Valid() && entry.stats !in tagMap.Objects()
    modifies tagMap, tagMap.Objects(), entry.stats
    ensures tagMap.Valid() && tagMap.time == old(tagMap.time)
    ensures seen == clients + if entry.nid.Some? then {entry.nid.value} else {}
    ensures tagMap.Rows() == old(AddRow(tagMap.Rows(), Restrict(entry.tags, wanted),
                                        entry.stats.values["nclients" := NewClient(entry.Value(), clients)]))
    ensures tagMap.Objects() <= old(tagMap.Objects()) + {entry.stats}
  {
    hide AddRow, Restrict;
    var count := 0.0;
    seen := clients;
    if entry.nid.Some? && entry.nid.value !in clients {
      seen := clients + {entry.nid.value};
      count := 1.0;
    }
    ghost var rows := tagMap.Rows();
    entry.stats.values := entry.stats.values["nclients" := count];
    assert tagMap.Rows() == rows;
    AddOwn(tagMap, Restrict(entry.tags, wanted), entry.stats);
  }

  /** `add_stats`, with the frame in terms of the map's own objects. */
  method AddOwn(tagMap: TagMap, tags: Tags, stats: StatObject)
    requires tagMap.Valid() && stats !in tagMap.Objects()
    modifies tagMap, tagMap.Objects()
    ensures tagMap.Valid() && tagMap.time == old(tagMap.time)
    ensures tagMap.Rows() == old(AddRow(tagMap.Rows(), tags, stats.values))
    ensures tagMap.Objects() <= old(tagMap.Objects()) + {stats}
  {
    hide AddRow, FindRow, IndexOf;
    ghost var stored := tagMap.Find(tags);
    assert stored < |tagMap.keys| ==> tagMap.objects[stored] in tagMap.objects;
    AddStats(tagMap, tags, stats);
  }

  /** One row's turn: its client count, its place among the aggregated rows, the clients seen. */
  lemma {:induction false} AggregateStep(rows: seq<RateRow>, i: nat, statsType: string, wanted: set<string>)
    requires i < |rows|
    ensures var before, after := rows[..i], rows[..i + 1];
      var r, seen := rows[i], Clients(before, statsType);
      var groups := GroupRows(AggregateRows(before, statsType), wanted);
      if r.statsType != statsType then
        && Clients(after, statsType) == seen
        && GroupRows(AggregateRows(after, statsType), wanted) == groups
      else
        && Clients(after, statsType) == seen + (if r.nid.Some? then {r.nid.value} else {})
        && GroupRows(AggregateRows(after, statsType), wanted)
           == AddRow(groups, Restrict(r.tags, wanted), r.stats["nclients" := NewClient(r, seen)])
  {
    hide GroupRows, Restrict, AddRow;
    var before, after, r := rows[..i], rows[..i + 1], rows[i];
    assert after[..i] == before;
    var row := Row(r.tags, r.stats["nclients" := NewClient(r, Clients(before, statsType))]);
    GroupRowsAdd(AggregateRows(before, statsType), row, wanted);
    assert Clients(before, statsType) + {} == Clients(before, statsType);
  }

  /** Aggregation by a type depends only on the rows of that type. */
  lemma {:induction false} AggregateSame(a: seq<RateRow>, b: seq<RateRow>, statsType: string)
    requires |a| == |b|
    requires forall i :: 0 <= i < |a| ==>
               a[i].statsType == b[i].statsType && (a[i].statsType == statsType ==> a[i] == b[i])
    ensures Clients(a, statsType) == Clients(b, statsType) && AggregateRows(a, statsType) == AggregateRows(b, statsType)
  {
    if a != [] {
      AggregateSame(a[..|a| - 1], b[..|a| - 1], statsType);
    }
  }
}
