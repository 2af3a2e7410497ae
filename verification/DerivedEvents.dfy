/** `derived_events` in place, and `group_ratesbytags` over all servers. */
module DerivedEvents {
  import opened Distinctness
  import opened Grouping
  import opened Load
  import opened Options
  import opened StatObjects

  function StatsOf(rows: seq<Row>): (all: seq<Stats>)
    ensures |all| == |rows|
  {
    seq(|rows|, i requires 0 <= i < |rows| => rows[i].stats)
  }

  /** The rows of a server after its derived events are added. */
  ghost function DerivedRows(rows: seq<Row>): (r: seq<Row>)
    ensures |r| == |rows|
  {
    seq(|rows|, i requires 0 <= i < |rows| => Row(rows[i].tags, Derived(rows[i].stats, StatsOf(rows))))
  }

  ghost function PartlyScaled(stats: Stats, done: set<string>): Stats {
    map e | e in stats :: if e in done && EventKind(e) == Bytes then stats[e] * BYTES_FACTOR else stats[e]
  }

  /** The event loop for one group. */
  method Summarise(entry: StatObject) returns (iops: real, bytes: real)
    modifies entry
    ensures entry.values == old(Summarised(entry.values))
    ensures iops == old(Iops(entry.values)) && bytes == old(Megabytes(entry.values))
  {
    hide EventKind;
    ghost var before := entry.values;
    var cpu, sumReqs, sumBytes := 0.0, 0.0, 0.0;
    var todo := entry.values.Keys;
    ghost var done := {};
    while todo != {}
      invariant todo <= before.Keys && done == before.Keys - todo
      invariant entry.values == PartlyScaled(before, done)
      invariant sumReqs == SumOf(done, before, Requests) && sumBytes == SumOf(done, before, Bytes)
      invariant cpu == if "load" in done then before["load"] else 0.0
      decreases todo
    {
      var event :| event in todo;
      LoadKind(event);
      SumPick(done + {event}, event, before, Requests);
      SumPick(done + {event}, event, before, Bytes);
      assert done + {event} - {event} == done;
      var value := entry.values[event];
      match EventKind(event) {
        case Ignored =>
        case Bytes =>
          sumBytes := sumBytes + value;
          entry.values := entry.values[event := value * BYTES_FACTOR];
        case LoadValue =>
          cpu := value;
        case Requests =>
          sumReqs := sumReqs + value;
      }
      todo, done := todo - {event}, done + {event};
    }
    assert done == before.Keys;
    assert entry.values == Scaled(before);
    iops, bytes := sumReqs, sumBytes * BYTES_FACTOR;
    entry.values := entry.values["load" := cpu * LOAD_FACTOR];
    entry.values := entry.values["iops" := iops];
    entry.values := entry.values["bytes" := bytes];
  }

  /** The first loop over a server's groups. */
  method SummariseAll(server: TagMap, ghost groups: seq<Stats>) returns (totalIops: real, totalBytes: real)
    requires server.Valid() && groups == StatsOf(server.Rows())
    modifies server.Objects()
    ensures totalIops == TotalIops(groups) && totalBytes == TotalMegabytes(groups)
    ensures forall j :: 0 <= j < |groups| ==> server.objects[j].values == Summarised(groups[j])
  {
    hide SumOf, Summarised, Iops, Megabytes;
    totalIops, totalBytes := 0.0, 0.0;
    var n := |server.objects|;
    for i := 0 to n
      invariant totalIops == TotalIops(groups[..i]) && totalBytes == TotalMegabytes(groups[..i])
      invariant forall j :: 0 <= j < i ==> server.objects[j].values == Summarised(groups[j])
      invariant forall j :: i <= j < n ==> server.objects[j].values == groups[j]
    {
      assert groups[..i + 1][..i] == groups[..i];
      var iops, bytes := Summarise(server.objects[i]);
      totalIops := totalIops + iops;
      totalBytes := totalBytes + bytes;
    }
    assert groups[..n] == groups;
  }

  /** Both loops over a server's groups, in place. */
  method AddDerivedEvents(server: TagMap)
    requires server.Valid()
    modifies server.Objects()
    ensures server.Rows() == old(DerivedRows(server.Rows()))
  {
    hide Summarised, Apportioned, TotalIops, TotalMegabytes;
    ghost var groups := StatsOf(server.Rows());
    var totalIops, totalBytes := SummariseAll(server, groups);
    var n := |server.objects|;
    for i := 0 to n
      invariant forall j :: 0 <= j < i ==> server.objects[j].values == Derived(groups[j], groups)
      invariant forall j :: i <= j < n ==> server.objects[j].values == Summarised(groups[j])
    {
      Apportion(server.objects[i], groups[i], totalIops, totalBytes);
    }
  }

  /** The second loop's work on one group. */
  method Apportion(entry: StatObject, ghost stats: Stats, totalIops: real, totalBytes: real)
    requires entry.values == Summarised(stats)
    modifies entry
    ensures entry.values == Apportioned(Summarised(stats), totalIops, totalBytes)
  {
    hide SumOf, Iops, Megabytes;
    var factor, norm := 0.0, 0;
    if totalIops > 0.0 {
      factor := factor + entry.values["iops"] * (1.0 / totalIops);
      norm := norm + 1;
    }
    if totalBytes > 0.0 {
      factor := factor + entry.values["bytes"] * (1.0 / totalBytes);
      norm := norm + 1;
    }
    ghost var s := entry.values;
    assert factor == Share(s["iops"], s["bytes"], totalIops, totalBytes) && norm == Norm(totalIops, totalBytes);
    if norm > 0 {
      entry.values := entry.values["load_eff" := Part(entry.values["load"], factor, norm)];
    }
  }

  // ---------- all servers ----------

  /** What is shown of a server's rows: filtered, regrouped, with derived events. */
  ghost function Shown(rows: seq<Row>, filters: Filters, server: string, wanted: set<string>): seq<Row> {
    DerivedRows(GroupRows(Kept(rows, filters, server, wanted), wanted))
  }

  /** The row found under the tags, if there is one. */
  function Lookup(rows: seq<Row>, key: Tags): Stats {
    var i := FindRow(rows, key);
    if i < |rows| then rows[i].stats else map[]
  }

  /**
   * What a server's own rows are after it has been shown: a row that opens a group holds what is shown of the group.
   */
  ghost function AfterShown(rows: seq<Row>, filters: Filters, server: string, wanted: set<string>): (r: seq<Row>)
    ensures |r| == |rows|
  {
    var shown := Shown(rows, filters, server, wanted);
    seq(|rows|, j requires 0 <= j < |rows| =>
      if Opens(RowKeys(rows), j, filters, server, wanted) then
        Row(rows[j].tags, Lookup(shown, Restrict(rows[j].tags, wanted)))
      else rows[j])
  }

  /** The rows of a server after its turn: without a time it is passed over. */
  ghost function RowsAfter(time: Option<real>, rows: seq<Row>, filters: Filters, server: string,
                           wanted: set<string>): seq<Row> {
    if time.Some? then AfterShown(rows, filters, server, wanted) else rows
  }

  /** The map is well formed and holds these rows. */
  ghost predicate Holds(t: TagMap, time: Option<real>, rows: seq<Row>)
    reads t, t.objects
  {
    t.Valid() && t.time == time && t.Rows() == rows
  }

  /** One server of `group_ratesbytags`. */
  method RegroupAndDerive(source: TagMap, server: string, wanted: set<string>, filters: Filters) returns (dest: TagMap)
    requires source.Valid()
    modifies source.Objects()
    ensures fresh(dest) && dest.Objects() <= source.Objects()
    ensures Holds(dest, source.time, Shown(old(source.Rows()), filters, server, wanted))
    ensures source.Rows() == AfterShown(old(source.Rows()), filters, server, wanted)
  {
    hide Shares, Opens, Keep, Restrict, DerivedRows, GroupRows, Kept, FindRow;
    ghost var rows := source.Rows();
    dest := RegroupServer(source, server, wanted, filters);
    AddDerivedEvents(dest);
    ghost var shown := Shown(rows, filters, server, wanted);
    assert dest.Rows() == shown && RowKeys(rows) == source.keys;
    forall j | 0 <= j < |rows|
      ensures source.objects[j].values == AfterShown(rows, filters, server, wanted)[j].stats
    {
      WhereStored(dest.keys, dest.objects, source.keys, source.objects, j, shown, filters, server, wanted);
      if Opens(source.keys, j, filters, server, wanted) {
        var g := FindRow(shown, Restrict(source.keys[j], wanted));
        assert shown[g].stats == dest.objects[g].values;
      } else {
        assert source.objects[j] in source.objects && source.objects[j] !in dest.Objects();
      }
    }
  }

  /** A row's object holds the group it opens, or is not stored in the new map. */
  lemma {:induction false} WhereStored(groups: seq<Tags>, stored: seq<StatObject>, keys: seq<Tags>,
                                       objects: seq<StatObject>, j: nat, shown: seq<Row>, filters: Filters,
                                       server: string, wanted: set<string>)
    requires j < |keys| == |objects| && Shares(groups, stored, keys, objects, |keys|, filters, server, wanted)
    requires Distinct(groups) && |shown| == |groups| && forall g :: 0 <= g < |groups| ==> shown[g].tags == groups[g]
    ensures if Opens(keys, j, filters, server, wanted) then
        var g := FindRow(shown, Restrict(keys[j], wanted)); g < |groups| && stored[g] == objects[j]
      else objects[j] !in stored
  {
    hide Opens, Restrict;
    assert Placed(groups, stored, keys, objects, j, filters, server, wanted);
    if Opens(keys, j, filters, server, wanted) {
      var g :| 0 <= g < |groups| && groups[g] == Restrict(keys[j], wanted) && stored[g] == objects[j];
      var f := FindRow(shown, Restrict(keys[j], wanted));
      assert shown[g].tags == groups[g];
    }
  }

  /** What is shown for a server is what was shown before. */
  ghost predicate SameShown(before: map<string, TagMap>, after: map<string, TagMap>, server: string) {
    (server in after <==> server in before) && (server in after ==> after[server] == before[server])
  }

  /** The consumer's globals: published rates by server, in order, and the regrouped maps it shows. */
  class Consumer {
    var servers: seq<string>
    var rates: seq<TagMap>
    var screen: map<string, TagMap>
    ghost var owned: set<StatObject>

    constructor (servers: seq<string>, rates: seq<TagMap>)
      requires |servers| == |rates| && Distinct(servers)
      requires forall i :: 0 <= i < |rates| ==> rates[i].Valid()
      requires forall i, j :: 0 <= i < j < |rates| ==> rates[i].Objects() !! rates[j].Objects()
      ensures Valid() && this.servers == servers && this.rates == rates && screen == map[]
    {
      this.servers, this.rates, this.screen := servers, rates, map[];
      new;
      owned := set i, o | 0 <= i < |rates| && o in rates[i].Objects() :: o;
    }

    /** A freshly parsed map: no two servers share an object. */
    ghost predicate Valid()
      reads this, rates
    {
      && |servers| == |rates| && Distinct(servers)
      && (forall i :: 0 <= i < |rates| ==> rates[i].Valid() && rates[i].Objects() <= owned)
      && (forall i, j :: 0 <= i < j < |rates| ==> rates[i].Objects() !! rates[j].Objects())
    }

    /** Server `i` is shown with the given rows, in objects of its own published map. */
    ghost predicate Shows(i: nat, rows: seq<Row>)
      requires |servers| == |rates| && i < |servers|
      reads this, rates, if servers[i] in screen then {screen[servers[i]]} else {},
            if servers[i] in screen then screen[servers[i]].objects else []
    {
      && servers[i] in screen
      && screen[servers[i]].Objects() <= rates[i].Objects()
      && Holds(screen[servers[i]], rates[i].time, rows)
    }

    /** One server's turn; it disturbs neither the rates nor the shown maps of the others. */
    method ShowServer(n: nat, wanted: set<string>, filters: Filters)
      requires Valid() && n < |servers| && rates[n].time.Some?
      modifies this`screen, rates[n].Objects()
      ensures Shows(n, Shown(old(rates[n].Rows()), filters, servers[n], wanted))
      ensures rates[n].Rows() == AfterShown(old(rates[n].Rows()), filters, servers[n], wanted)
      ensures servers[n] in screen && screen == old(screen)[servers[n] := screen[servers[n]]]
      ensures forall i :: 0 <= i < |servers| && i != n ==> rates[i].Rows() == old(rates[i].Rows())
      ensures forall i, rows :: 0 <= i < |servers| && i != n && old(Shows(i, rows)) ==> Shows(i, rows)
    {
      hide Shown, Holds, AfterShown;
      var tagRateMap := RegroupAndDerive(rates[n], servers[n], wanted, filters);
      screen := screen[servers[n] := tagRateMap];
    }

    /** Server `i` has not had its turn. */
    ghost predicate Waiting(i: nat, rows: seq<Row>, before: map<string, TagMap>)
      requires Valid() && i < |servers|
      reads this, rates, rates[i].objects
    {
      rates[i].Rows() == rows && SameShown(before, screen, servers[i])
    }

    /** Server `i` has had its turn: it is shown from its old rows, or, without a time, as it was. */
    ghost predicate TurnTaken(i: nat, rows: seq<Row>, before: map<string, TagMap>, wanted: set<string>,
                              filters: Filters)
      requires Valid() && i < |servers|
      reads this, rates, rates[i].objects, if servers[i] in screen then {screen[servers[i]]} else {},
            if servers[i] in screen then screen[servers[i]].objects else []
    {
      && rates[i].Rows() == RowsAfter(rates[i].time, rows, filters, servers[i], wanted)
      && (if rates[i].time.Some? then Shows(i, Shown(rows, filters, servers[i], wanted))
          else SameShown(before, screen, servers[i]))
    }

    /** One server's turn; a server without a time is passed over. */
    method TakeTurn(n: nat, ghost rows: seq<Row>, ghost before: map<string, TagMap>, wanted: set<string>,
                    filters: Filters)
      requires Valid() && n < |servers| && Waiting(n, rows, before)
      modifies this`screen, rates[n].Objects()
      ensures Valid() && TurnTaken(n, rows, before, wanted, filters)
      ensures forall i, r :: 0 <= i < |servers| && i != n && old(Waiting(i, r, before)) ==> Waiting(i, r, before)
      ensures forall i, r :: 0 <= i < |servers| && i != n && old(TurnTaken(i, r, before, wanted, filters)) ==>
                TurnTaken(i, r, before, wanted, filters)
      ensures forall s :: s !in servers && old(SameShown(before, screen, s)) ==> SameShown(before, screen, s)
    {
      hide Shown, Shows, TagMap.Rows, AfterShown;
      if rates[n].time.Some? {
        ShowServer(n, wanted, filters);
      }
    }

    /** `group_ratesbytags`: every server with a time is regrouped and shown; the others keep what they showed. */
    method GroupRatesByTags(wanted: set<string>, filters: Filters)
      requires Valid()
      modifies this`screen, owned
      ensures Valid()
      ensures forall i :: 0 <= i < |servers| ==> TurnTaken(i, old(rates[i].Rows()), old(screen), wanted, filters)
      ensures forall s :: s !in servers ==> SameShown(old(screen), screen, s)
    {
      hide TurnTaken, Distinct, TagMap.Rows;
      ghost var before := screen;
      for n := 0 to |servers|
        invariant Valid()
        invariant forall i :: n <= i < |servers| ==> Waiting(i, old(rates[i].Rows()), before)
        invariant forall i :: 0 <= i < n ==> TurnTaken(i, old(rates[i].Rows()), before, wanted, filters)
        invariant forall s :: s !in servers ==> SameShown(before, screen, s)
      {
        TakeTurn(n, old(rates[n].Rows()), before, wanted, filters);
      }
    }

    /**
     * A key press: the screen is drawn again from the same maps, nothing being read in between. What is shown the
     * second time is what is shown of the rows that the first time left.
     */
    method ShowAgain(wanted: set<string>, filters: Filters, again: set<string>, filtersAgain: Filters)
      requires Valid()
      modifies this`screen, owned
      ensures forall i :: 0 <= i < |servers| && rates[i].time.Some? ==>
                var left := AfterShown(old(rates[i].Rows()), filters, servers[i], wanted);
                Shows(i, Shown(left, filtersAgain, servers[i], again))
    {
      hide Shown, Shows, TagMap.Rows, Distinct, AfterShown;
      GroupRatesByTags(wanted, filters);
      GroupRatesByTags(again, filtersAgain);
    }
  }
}
