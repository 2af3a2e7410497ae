/** The server's global maps as shared objects, proved to refine the state machine of `HostMap`. */
module ServerObjects {
  import opened Distinctness
  import opened Grouping
  import opened Options
  import opened Rates
  import opened StatObjects
  import opened RateObjects
  import opened HostMap

  /** A parsed report; its data array is made of objects. */
  datatype Report = Report(
    hostname: Option<string>,
    time: Option<real>,
    system: Option<string>,
    jid: Option<string>,
    uid: Option<string>,
    obdclass: Option<string>,
    data: Option<seq<Export>>,
    nid: Option<string>)
  {
    function Value(): Rpc {
      Rpc(hostname, time, system, jid, uid, obdclass, CoresIf(data), nid)
    }
  }

  function CoresIf(data: Option<seq<Export>>): Option<seq<Counters>> {
    if data.Some? then Some(CoresOf(data.value)) else None
  }

  /** The exports of an optional data array. */
  function ExportsIf(data: Option<seq<Export>>): seq<Export> {
    if data.Some? then data.value else []
  }

  /** All exports of an array of reports. */
  function ReportExports(reports: seq<Report>): set<Export> {
    set i, e | 0 <= i < |reports| && e in ExportsIf(reports[i].data) :: e
  }

  /** An entry object of `host_map`. */
  class HostEntry {
    var time: Option<real>
    var hid: Option<string>
    var system: Option<string>
    var jid: Option<string>
    var uid: Option<string>
    var obdclass: Option<string>
    var data: Option<seq<Export>>
    var otime: Option<real>
    var odata: Option<seq<Export>>

    constructor ()
      ensures Value() == NEW_HOST
      ensures data == None
    {
      time, hid, system, jid, uid := None, None, None, Some("*"), Some("*");
      obdclass, data, otime, odata := None, None, None, None;
    }

    function Value(): Host
      reads this
    {
      Host(time, hid, system, jid, uid, obdclass, CoresIf(data), otime, CoresIf(odata))
    }

    /** The tags of a report that are present replace those of the entry. */
    method UpdateTags(report: Report)
      modifies this`system, this`jid, this`uid, this`obdclass
      ensures system == Either(report.system, old(system)) && obdclass == Either(report.obdclass, old(obdclass))
      ensures jid == Either(report.jid, old(jid)) && uid == Either(report.uid, old(uid))
    {
      if report.system.Some? {
        system := report.system;
      }
      if report.jid.Some? {
        jid := report.jid;
      }
      if report.uid.Some? {
        uid := report.uid;
      }
      if report.obdclass.Some? {
        obdclass := report.obdclass;
      }
    }

    /** The fields of a report that are present replace those of the entry. */
    method Update(report: Report)
      modifies this
      ensures Value() == Updated(old(Value()), report.Value())
      ensures data == if report.data.Some? then report.data else old(data)
    {
      hide CoresOf;
      if report.time.Some? {
        time := report.time;
      }
      if report.hostname.Some? {
        hid := report.hostname;
      }
      UpdateTags(report);
      if report.data.Some? {
        data := report.data;
      }
    }
  }

  /** The tags the server itself puts on an export. */
  const SERVER_TAGS: set<string> := {"server", "client", "system", "jid", "uid", "fid"}

  ghost predicate OwnTags(e: Export)
    reads e
  {
    e.tags.Keys <= if e.core.nid.None? then {"server"} else SERVER_TAGS
  }

  /** A report's step as initialising, updating and claiming. */
  lemma {:induction false} ReceivedInSteps(s: State, rpc: Rpc)
    requires rpc.hostname.Some?
    ensures var key := HostKey(rpc.hostname.value);
      var hosts := s.hosts[key := Existing(s, key)];
      var nids := if rpc.data.None? && rpc.nid.Some? then s.nids[rpc.nid.value := key] else s.nids;
      Received(s, rpc) == State(hosts[key := Updated(hosts[key], rpc)], nids)
  {
    hide Updated;
  }

  lemma {:induction false} NothingReceived(s: State, rpc: Rpc)
    requires rpc.hostname.None?
    ensures Received(s, rpc) == s
  {
  }

  lemma {:induction false} AppendDistinct(keys: seq<string>, key: string)
    requires Distinct(keys) && key !in keys
    ensures Distinct(keys + [key])
  {
  }

  /** Every alias is the object stored for the host that claimed it. */
  ghost predicate AliasMaps(hosts: map<string, HostEntry>, nids: map<string, HostEntry>, claimed: map<string, string>) {
    && nids.Keys == claimed.Keys
    && (forall n :: n in nids ==> claimed[n] in hosts && nids[n] == hosts[claimed[n]])
  }

  lemma {:induction false} AliasAdded(hosts: map<string, HostEntry>, nids: map<string, HostEntry>,
                                      claimed: map<string, string>, nid: string, key: string)
    requires AliasMaps(hosts, nids, claimed) && key in hosts
    ensures AliasMaps(hosts, nids[nid := hosts[key]], claimed[nid := key])
  {
  }

  class Server {
    var hosts: map<string, HostEntry>
    var order: seq<string>
    var nids: map<string, HostEntry>
    var rates: map<string, TagMap>
    ghost var claimed: map<string, string>
    ghost var owner: map<Export, string>

    constructor ()
      ensures Valid() && CleanTags() && Abs() == State(map[], map[])
      ensures hosts == map[] && owner == map[] && rates == map[]
    {
      hosts, order, nids, rates := map[], [], map[], map[];
      claimed, owner := map[], map[];
    }

    ghost function Entries(): set<HostEntry>
      reads this`hosts
    {
      set k | k in hosts :: hosts[k]
    }

    /** Every claimed client's entry is the very object stored for the host that claimed it. */
    ghost predicate Aliased()
      reads this`hosts, this`order, this`nids, this`claimed
    {
      && Distinct(order) && (forall k :: k in order <==> k in hosts)
      && (forall k, l :: k in hosts && l in hosts && k != l ==> hosts[k] != hosts[l])
      && AliasMaps(hosts, nids, claimed)
    }

    /** Every export in use belongs to one host's data. */
    ghost predicate Owned()
      reads this`hosts, this`owner, Entries()
    {
      forall k, e :: k in hosts && e in ExportsIf(hosts[k].data) ==> e in owner && owner[e] == k
    }

    ghost predicate Valid()
      reads this, Entries()
    {
      Aliased() && Owned()
    }

    ghost function HostValues(): map<string, Host>
      reads this`hosts, Entries()
    {
      map k | k in hosts :: hosts[k].Value()
    }

    ghost function Abs(): State
      reads this`hosts, this`claimed, Entries()
    {
      State(HostValues(), claimed)
    }

    /** The report's data was just parsed: none of its exports has been seen before. */
    ghost predicate Unused(data: Option<seq<Export>>)
      reads this
    {
      forall e :: e in ExportsIf(data) ==> e !in owner
    }

    /** Store a new entry object for a host. */
    method AddEntry(key: string, entry: HostEntry)
      requires Valid() && key !in hosts && entry !in Entries() && entry.data == None && entry.Value() == NEW_HOST
      modifies this`hosts, this`order
      ensures Valid() && hosts == old(hosts)[key := entry]
      ensures Abs() == State(old(Abs()).hosts[key := NEW_HOST], old(Abs()).nids)
    {
      hide HostEntry.Value, Distinct;
      assert Distinct(order + [key]) by {
        AppendDistinct(order, key);
      }
      hosts := hosts[key := entry];
      order := order + [key];
    }

    /** The entry of a host, made if there is none. */
    method InitEntry(key: string)
      requires Valid()
      modifies this`hosts, this`order
      ensures Valid() && key in hosts
      ensures Abs() == State(old(Abs()).hosts[key := Existing(old(Abs()), key)], old(Abs()).nids)
      ensures forall k :: k in old(hosts) ==> k in hosts && hosts[k] == old(hosts[k])
      ensures forall k :: k in hosts ==> hosts[k] in old(Entries()) || fresh(hosts[k])
    {
      if key !in hosts {
        var entry := new HostEntry();
        AddEntry(key, entry);
      }
    }

    /** Put a report's fields into its host's entry. */
    method UpdateEntry(key: string, report: Report)
      requires Aliased() && key in hosts
      modifies hosts[key]
      ensures Aliased()
      ensures Abs() == State(old(Abs()).hosts[key := Updated(old(Abs()).hosts[key], report.Value())], old(Abs()).nids)
      ensures hosts[key].data == if report.data.Some? then report.data else old(hosts[key].data)
      ensures forall k :: k in hosts && k != key ==> hosts[k].data == old(hosts[k].data)
    {
      hide Updated, Distinct, HostEntry.Value;
      hosts[key].Update(report);
    }

    /** The same, and the report's exports now belong to its host. */
    method UpdateFields(key: string, report: Report)
      requires Valid() && key in hosts && Unused(report.data)
      modifies hosts[key], this`owner
      ensures Valid() && owner.Keys == old(owner.Keys) + set e | e in ExportsIf(report.data)
      ensures Abs() == State(old(Abs()).hosts[key := Updated(old(Abs()).hosts[key], report.Value())], old(Abs()).nids)
    {
      hide Updated, Aliased, HostEntry.Value;
      UpdateEntry(key, report);
      owner := owner + map e | e in ExportsIf(report.data) :: key;
    }

    /**
     * `update_host_entry`: refines the step of the state machine; entries are never replaced, and a data-free report
     * makes its client an alias of its host's entry.
     */
    method UpdateHostEntry(report: Report) returns (rc: int)
      requires Valid() && Unused(report.data)
      modifies this, Entries()
      ensures Valid() && Abs() == Received(old(Abs()), report.Value())
      ensures rc == if report.hostname.None? then -1 else 1
      ensures forall k :: k in old(hosts) ==> k in hosts && hosts[k] == old(hosts[k])
      ensures rates == old(rates)
      ensures forall k :: k in hosts ==> hosts[k] in old(Entries()) || fresh(hosts[k])
      ensures owner.Keys <= old(owner.Keys) + set e | e in ExportsIf(report.data)
      ensures old(CleanTags()) && (forall e :: e in ExportsIf(report.data) ==> OwnTags(e)) ==> CleanTags()
    {
      hide Updated, Aliased, Owned, Received, OwnTags, Abs;
      if report.hostname.None? {
        NothingReceived(Abs(), report.Value());
        return -1;
      }
      var key := HostKey(report.hostname.value);
      ReceivedInSteps(Abs(), report.Value());
      InitEntry(key);
      UpdateFields(key, report);
      if report.data.None? && report.nid.Some? {
        Claim(report.nid.value, key);
      }
      return 1;
    }

    /** Make a client an alias of a host's entry. */
    method Claim(nid: string, key: string)
      requires Valid() && key in hosts
      modifies this`nids, this`claimed
      ensures Valid() && hosts == old(hosts) && Abs() == old(Abs()).(nids := old(Abs()).nids[nid := key])
    {
      hide HostEntry.Value, Distinct, AliasMaps;
      AliasAdded(hosts, nids, claimed, nid, key);
      nids := nids[nid := hosts[key]];
      claimed := claimed[nid := key];
    }

    /** `update_host_map` on an array of parsed reports. */
    method UpdateHostMap(reports: seq<Report>)
      requires Valid()
      requires forall i :: 0 <= i < |reports| ==> Unused(reports[i].data)
      requires forall i, j, e :: 0 <= i < j < |reports| && e in ExportsIf(reports[i].data) ==>
          e !in ExportsIf(reports[j].data)
      modifies this, Entries()
      ensures Valid() && Abs() == ReceivedAll(old(Abs()), ReportValues(reports))
      ensures old(CleanTags() && forall e :: e in ReportExports(reports) ==> OwnTags(e)) ==> CleanTags()
      ensures forall k :: k in old(hosts) ==> k in hosts && hosts[k] == old(hosts[k])
      ensures forall k :: k in hosts ==> hosts[k] in old(Entries()) || fresh(hosts[k])
      ensures owner.Keys <= old(owner.Keys) + ReportExports(reports)
      ensures rates == old(rates)
    {
      hide Received, Aliased, Owned;
      ghost var values := ReportValues(reports);
      ghost var clean := CleanTags() && forall e :: e in ReportExports(reports) ==> OwnTags(e);
      for i := 0 to |reports|
        invariant Valid() && Abs() == ReceivedAll(old(Abs()), values[..i]) && rates == old(rates)
        invariant forall j :: i <= j < |reports| ==> Unused(reports[j].data)
        invariant clean ==> CleanTags()
        invariant clean ==> forall j, e :: i <= j < |reports| && e in ExportsIf(reports[j].data) ==> OwnTags(e)
        invariant forall k :: k in old(hosts) ==> k in hosts && hosts[k] == old(hosts[k])
        invariant forall k :: k in hosts ==> hosts[k] in old(Entries()) || fresh(hosts[k])
        invariant owner.Keys <= old(owner.Keys) + ReportExports(reports)
      {
        assert values[..i + 1][..i] == values[..i];
        var rc := UpdateHostEntry(reports[i]);
      }
      assert values[..|reports|] == values;
    }

    // ---------- tag_stats ----------

    /** The server has put no other tags on the exports in use than its own. */
    ghost predicate CleanTags()
      reads this, owner.Keys
    {
      forall e :: e in owner ==> OwnTags(e)
    }

    /** What the entry of the host that claimed a client says, by way of the alias. */
    method LookUp(nid: string) returns (client: string, system: string, jid: string, uid: string)
      requires Valid()
      ensures var h := Claimer(Abs(), nid);
        && client == OrElse(h.hid, nid) && system == OrElse(h.system, "*")
        && jid == OrElse(h.jid, "*") && uid == OrElse(h.uid, "*")
    {
      client, system, jid, uid := nid, "*", "*", "*";
      if nid in nids {
        var entry := nids[nid];
        assert entry.Value() == Claimer(Abs(), nid);
        if entry.hid.Some? {
          client := entry.hid.value;
        }
        if entry.system.Some? {
          system := entry.system.value;
        }
        if entry.jid.Some? {
          jid := entry.jid.value;
        }
        if entry.uid.Some? {
          uid := entry.uid.value;
        }
      }
    }

    /** Put the tags on one export. */
    method TagExport(e: Export, server: string)
      requires Valid() && OwnTags(e)
      modifies e
      ensures Valid() && Abs() == old(Abs())
      ensures TaggedFor(e, Abs(), server) && OwnTags(e)
    {
      hide Aliased, HostEntry.Value, Claimer;
      var client, system, jid, uid := "", "", "", "";
      if e.core.nid.Some? {
        client, system, jid, uid := LookUp(e.core.nid.value);
      }
      ghost var s := Abs();
      PutTags(e, server, client, system, jid, uid);
      assert Abs() == s;
      assert e.tags == TagsOf(s, server, e.core);
    }

    /** The export loop for one host. */
    method TagHost(key: string)
      requires Valid() && CleanTags() && key in hosts
      modifies owner.Keys
      ensures Valid() && Abs() == old(Abs()) && CleanTags()
      ensures forall e :: e in ExportsIf(hosts[key].data) ==> TaggedFor(e, Abs(), key)
      ensures forall e :: e in owner && owner[e] != key ==> e.tags == old(e.tags)
    {
      hide TaggedFor, Aliased, OwnTags;
      if hosts[key].data.None? {
        return;
      }
      var data := hosts[key].data.value;
      ghost var s := Abs();
      assert forall e :: e in data ==> e in owner && owner[e] == key;
      for i := 0 to |data|
        invariant Valid() && Abs() == s && CleanTags()
        invariant forall e :: e in data[..i] ==> TaggedFor(e, s, key)
        invariant forall e :: e in owner && owner[e] != key ==> e.tags == old(e.tags)
      {
        assert data[i] in data && data[..i + 1] == data[..i] + [data[i]];
        TagExport(data[i], key);
      }
      assert data[..|data|] == data;
    }

    /** `tag_stats`: every export of every host's data gets the tags of the current state. */
    method TagStats()
      requires Valid() && CleanTags()
      modifies owner.Keys
      ensures Valid() && Abs() == old(Abs()) && CleanTags()
      ensures forall k, e :: k in hosts && e in ExportsIf(hosts[k].data) ==> TaggedFor(e, Abs(), k)
    {
      hide OwnTags, TagsOf, Abs;
      ghost var s := Abs();
      for i := 0 to |order|
        invariant Valid() && Abs() == s && CleanTags()
        invariant forall k, e :: k in order[..i] && e in ExportsIf(hosts[k].data) ==> TaggedFor(e, s, k)
      {
        assert order[i] in order && order[i] !in order[..i] && order[..i + 1] == order[..i] + [order[i]];
        assert forall k :: k in order[..i] ==> k in hosts;
        TagHost(order[i]);
      }
      assert order[..|order|] == order;
    }

    // ---------- group_statsbytags ----------

    /** The tick of one host's entry, as a step of the whole state. */
    method TickHost(key: string, wanted: set<string>) returns (tagMap: TagMap?)
      requires Valid() && key in hosts
      modifies hosts[key]
      ensures Valid()
      ensures var (h, emission) := HostTick(old(hosts[key].Value()), Values(ExportsIf(old(hosts[key].data))), wanted);
        && Abs() == State(old(Abs()).hosts[key := h], old(Abs()).nids)
        && (tagMap == null <==> emission.None?)
        && (tagMap != null ==> fresh(tagMap) && fresh(tagMap.Objects()) && Publishes(tagMap, emission.value))
      ensures hosts[key].data == old(hosts[key].data)
    {
      hide HostTick, HostEntry.Value, Values, Publishes, Distinct;
      tagMap := TickEntry(hosts[key], wanted);
    }

    /** What the published maps are after a host's tick, from what they were before. */
    ghost predicate Published(before: map<string, TagMap>, key: string, emission: Option<Emission>)
      reads this, if key in rates then {rates[key]} else {}, if key in rates then rates[key].objects else []
    {
      if emission.None? then rates == before
      else key in rates && rates == before[key := rates[key]] && Publishes(rates[key], emission.value)
    }

    /** One turn of the host loop: take over the new snapshot and publish its groups, if it is time to. */
    method GroupHost(key: string, wanted: set<string>)
      requires Valid() && key in hosts
      modifies hosts[key], this`rates
      ensures Valid()
      ensures var (h, emission) := HostTick(old(hosts[key].Value()), Values(ExportsIf(old(hosts[key].data))), wanted);
        && Abs() == State(old(Abs()).hosts[key := h], old(Abs()).nids)
        && Published(old(rates), key, emission)
        && (emission.Some? ==> fresh(rates[key]) && fresh(rates[key].Objects()))
      ensures hosts[key].data == old(hosts[key].data)
    {
      hide HostTick, HostEntry.Value, Values, Publishes, Distinct;
      var tagMap := TickHost(key, wanted);
      if tagMap != null {
        rates := rates[key := tagMap];
      }
    }

    /** The published maps and the objects in them. */
    ghost function PublishedObjects(): set<object>
      reads this, set k | k in rates :: rates[k]
    {
      (set k | k in rates :: rates[k] as object)
      + (set k, i | k in rates && 0 <= i < |rates[k].objects| :: rates[k].objects[i] as object)
    }

    /** After a host's turn its map is what the tick from `s` publishes, or the one before. */
    ghost predicate PublishedFrom(s: State, before: map<string, TagMap>, key: string)
      reads this, PublishedObjects()
    {
      var emission := EmissionOf(s, key);
      if emission.Some? then key in rates && Publishes(rates[key], emission.value)
      else (key in rates <==> key in before) && (key in rates ==> rates[key] == before[key])
    }

    /** The hosts of `done` have had their turn, the others have not. */
    ghost predicate Midway(s: State, before: map<string, TagMap>, done: seq<string>)
      reads this, Entries(), PublishedObjects()
    {
      && Abs() == PartlyTicked(s, done)
      && (forall k :: k in done || k !in hosts ==> PublishedFrom(s, before, k))
      && (forall k :: k in hosts && k !in done ==>
            (k in rates <==> k in before) && (k in rates ==> rates[k] == before[k]))
    }

    lemma {:induction false} MidwayStart(s: State)
      requires Aliased() && Abs() == s
      ensures Midway(s, rates, [])
    {
      hide TickOf, HostEntry.Value, Publishes;
      WhollyTicked(s, order);
    }

    lemma {:induction false} MidwayEnd(s: State, before: map<string, TagMap>)
      requires Aliased() && Midway(s, before, order) && s.hosts.Keys == hosts.Keys
      ensures Abs() == Ticked(s) && forall k :: PublishedFrom(s, before, k)
    {
      hide TickOf, HostEntry.Value, Publishes;
      WhollyTicked(s, order);
    }

    lemma {:induction false} ValueInAbs(key: string)
      requires key in hosts
      ensures Abs().hosts[key] == hosts[key].Value()
    {
    }

    /** One turn of the host loop within a tick from `s`. */
    method TurnOf(key: string, ghost s: State, ghost before: map<string, TagMap>, ghost done: seq<string>)
      requires Valid() && key in hosts && key !in done && key in s.hosts && Midway(s, before, done)
      requires forall e :: e in ExportsIf(hosts[key].data) ==> TaggedFor(e, s, key)
      modifies hosts[key], this`rates
      ensures Valid() && Midway(s, before, done + [key]) && hosts[key].data == old(hosts[key].data)
    {
      hide TickOf, HostEntry.Value, TaggedFor, Aliased, Owned, Publishes, PartlyTicked, HostTick, Abs;
      PartlyTickedStep(s, done, key);
      ValueInAbs(key);
      TaggedValues(s, key);
      label L:
      GroupHost(key, GROUP_TAGS);
      forall k | k != key && (k in done || k !in hosts) ensures PublishedFrom(s, before, k) {
        assert old@L(PublishedFrom(s, before, k));
      }
    }

    /** `group_statsbytags`: every host has its turn, in order. */
    method GroupStatsByTags(ghost s: State, ghost before: map<string, TagMap>)
      requires Valid() && Midway(s, before, []) && hosts.Keys == s.hosts.Keys
      requires forall k, e :: k in hosts && e in ExportsIf(hosts[k].data) ==> TaggedFor(e, s, k)
      modifies this`rates, Entries()
      ensures Valid() && Midway(s, before, order)
    {
      hide HostEntry.Value, TaggedFor, Midway;
      for i := 0 to |order|
        invariant Valid() && Midway(s, before, order[..i])
        invariant forall k, e :: k in hosts && e in ExportsIf(hosts[k].data) ==> TaggedFor(e, s, k)
      {
        var key := order[i];
        assert key in order && key !in order[..i] && order[..i + 1] == order[..i] + [key];
        TurnOf(key, s, before, order[..i]);
      }
      assert order[..|order|] == order;
    }

    /** The two calls of `set_shm_map`: refines the tick of the state machine and publishes exactly its emissions. */
    method TickAll()
      requires Valid() && CleanTags()
      modifies this`rates, Entries(), owner.Keys
      ensures Valid() && CleanTags() && Abs() == Ticked(old(Abs()))
      ensures forall k :: PublishedFrom(old(Abs()), old(rates), k)
    {
      hide HostEntry.Value, TaggedFor, OwnTags, Midway, Ticked, PublishedFrom;
      ghost var s, before := Abs(), rates;
      TagStats();
      MidwayStart(s);
      GroupStatsByTags(s, before);
      MidwayEnd(s, before);
    }

    lemma {:induction false} TaggedValues(s: State, key: string)
      requires key in hosts && key in s.hosts && hosts[key].Value() == s.hosts[key]
      requires forall e :: e in ExportsIf(hosts[key].data) ==> TaggedFor(e, s, key)
      ensures HostTick(hosts[key].Value(), Values(ExportsIf(hosts[key].data)), GROUP_TAGS) == TickOf(s, key)
    {
      hide HostTick, TagsOf;
      var data := ExportsIf(hosts[key].data);
      forall i | 0 <= i < |data| ensures data[i].Value() == Tagged(data[i].core, TagsOf(s, key, data[i].core)) {
        assert data[i] in data;
      }
      assert Values(data) == TagsFor(s, key);
    }
  }

  /** The map holds what a tick publishes. */
  ghost predicate Publishes(t: TagMap, e: Emission)
    reads t, t.objects
  {
    t.Valid() && t.time == Some(e.time) && t.Rows() == e.groups
  }

  /** The tick of one entry; a map is returned iff something is published. */
  method TickEntry(entry: HostEntry, wanted: set<string>) returns (tagMap: TagMap?)
    modifies entry`otime, entry`odata
    ensures var (h, emission) := HostTick(old(entry.Value()), Values(ExportsIf(entry.data)), wanted);
      && entry.Value() == h
      && (tagMap == null <==> emission.None?)
      && (tagMap != null ==> fresh(tagMap) && fresh(tagMap.Objects()) && Publishes(tagMap, emission.value))
  {
    hide CalcRates, ServerGroups;
    tagMap := null;
    if entry.time.None? || entry.data.None? {
      return;
    }
    if entry.otime.None? {
      entry.otime, entry.odata := entry.time, entry.data;
      return;
    }
    var dt := entry.time.value - entry.otime.value;
    if dt <= 0.0 {
      return;
    }
    var idt := 1.0 / dt;
    if entry.odata.None? {
      entry.odata := entry.data;
      return;
    }
    var rates := ComputeRates(entry.data.value, entry.odata.value, idt);
    entry.otime, entry.odata := entry.time, entry.data;
    tagMap := BuildGroups(rates, entry.obdclass, wanted);
    tagMap.time := entry.time;
  }

  /** The objects of the rates that are aggregated for a class. */
  ghost function CountedObjects(rates: seq<RateEntry>, obdclass: Option<string>): set<StatObject> {
    if IsCounted(obdclass) then ObjectsOfType(rates, obdclass.value) else {}
  }

  /** Aggregate by the server's class. */
  method GroupByClass(rates: seq<RateEntry>, obdclass: Option<string>, wanted: set<string>) returns (tagMap: TagMap)
    requires OwnObjects(rates)
    modifies CountedObjects(rates, obdclass)
    ensures fresh(tagMap) && tagMap.Valid() && tagMap.Objects() <= CountedObjects(rates, obdclass)
    ensures tagMap.Rows() == ClassGroups(old(RateRows(rates)), obdclass, wanted)
  {
    hide GroupRows, AggregateRows;
    if obdclass == Some("mds") {
      tagMap := AggregateStat(rates, wanted, "mds");
    } else if obdclass == Some("oss") {
      tagMap := AggregateStat(rates, wanted, "oss");
    } else {
      tagMap := new TagMap();
    }
  }

  /** Different types have different objects. */
  lemma {:induction false} TypesApart(rates: seq<RateEntry>, obdclass: Option<string>)
    requires OwnObjects(rates)
    ensures CountedObjects(rates, obdclass) !! ObjectsOfType(rates, "cpu")
    ensures CountedObjects(rates, obdclass) <= ObjectsOf(rates) && ObjectsOfType(rates, "cpu") <= ObjectsOf(rates)
  {
  }

  /** Aggregate by the server's class and by cpu, and copy the kernel's load. */
  method BuildGroups(rates: seq<RateEntry>, obdclass: Option<string>, wanted: set<string>) returns (tagMap: TagMap)
    requires OwnObjects(rates)
    modifies ObjectsOf(rates)
    ensures fresh(tagMap) && tagMap.Valid() && tagMap.Objects() <= ObjectsOf(rates)
    ensures tagMap.Rows() == ServerGroups(old(RateRows(rates)), obdclass, wanted)
  {
    hide GroupRows, AggregateRows, ClassGroups, WithLoad, CountedObjects;
    TypesApart(rates, obdclass);
    ghost var rows := RateRows(rates);
    tagMap := GroupByClass(rates, obdclass, wanted);
    assert forall i :: 0 <= i < |rates| && rates[i].statsType == "cpu" ==>
        rates[i].stats in ObjectsOfType(rates, "cpu") && RateRows(rates)[i] == rows[i];
    AggregateSame(RateRows(rates), rows, "cpu");
    ghost var groups := tagMap.Rows();
    var cpuMap := AggregateStat(rates, wanted, "cpu");
    assert tagMap.Rows() == groups;
    CopyLoad(tagMap, cpuMap);
  }

  /** Set the load of every group. */
  method SetLoad(tagMap: TagMap, load: real)
    requires tagMap.Valid()
    modifies tagMap.Objects()
    ensures tagMap.Rows() == Loaded(old(tagMap.Rows()), load)
  {
    ghost var rows := tagMap.Rows();
    for j := 0 to |tagMap.objects|
      invariant forall m :: 0 <= m < j ==> tagMap.objects[m].values == rows[m].stats["load" := load]
      invariant forall m :: j <= m < |rows| ==> tagMap.objects[m].values == rows[m].stats
    {
      tagMap.objects[j].values := tagMap.objects[j].values["load" := load];
    }
  }

  lemma {:induction false} LoadedAgain(rows: seq<Row>, cpu: seq<Row>, load: real)
    ensures Loaded(WithLoad(rows, cpu), load) == Loaded(rows, load)
  {
    forall i | 0 <= i < |rows| ensures Loaded(WithLoad(rows, cpu), load)[i] == Loaded(rows, load)[i] {
    }
  }

  /** The load loops: the system time of the cpu group becomes the load of every group. */
  method CopyLoad(tagMap: TagMap, cpuMap: TagMap)
    requires tagMap.Valid() && cpuMap.Valid() && tagMap.Objects() !! cpuMap.Objects()
    modifies tagMap.Objects()
    ensures tagMap.Rows() == WithLoad(old(tagMap.Rows()), cpuMap.Rows())
  {
    ghost var rows, cpu := tagMap.Rows(), cpuMap.Rows();
    for i := 0 to |cpuMap.objects|
      invariant tagMap.Rows() == WithLoad(rows, cpu[..i])
      invariant cpuMap.Rows() == cpu
    {
      hide Loaded;
      assert cpuMap.objects[i].values == cpu[i].stats && cpu[..i + 1][i] == cpu[i];
      var load := Get(cpuMap.objects[i].values, "system");
      LoadedAgain(rows, cpu[..i], load);
      SetLoad(tagMap, load);
    }
    assert cpu[..|cpu|] == cpu;
  }

  /** The server's name for every export, the rest for a client's. */
  method PutTags(e: Export, server: string, client: string, system: string, jid: string, uid: string)
    requires OwnTags(e)
    modifies e
    ensures OwnTags(e)
    ensures e.tags == if e.core.nid.None? then map["server" := server]
                      else map["server" := server, "client" := client, "system" := system, "jid" := jid, "uid" := uid,
                               "fid" := if e.core.target.Some? then Fid(e.core.target.value) else "*"]
  {
    if e.core.nid.None? {
      e.tags := e.tags["server" := server];
      return;
    }
    var fid := if e.core.target.Some? then Fid(e.core.target.value) else "*";
    e.tags := e.tags["server" := server]["client" := client]["system" := system];
    e.tags := e.tags["jid" := jid]["uid" := uid]["fid" := fid];
  }

  /** The export carries the tags a state gives it. */
  ghost predicate TaggedFor(e: Export, s: State, server: string)
    reads e
  {
    e.tags == TagsOf(s, server, e.core)
  }

  function ReportValues(reports: seq<Report>): (rpcs: seq<Rpc>)
    ensures |rpcs| == |reports|
  {
    seq(|reports|, i requires 0 <= i < |reports| => reports[i].Value())
  }
}
