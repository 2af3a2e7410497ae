/** The server's state, on values: what an RPC and a tick do to it, and runs of them. */
module HostMap {
  import opened Options
  import opened Grouping
  import opened Rates

  /** A report: every field of the JSON object may be missing. */
  datatype Rpc = Rpc(
    hostname: Option<string>,
    time: Option<real>,
    system: Option<string>,
    jid: Option<string>,
    uid: Option<string>,
    obdclass: Option<string>,
    data: Option<seq<Counters>>,
    nid: Option<string>)

  /** An entry of `host_map`. */
  datatype Host = Host(
    time: Option<real>,
    hid: Option<string>,
    system: Option<string>,
    jid: Option<string>,
    uid: Option<string>,
    obdclass: Option<string>,
    data: Option<seq<Counters>>,
    otime: Option<real>,
    odata: Option<seq<Counters>>)

  /** Entries by host key, and for every claimed client the key of the host that claimed it. */
  datatype State = State(hosts: map<string, Host>, nids: map<string, string>)

  /** A host name as it is kept in its 64 byte buffer. */
  function HostKey(hostname: string): string {
    if |hostname| < 64 then hostname else hostname[..63]
  }

  /** Two host names share an entry exactly when they are equal, or agree on the 63 characters the buffer holds. */
  lemma {:induction false} SameEntry(a: string, b: string)
    ensures HostKey(a) == HostKey(b) <==> a == b || (|a| >= 63 && |b| >= 63 && a[..63] == b[..63])
  {
    assert |a| == 63 ==> a[..63] == a;
    assert |b| == 63 ==> b[..63] == b;
  }

  const NEW_HOST := Host(None, None, None, Some("*"), Some("*"), None, None, None, None)

  function Either<T>(first: Option<T>, second: Option<T>): Option<T> {
    if first.Some? then first else second
  }

  function Updated(h: Host, rpc: Rpc): Host {
    h.(time := Either(rpc.time, h.time),
       hid := Either(rpc.hostname, h.hid),
       system := Either(rpc.system, h.system),
       jid := Either(rpc.jid, h.jid),
       uid := Either(rpc.uid, h.uid),
       obdclass := Either(rpc.obdclass, h.obdclass),
       data := Either(rpc.data, h.data))
  }

  /** The entry of a host, a new one if there is none. */
  function Existing(s: State, key: string): Host {
    if key in s.hosts then s.hosts[key] else NEW_HOST
  }

  /** `update_host_entry` */
  function Received(s: State, rpc: Rpc): State {
    if rpc.hostname.None? then s
    else
      var key := HostKey(rpc.hostname.value);
      State(s.hosts[key := Updated(Existing(s, key), rpc)],
            if rpc.data.None? && rpc.nid.Some? then s.nids[rpc.nid.value := key] else s.nids)
  }

  /** `update_host_map` on an array: its entries in order. */
  function ReceivedAll(s: State, rpcs: seq<Rpc>): State {
    if rpcs == [] then s else Received(ReceivedAll(s, rpcs[..|rpcs| - 1]), rpcs[|rpcs| - 1])
  }

  // ---------- tags ----------

  /** The file system name: the target, cut to its buffer, without its last 8 characters. */
  function Fid(target: string): string {
    var kept := if |target| < 32 then target else target[..31];
    if |kept| < 8 then "" else kept[..|kept| - 8]
  }

  /** The file system of a target: the target is its name and eight more characters. */
  lemma {:induction false} FidOf(fs: string, rest: string)
    requires |rest| == 8
    ensures |fs| + 8 < 32 ==> Fid(fs + rest) == fs
    ensures |fs| + 8 >= 32 ==> Fid(fs + rest) == (fs + rest)[..23]
  {
    var target := fs + rest;
    if |target| < 32 {
      assert target[..|target| - 8] == fs;
    } else {
      assert target[..31][..23] == target[..23];
    }
  }

  function OrElse(value: Option<string>, default: string): string {
    if value.Some? then value.value else default
  }

  /** The entry of the host that claimed a client. */
  function Claimer(s: State, nid: string): Host {
    if nid in s.nids && s.nids[nid] in s.hosts then s.hosts[s.nids[nid]]
    else NEW_HOST.(jid := None, uid := None)
  }

  /** The tags `tag_stats` puts on an entry of server `key`. */
  function TagsOf(s: State, key: string, c: Counters): Tags {
    if c.nid.None? then map["server" := key]
    else
      var h := Claimer(s, c.nid.value);
      map["server" := key,
          "client" := OrElse(h.hid, c.nid.value),
          "system" := OrElse(h.system, "*"),
          "jid" := OrElse(h.jid, "*"),
          "uid" := OrElse(h.uid, "*"),
          "fid" := if c.target.Some? then Fid(c.target.value) else "*"]
  }

  function TaggedData(s: State, key: string, data: seq<Counters>): (r: seq<Tagged>)
    ensures |r| == |data|
  {
    seq(|data|, i requires 0 <= i < |data| => Tagged(data[i], TagsOf(s, key, data[i])))
  }

  // ---------- ticks ----------

  /** The tags the server groups by. */
  const GROUP_TAGS: set<string> := {"system", "fid", "server", "jid", "uid"}

  function Loaded(rows: seq<Row>, load: real): (r: seq<Row>)
    ensures |r| == |rows|
  {
    seq(|rows|, i requires 0 <= i < |rows| => Row(rows[i].tags, rows[i].stats["load" := load]))
  }

  /** The kernel's load copied to every group; the last cpu group counts. */
  function WithLoad(rows: seq<Row>, cpu: seq<Row>): (r: seq<Row>)
    ensures |r| == |rows|
  {
    if cpu == [] then rows else Loaded(rows, Get(cpu[|cpu| - 1].stats, "system"))
  }

  /** Whether rates of this class are aggregated at all. */
  predicate IsCounted(obdclass: Option<string>) {
    obdclass == Some("mds") || obdclass == Some("oss")
  }

  /** The groups of a server's own traffic. */
  function ClassGroups(rates: seq<RateRow>, obdclass: Option<string>, wanted: set<string>): seq<Row> {
    if IsCounted(obdclass) then GroupRows(AggregateRows(rates, obdclass.value), wanted) else []
  }

  /** The groups published for a server of class `obdclass`. */
  function ServerGroups(rates: seq<RateRow>, obdclass: Option<string>, wanted: set<string>): seq<Row> {
    WithLoad(ClassGroups(rates, obdclass, wanted), GroupRows(AggregateRows(rates, "cpu"), wanted))
  }

  /** What a server's tick publishes. */
  datatype Emission = Emission(time: real, dt: real, groups: seq<Row>)

  /** `group_statsbytags` for one host entry whose data array has been tagged. */
  function HostTick(h: Host, tagged: seq<Tagged>, wanted: set<string>): (Host, Option<Emission>) {
    if h.time.None? || h.data.None? then (h, None)
    else if h.otime.None? then (h.(otime := h.time, odata := h.data), None)
    else
      var dt := h.time.value - h.otime.value;
      if dt <= 0.0 then (h, None)
      else if h.odata.None? then (h.(odata := h.data), None)
      else
        var rates := CalcRates(tagged, h.odata.value, 1.0 / dt);
        var emission := Emission(h.time.value, dt, ServerGroups(rates, h.obdclass, wanted));
        (h.(otime := h.time, odata := h.data), Some(emission))
  }

  function TagsFor(s: State, key: string): seq<Tagged>
    requires key in s.hosts
  {
    if s.hosts[key].data.Some? then TaggedData(s, key, s.hosts[key].data.value) else []
  }

  function TickOf(s: State, key: string): (Host, Option<Emission>)
    requires key in s.hosts
  {
    HostTick(s.hosts[key], TagsFor(s, key), GROUP_TAGS)
  }

  /** What host `key` publishes in a tick from state `s`, if it does. */
  function EmissionOf(s: State, key: string): Option<Emission> {
    if key in s.hosts then TickOf(s, key).1 else None
  }

  /** `set_shm_map`'s two calls: tag every export, then group every server's rates. */
  function Ticked(s: State): State {
    s.(hosts := map key | key in s.hosts :: TickOf(s, key).0)
  }

  /** The state in the middle of a tick, the hosts of `done` having had their turn. */
  ghost function PartlyTicked(s: State, done: seq<string>): State {
    s.(hosts := map key | key in s.hosts :: if key in done then TickOf(s, key).0 else s.hosts[key])
  }

  lemma {:induction false} PartlyTickedStep(s: State, done: seq<string>, key: string)
    requires key in s.hosts && key !in done
    ensures var before := PartlyTicked(s, done);
      && before.hosts[key] == s.hosts[key] && before.nids == s.nids
      && PartlyTicked(s, done + [key]) == State(before.hosts[key := TickOf(s, key).0], before.nids)
  {
    hide TickOf;
  }

  lemma {:induction false} WhollyTicked(s: State, done: seq<string>)
    requires forall key :: key in s.hosts ==> key in done
    ensures PartlyTicked(s, []) == s && PartlyTicked(s, done) == Ticked(s)
  {
    hide TickOf;
  }

  // ---------- runs ----------

  datatype Action = Receive(rpc: Rpc) | Tick

  function Step(s: State, a: Action): State {
    match a
    case Receive(rpc) => Received(s, rpc)
    case Tick => Ticked(s)
  }

  /** The state after the actions, in order, from the empty maps. */
  function Run(actions: seq<Action>): State {
    if actions == [] then State(map[], map[]) else Step(Run(actions[..|actions| - 1]), actions[|actions| - 1])
  }

  /** Every claimed client belongs to a host that has an entry: the branch for a missing one is never taken. */
  lemma {:induction false} ClaimersExist(actions: seq<Action>)
    ensures forall n :: n in Run(actions).nids ==> Run(actions).nids[n] in Run(actions).hosts
  {
    if actions != [] {
      ClaimersExist(actions[..|actions| - 1]);
    }
  }

  // ---------- accepted snapshots ----------

  /** A data array with its time and class, as the rate computation took it over. */
  datatype Snapshot = Snapshot(time: real, data: seq<Counters>, obdclass: Option<string>)

  /** The snapshot a tick takes over for `key`: the first complete one, then every one it emits rates for. */
  function Taken(s: State, key: string): Option<Snapshot> {
    if key !in s.hosts || s.hosts[key].time.None? || s.hosts[key].data.None? then None
    else
      var h := s.hosts[key];
      if h.otime.None? || h.otime.value < h.time.value then Some(Snapshot(h.time.value, h.data.value, h.obdclass))
          else None
  }

  /** All snapshots taken over for `key` in a run. */
  function Accepted(actions: seq<Action>, key: string): seq<Snapshot> {
    if actions == [] then []
    else
      var k := |actions| - 1;
      var taken := if actions[k].Tick? then Taken(Run(actions[..k]), key) else None;
      Accepted(actions[..k], key) + if taken.Some? then [taken.value] else []
  }

  /** How a host's old time and old data relate to the snapshots accepted so far. */
  ghost predicate Follows(h: Host, accepted: seq<Snapshot>) {
    && (h.otime.Some? <==> accepted != []) && (h.odata.Some? <==> accepted != [])
    && (accepted != [] ==>
          var last := accepted[|accepted| - 1];
          h.otime == Some(last.time) && h.odata == Some(last.data))
  }

  ghost predicate TimesIncrease(accepted: seq<Snapshot>) {
    forall i, j :: 0 <= i < j < |accepted| ==> accepted[i].time < accepted[j].time
  }

  /**
   * The snapshot state machine, over every run: old time and old data are both present or both absent, they are those
   * of the last accepted snapshot, and times strictly increase from one accepted snapshot to the next.
   */
  lemma {:induction false} SnapshotsFollow(actions: seq<Action>, key: string)
    ensures TimesIncrease(Accepted(actions, key))
    ensures key in Run(actions).hosts ==> Follows(Run(actions).hosts[key], Accepted(actions, key))
    ensures key !in Run(actions).hosts ==> Accepted(actions, key) == []
  {
    if actions != [] {
      var k := |actions| - 1;
      SnapshotsFollow(actions[..k], key);
      var s, accepted := Run(actions[..k]), Accepted(actions[..k], key);
      assert accepted + [] == accepted;
      if actions[k].Tick? && key in s.hosts {
        TickFollows(s.hosts[key], TagsFor(s, key), accepted, if Taken(s, key).Some? then [Taken(s, key).value] else []);
      }
    }
  }

  lemma {:induction false} TickFollows(h: Host, tagged: seq<Tagged>, accepted: seq<Snapshot>, more: seq<Snapshot>)
    requires Follows(h, accepted) && TimesIncrease(accepted)
    requires more == if h.time.Some? && h.data.Some? && (h.otime.None? || h.otime.value < h.time.value)
                     then [Snapshot(h.time.value, h.data.value, h.obdclass)] else []
    ensures Follows(HostTick(h, tagged, GROUP_TAGS).0, accepted + more) && TimesIncrease(accepted + more)
    ensures HostTick(h, tagged, GROUP_TAGS).1.Some? <==> more != [] && accepted != []
  {
    hide CalcRates, ServerGroups;
    assert accepted + [] == accepted;
    if more != [] && accepted != [] {
      assert forall i :: 0 <= i < |accepted| ==> accepted[i].time <= accepted[|accepted| - 1].time;
    }
  }

  /** The branch for a missing old data array is never taken: once there is an old time there is old data. */
  lemma {:induction false} OldDataIsThere(actions: seq<Action>, key: string)
    requires key in Run(actions).hosts && Run(actions).hosts[key].otime.Some?
    ensures Run(actions).hosts[key].odata.Some?
  {
    SnapshotsFollow(actions, key);
  }

  /** A report to `key` with this time and data. */
  ghost predicate Reports(a: Action, key: string, time: Option<real>, data: Option<seq<Counters>>) {
    && a.Receive? && a.rpc.hostname.Some? && HostKey(a.rpc.hostname.value) == key
    && a.rpc.time == time && a.rpc.data == data
  }

  /** Some report of the run to `key` carried this time and data together. */
  ghost predicate Reported(actions: seq<Action>, key: string, time: real, data: seq<Counters>) {
    exists i :: 0 <= i < |actions| && Reports(actions[i], key, Some(time), Some(data))
  }

  /** Every report to `key` carries time and data together or neither. */
  ghost predicate Together(actions: seq<Action>, key: string) {
    forall i, time, data :: 0 <= i < |actions| && Reports(actions[i], key, time, data) ==> (time.Some? <==> data.Some?)
  }

  /** What the entry of `key` and its accepted snapshots are made of. */
  ghost predicate FromReports(actions: seq<Action>, key: string) {
    && (forall j :: 0 <= j < |Accepted(actions, key)| ==>
          Reported(actions, key, Accepted(actions, key)[j].time, Accepted(actions, key)[j].data))
    && (key in Run(actions).hosts ==>
          var h := Run(actions).hosts[key];
          (h.time.Some? <==> h.data.Some?) && (h.time.Some? ==> Reported(actions, key, h.time.value, h.data.value)))
  }

  lemma {:induction false} ReportedLater(actions: seq<Action>, a: Action, key: string, time: real, data: seq<Counters>)
    ensures Reported(actions, key, time, data) ==> Reported(actions + [a], key, time, data)
    ensures Reports(a, key, Some(time), Some(data)) ==> Reported(actions + [a], key, time, data)
  {
    if i :| 0 <= i < |actions| && Reports(actions[i], key, Some(time), Some(data)) {
      assert (actions + [a])[i] == actions[i];
    }
    assert (actions + [a])[|actions|] == a;
  }

  /**
   * If every report to `key` carries time and data together, so does every accepted snapshot: both come from one
   * report.
   */
  lemma {:induction false} TimeAndDataTogether(actions: seq<Action>, key: string)
    requires Together(actions, key)
    ensures FromReports(actions, key)
  {
    hide TickOf, Reports;
    if actions != [] {
      var k := |actions| - 1;
      var before, a := actions[..k], actions[k];
      assert actions == before + [a];
      assert Together(before, key) by {
        assert forall i :: 0 <= i < k ==> before[i] == actions[i];
      }
      TimeAndDataTogether(before, key);
      forall time, data ensures Reported(before, key, time, data) ==> Reported(actions, key, time, data) {
        ReportedLater(before, a, key, time, data);
      }
      match a {
        case Receive(rpc) => ReceiveFromReports(before, rpc, key);
        case Tick => TickFromReports(before, key);
      }
    }
  }

  lemma {:induction false} ReceiveFromReports(before: seq<Action>, rpc: Rpc, key: string)
    requires FromReports(before, key) && Together(before + [Receive(rpc)], key)
    requires forall time, data :: Reported(before, key, time, data) ==>
        Reported(before + [Receive(rpc)], key, time, data)
    ensures FromReports(before + [Receive(rpc)], key)
  {
    hide Reported;
    var actions := before + [Receive(rpc)];
    assert actions[..|before|] == before && actions[|before|] == Receive(rpc);
    assert Accepted(before, key) + [] == Accepted(before, key);
    if rpc.hostname.Some? && HostKey(rpc.hostname.value) == key {
      assert Reports(actions[|before|], key, rpc.time, rpc.data);
      if rpc.time.Some? {
        ReportedLater(before, Receive(rpc), key, rpc.time.value, rpc.data.value);
      }
    }
  }

  lemma {:induction false} TickFromReports(before: seq<Action>, key: string)
    requires FromReports(before, key)
    requires forall time, data :: Reported(before, key, time, data) ==> Reported(before + [Tick], key, time, data)
    ensures FromReports(before + [Tick], key)
  {
    hide Reported, TickOf;
    var actions, s := before + [Tick], Run(before);
    assert actions[..|before|] == before && actions[|before|] == Tick;
    if key in s.hosts {
      TickKeepsReport(s, key);
    }
    assert Accepted(before, key) + [] == Accepted(before, key);
  }

  lemma {:induction false} TickKeepsReport(s: State, key: string)
    requires key in s.hosts
    ensures var h := TickOf(s, key).0; h.time == s.hosts[key].time && h.data == s.hosts[key].data
  {
    hide CalcRates, ServerGroups;
  }
}
