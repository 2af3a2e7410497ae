/** The tags of an export agree with the history of reports. */
module History {
  import opened Options
  import opened Rates
  import opened HostMap

  /** A report that names a host. */
  predicate Names(a: Action, key: string) {
    a.Receive? && a.rpc.hostname.Some? && HostKey(a.rpc.hostname.value) == key
  }

  /** A data-free report that claims a client for its host. */
  predicate Claims(a: Action, nid: string) {
    a.Receive? && a.rpc.hostname.Some? && a.rpc.data.None? && a.rpc.nid == Some(nid)
  }

  /** The host that last claimed a client. */
  function LastClaimer(actions: seq<Action>, nid: string): Option<string> {
    if actions == [] then None
    else
      var a := actions[|actions| - 1];
      if Claims(a, nid) then Some(HostKey(a.rpc.hostname.value)) else LastClaimer(actions[..|actions| - 1], nid)
  }

  /** The last value reported for a host through `field`. */
  function LastReported<T>(actions: seq<Action>, key: string, field: Rpc -> Option<T>): Option<T> {
    if actions == [] then None
    else
      var a := actions[|actions| - 1];
      if Names(a, key) && field(a.rpc).Some? then field(a.rpc)
      else LastReported(actions[..|actions| - 1], key, field)
  }

  function Jid(rpc: Rpc): Option<string> { rpc.jid }
  function Uid(rpc: Rpc): Option<string> { rpc.uid }
  function System(rpc: Rpc): Option<string> { rpc.system }
  function Hostname(rpc: Rpc): Option<string> { rpc.hostname }
  function Time(rpc: Rpc): Option<real> { rpc.time }
  function Data(rpc: Rpc): Option<seq<Counters>> { rpc.data }
  function Class(rpc: Rpc): Option<string> { rpc.obdclass }

  /** A host entry holds what was last reported for it. */
  ghost predicate Recorded(h: Host, actions: seq<Action>, key: string) {
    && h.jid == Some(OrElse(LastReported(actions, key, Jid), "*"))
    && h.uid == Some(OrElse(LastReported(actions, key, Uid), "*"))
    && h.system == LastReported(actions, key, System)
    && h.hid == LastReported(actions, key, Hostname)
    && h.time == LastReported(actions, key, Time)
    && h.data == LastReported(actions, key, Data)
    && h.obdclass == LastReported(actions, key, Class)
  }

  lemma {:induction false} TickKeepsTags(s: State, key: string)
    requires key in s.hosts
    ensures var h, before := TickOf(s, key).0, s.hosts[key];
      && h.jid == before.jid && h.uid == before.uid && h.system == before.system && h.hid == before.hid
      && h.time == before.time && h.data == before.data && h.obdclass == before.obdclass
  {
    hide CalcRates, ServerGroups;
  }

  /** Nothing was ever reported for this host. */
  ghost predicate Unreported(actions: seq<Action>, key: string) {
    && LastReported(actions, key, Jid) == LastReported(actions, key, Uid) == None
    && LastReported(actions, key, System) == LastReported(actions, key, Hostname) == None
    && LastReported(actions, key, Class) == None && LastReported(actions, key, Time) == None
    && LastReported(actions, key, Data) == None
  }

  lemma {:induction false} LastStep<T>(actions: seq<Action>, a: Action, key: string, field: Rpc -> Option<T>)
    ensures LastReported(actions + [a], key, field)
         == if Names(a, key) && field(a.rpc).Some? then field(a.rpc) else LastReported(actions, key, field)
  {
    assert (actions + [a])[..|actions|] == actions;
  }

  lemma {:induction false} LastSteps(actions: seq<Action>, a: Action, key: string)
    requires !Names(a, key)
    ensures forall h :: Recorded(h, actions, key) ==> Recorded(h, actions + [a], key)
    ensures Unreported(actions, key) ==> Unreported(actions + [a], key)
  {
    hide LastReported;
    LastStep(actions, a, key, Jid);
    LastStep(actions, a, key, Uid);
    LastStep(actions, a, key, System);
    LastStep(actions, a, key, Hostname);
    LastStep(actions, a, key, Time);
    LastStep(actions, a, key, Data);
    LastStep(actions, a, key, Class);
  }

  /** A report updates the record of its host. */
  lemma {:induction false} ReportRecorded(s: State, actions: seq<Action>, a: Action, key: string)
    requires Names(a, key)
    requires if key in s.hosts then Recorded(s.hosts[key], actions, key) else Unreported(actions, key)
    ensures var t := Received(s, a.rpc); key in t.hosts && Recorded(t.hosts[key], actions + [a], key)
  {
    hide LastReported;
    LastStep(actions, a, key, Jid);
    LastStep(actions, a, key, Uid);
    LastStep(actions, a, key, System);
    LastStep(actions, a, key, Hostname);
    LastStep(actions, a, key, Time);
    LastStep(actions, a, key, Data);
    LastStep(actions, a, key, Class);
  }

  /** A tick, or a report to another host, changes nothing that is recorded for a host. */
  lemma {:induction false} OthersKeep(s: State, a: Action, key: string, actions: seq<Action>)
    requires !Names(a, key)
    ensures key in Step(s, a).hosts <==> key in s.hosts
    ensures key in s.hosts && Recorded(s.hosts[key], actions, key) ==> Recorded(Step(s, a).hosts[key], actions, key)
  {
    hide TickOf, LastReported;
    if a.Tick? && key in s.hosts {
      TickKeepsTags(s, key);
    }
  }

  /** Over every run: a host has an entry iff some report named it, and the entry holds what was last reported. */
  lemma {:induction false} EntriesRecord(actions: seq<Action>, key: string)
    ensures key in Run(actions).hosts <==> exists i :: 0 <= i < |actions| && Names(actions[i], key)
    ensures key in Run(actions).hosts ==> Recorded(Run(actions).hosts[key], actions, key)
    ensures key !in Run(actions).hosts ==> Unreported(actions, key)
    decreases |actions|
  {
    hide Recorded, Unreported, Received, Ticked, Names;
    if actions == [] {
      NothingReported(key);
    } else {
      var k := |actions| - 1;
      var before, a := actions[..k], actions[k];
      EntriesRecord(before, key);
      assert forall i :: 0 <= i < k ==> before[i] == actions[i];
      assert before + [a] == actions;
      if Names(a, key) {
        ReportRecorded(Run(before), before, a, key);
        NamesReceives(a, key);
      } else {
        OthersKeep(Run(before), a, key, before);
        LastSteps(before, a, key);
      }
    }
  }

  lemma {:induction false} NamesReceives(a: Action, key: string)
    requires Names(a, key)
    ensures a.Receive?
  {
  }

  lemma {:induction false} NothingReported(key: string)
    ensures Unreported([], key)
  {
  }

  /** Over every run: `nid_map` sends a client to the host that last claimed it. */
  lemma {:induction false} ClaimsRecord(actions: seq<Action>, nid: string)
    ensures var nids := Run(actions).nids;
      LastClaimer(actions, nid) == if nid in nids then Some(nids[nid]) else None
  {
    if actions != [] {
      ClaimsRecord(actions[..|actions| - 1], nid);
    }
  }

  /** A host's last report of a field, or `*`, if some host claimed the client. */
  function ClaimedValue(actions: seq<Action>, nid: string, field: Rpc -> Option<string>, default: string): string {
    var claimer := LastClaimer(actions, nid);
    if claimer.None? then default else OrElse(LastReported(actions, claimer.value, field), default)
  }

  /**
   * Over every run: an export of client n carries the jid, uid and system most recently reported for the host that
   * last claimed n in a data-free report, or `*`; the client tag is that host's name, or n itself.
   */
  lemma {:induction false} TagsAgreeWithHistory(actions: seq<Action>, server: string, c: Counters)
    requires c.nid.Some?
    ensures var tags, n := TagsOf(Run(actions), server, c), c.nid.value;
      && tags["jid"] == ClaimedValue(actions, n, Jid, "*")
      && tags["uid"] == ClaimedValue(actions, n, Uid, "*")
      && tags["system"] == ClaimedValue(actions, n, System, "*")
      && tags["client"] == ClaimedValue(actions, n, Hostname, n)
      && tags["server"] == server
  {
    hide Recorded, LastReported, LastClaimer;
    var s, n := Run(actions), c.nid.value;
    ClaimsRecord(actions, n);
    ClaimersExist(actions);
    if n in s.nids {
      EntriesRecord(actions, s.nids[n]);
      RecordedTags(s.hosts[s.nids[n]], actions, s.nids[n]);
    }
  }

  lemma {:induction false} RecordedTags(h: Host, actions: seq<Action>, key: string)
    requires Recorded(h, actions, key)
    ensures OrElse(h.jid, "*") == OrElse(LastReported(actions, key, Jid), "*")
    ensures OrElse(h.uid, "*") == OrElse(LastReported(actions, key, Uid), "*")
    ensures h.system == LastReported(actions, key, System) && h.hid == LastReported(actions, key, Hostname)
  {
  }

  // ---------- snapshots and emissions ----------

  /** The last accepted snapshot is older than this time, or there is none. */
  predicate Newer(accepted: seq<Snapshot>, time: real) {
    accepted == [] || accepted[|accepted| - 1].time < time
  }

  /**
   * Over every run, what a tick takes over and what it publishes, from the history of reports alone: it takes over
   * the last reported time, data and class exactly when both time and data were reported and the time is later than
   * the last one taken over, and it publishes exactly when moreover that is not the first; what it publishes has that
   * time and the interval between the two.
   */
  lemma {:induction false} EmitsExactly(actions: seq<Action>, key: string)
    ensures var accepted := Accepted(actions, key);
      var time, data := LastReported(actions, key, Time), LastReported(actions, key, Data);
      var due := time.Some? && data.Some? && Newer(accepted, time.value);
      && Accepted(actions + [Tick], key)
         == accepted + (if due then [Snapshot(time.value, data.value, LastReported(actions, key, Class))] else [])
      && (EmissionOf(Run(actions), key).Some? <==> due && accepted != [])
      && (EmissionOf(Run(actions), key).Some? ==>
            var e := EmissionOf(Run(actions), key).value;
            e.time == time.value && e.dt == time.value - accepted[|accepted| - 1].time)
  {
    hide Run, CalcRates, ServerGroups, LastReported, TagsFor;
    EntriesRecord(actions, key);
    SnapshotsFollow(actions, key);
    assert (actions + [Tick])[..|actions|] == actions;
    assert Accepted(actions, key) + [] == Accepted(actions, key);
  }

  /** A server of another class than mds and oss publishes no group. */
  lemma {:induction false} OtherClassesPublishNothing(actions: seq<Action>, key: string)
    requires EmissionOf(Run(actions), key).Some?
    requires LastReported(actions, key, Class) != Some("mds") && LastReported(actions, key, Class) != Some("oss")
    ensures EmissionOf(Run(actions), key).value.groups == []
  {
    hide Run, CalcRates, AggregateRows, LastReported;
    EntriesRecord(actions, key);
  }
}
