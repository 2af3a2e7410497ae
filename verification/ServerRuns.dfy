/** Runs of the server on its shared objects: arrays of reports and ticks in any order. */
module ServerRuns {
  import opened Options
  import opened HostMap
  import opened RateObjects
  import opened ServerObjects

  /** What comes in: an array of parsed reports, or the timer of the next tick. */
  datatype Input = Arrive(reports: seq<Report>) | Timer

  function InputExports(input: Input): set<Export> {
    if input.Arrive? then ReportExports(input.reports) else {}
  }

  function ExportsOf(inputs: seq<Input>): set<Export> {
    set i, e | 0 <= i < |inputs| && e in InputExports(inputs[i]) :: e
  }

  /** The actions of the state machine that an input stands for. */
  function Actions(input: Input): seq<Action> {
    if input.Timer? then [Tick]
    else seq(|input.reports|, i requires 0 <= i < |input.reports| => Receive(input.reports[i].Value()))
  }

  function AllActions(inputs: seq<Input>): seq<Action> {
    if inputs == [] then [] else AllActions(inputs[..|inputs| - 1]) + Actions(inputs[|inputs| - 1])
  }

  /** The reports of an array have their own exports. */
  ghost predicate Separate(input: Input) {
    input.Arrive? ==>
      forall i, j, e :: 0 <= i < j < |input.reports| && e in ExportsIf(input.reports[i].data) ==>
        e !in ExportsIf(input.reports[j].data)
  }

  /** Everything that comes in was parsed from its own text: no export comes in twice. */
  ghost predicate Parsed(inputs: seq<Input>) {
    && (forall i :: 0 <= i < |inputs| ==> Separate(inputs[i]))
    && (forall i, j :: 0 <= i < j < |inputs| ==> InputExports(inputs[i]) !! InputExports(inputs[j]))
  }

  /** What a host last published in a run. */
  function LastEmission(actions: seq<Action>, key: string): Option<Emission> {
    if actions == [] then None
    else
      var k := |actions| - 1;
      var emission := if actions[k].Tick? then EmissionOf(Run(actions[..k]), key) else None;
      if emission.Some? then emission else LastEmission(actions[..k], key)
  }

  /** The server's published map of a host is that of its last emission; without one there is none. */
  ghost predicate Publishing(server: Server, actions: seq<Action>, key: string)
    reads server, server.PublishedObjects()
  {
    var emission := LastEmission(actions, key);
    && (key in server.rates <==> emission.Some?)
    && (emission.Some? ==> Publishes(server.rates[key], emission.value))
  }

  lemma {:induction false} ReceivesAll(actions: seq<Action>, reports: seq<Report>)
    ensures Run(actions + Actions(Arrive(reports))) == ReceivedAll(Run(actions), ReportValues(reports))
    ensures forall key :: LastEmission(actions + Actions(Arrive(reports)), key) == LastEmission(actions, key)
    decreases |reports|
  {
    hide Received, EmissionOf;
    var more := actions + Actions(Arrive(reports));
    if reports == [] {
      assert more == actions;
    } else {
      var k := |reports| - 1;
      ReceivesAll(actions, reports[..k]);
      assert more[..|more| - 1] == actions + Actions(Arrive(reports[..k]));
      assert ReportValues(reports)[..k] == ReportValues(reports[..k]);
    }
  }

  lemma {:induction false} TicksOnce(actions: seq<Action>)
    ensures Run(actions + [Tick]) == Ticked(Run(actions))
    ensures forall key :: var emission := EmissionOf(Run(actions), key);
              LastEmission(actions + [Tick], key) == if emission.Some? then emission else LastEmission(actions, key)
  {
    hide EmissionOf, Ticked;
    assert (actions + [Tick])[..|actions|] == actions;
  }

  /** An array of reports refines its steps. */
  method TakeReports(server: Server, reports: seq<Report>, ghost actions: seq<Action>)
    requires server.Valid() && server.CleanTags() && server.Abs() == Run(actions)
    requires forall key :: Publishing(server, actions, key)
    requires Separate(Arrive(reports)) && ReportExports(reports) !! server.owner.Keys
    requires forall e :: e in ReportExports(reports) ==> OwnTags(e)
    modifies server, server.Entries()
    ensures server.Valid() && server.CleanTags() && server.Abs() == Run(actions + Actions(Arrive(reports)))
    ensures forall key :: Publishing(server, actions + Actions(Arrive(reports)), key)
    ensures forall k :: k in server.hosts ==> server.hosts[k] in old(server.Entries()) || fresh(server.hosts[k])
    ensures server.owner.Keys <= old(server.owner.Keys) + ReportExports(reports)
  {
    hide Run, LastEmission, OwnTags, EmissionOf;
    ReceivesAll(actions, reports);
    server.UpdateHostMap(reports);
    forall key ensures Publishing(server, actions + Actions(Arrive(reports)), key) {
      assert old(Publishing(server, actions, key));
    }
  }

  /** A tick refines its step, and publishes. */
  method TakeTick(server: Server, ghost actions: seq<Action>)
    requires server.Valid() && server.CleanTags() && server.Abs() == Run(actions)
    requires forall key :: Publishing(server, actions, key)
    modifies server`rates, server.Entries(), server.owner.Keys
    ensures server.Valid() && server.CleanTags() && server.Abs() == Run(actions + [Tick])
    ensures forall key :: Publishing(server, actions + [Tick], key)
  {
    hide Run, LastEmission, OwnTags, EmissionOf, Ticked;
    TicksOnce(actions);
    server.TickAll();
    forall key ensures Publishing(server, actions + [Tick], key) {
      assert old(Publishing(server, actions, key));
      assert server.PublishedFrom(Run(actions), old(server.rates), key);
    }
  }

  /** One input. */
  method Take(server: Server, input: Input, ghost actions: seq<Action>)
    requires server.Valid() && server.CleanTags() && server.Abs() == Run(actions)
    requires forall key :: Publishing(server, actions, key)
    requires Separate(input) && InputExports(input) !! server.owner.Keys
    requires forall e :: e in InputExports(input) ==> OwnTags(e)
    modifies server, server.Entries(), server.owner.Keys
    ensures server.Valid() && server.CleanTags() && server.Abs() == Run(actions + Actions(input))
    ensures forall key :: Publishing(server, actions + Actions(input), key)
    ensures forall k :: k in server.hosts ==> server.hosts[k] in old(server.Entries()) || fresh(server.hosts[k])
    ensures server.owner.Keys <= old(server.owner.Keys) + InputExports(input)
  {
    hide Run, LastEmission, OwnTags, Publishing;
    if input.Timer? {
      TakeTick(server, actions);
    } else {
      TakeReports(server, input.reports, actions);
    }
  }

  /**
   * The server over a whole run, from its start: whatever arrives, in whatever order, its shared objects are those of
   * the state machine, and each host's published map is that of its last emission.
   */
  method Serve(inputs: seq<Input>) returns (server: Server)
    requires Parsed(inputs) && forall e :: e in ExportsOf(inputs) ==> OwnTags(e)
    modifies ExportsOf(inputs)
    ensures fresh(server) && server.Valid() && server.CleanTags()
    ensures server.Abs() == Run(AllActions(inputs))
    ensures forall key :: Publishing(server, AllActions(inputs), key)
  {
    hide Run, LastEmission, OwnTags, Publishing, AllActions, Actions, Separate;
    server := new Server();
    ghost var actions := [];
    StartsEmpty(server);
    assert inputs[..0] == [] && inputs[0..] == inputs;
    for i := 0 to |inputs|
      invariant server.Valid() && server.CleanTags() && actions == AllActions(inputs[..i])
          && server.Abs() == Run(actions)
      invariant forall key :: Publishing(server, actions, key)
      invariant forall k :: k in server.hosts ==> fresh(server.hosts[k])
      invariant server.owner.Keys <= ExportsOf(inputs[..i])
      invariant forall e :: e in ExportsOf(inputs[i..]) ==> OwnTags(e)
    {
      ActionsStep(inputs, i);
      ExportsStep(inputs, i);
      Take(server, inputs[i], actions);
      actions := actions + Actions(inputs[i]);
    }
    assert inputs[..|inputs|] == inputs;
  }

  lemma {:induction false} StartsEmpty(server: Server)
    requires server.rates == map[] && server.Abs() == State(map[], map[])
    ensures AllActions([]) == [] && server.Abs() == Run([]) && forall key :: Publishing(server, [], key)
  {
  }

  lemma {:induction false} ActionsStep(inputs: seq<Input>, i: nat)
    requires i < |inputs|
    ensures AllActions(inputs[..i + 1]) == AllActions(inputs[..i]) + Actions(inputs[i])
  {
    hide Actions;
    assert inputs[..i + 1][..i] == inputs[..i];
  }

  /** An input's exports are among those still to come and not among those that came in before. */
  lemma {:induction false} ExportsStep(inputs: seq<Input>, i: nat)
    requires i < |inputs| && Parsed(inputs)
    ensures InputExports(inputs[i]) <= ExportsOf(inputs[i..]) && ExportsOf(inputs[i + 1..]) <= ExportsOf(inputs[i..])
    ensures ExportsOf(inputs[..i + 1]) == ExportsOf(inputs[..i]) + InputExports(inputs[i])
    ensures InputExports(inputs[i]) !! ExportsOf(inputs[..i]) && ExportsOf(inputs[i..]) !! ExportsOf(inputs[..i])
    ensures ExportsOf(inputs[i + 1..]) !! ExportsOf(inputs[..i + 1]) && ExportsOf(inputs[..i + 1]) <= ExportsOf(inputs)
  {
    hide InputExports;
  }
}
