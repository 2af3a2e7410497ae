/** Progress of the shared map: the writer publishes again and again, and readers install what it published. */
module SharedProgress {
  import opened SharedMap

  ghost function RunFrom(s: State, actions: seq<Action>): State {
    if actions == [] then s else Step(RunFrom(s, actions[..|actions| - 1]), actions[|actions| - 1])
  }

  lemma {:induction false} RunFromConcat(s: State, a: seq<Action>, b: seq<Action>)
    ensures RunFrom(s, a + b) == RunFrom(RunFrom(s, a), b)
    decreases |b|
  {
    hide Step;
    if b == [] {
      assert a + b == a;
    } else {
      assert (a + b)[..|a| + |b| - 1] == a + b[..|b| - 1];
      RunFromConcat(s, a, b[..|b| - 1]);
    }
  }

  lemma {:induction false} RunIsRunFrom(a: seq<Action>, b: seq<Action>)
    ensures Run(a + b) == RunFrom(Run(a), b)
    decreases |b|
  {
    hide Step;
    if b == [] {
      assert a + b == a;
    } else {
      assert (a + b)[..|a| + |b| - 1] == a + b[..|b| - 1];
      RunIsRunFrom(a, b[..|b| - 1]);
    }
  }

  lemma {:induction false} OneStep(s: State, a: Action)
    ensures RunFrom(s, [a]) == Step(s, a)
  {
    hide Step;
    assert [a][..0] == [];
  }

  lemma {:induction false} InvStays(s: State, actions: seq<Action>)
    requires Inv(s)
    ensures Inv(RunFrom(s, actions))
    decreases |actions|
  {
    hide Inv, Step, Permits, RegionHolds, WriterOk, ReadersOk, LossOk;
    if actions != [] {
      InvStays(s, actions[..|actions| - 1]);
      InvStep(RunFrom(s, actions[..|actions| - 1]), actions[|actions| - 1]);
    }
  }

  lemma {:induction false} InvStep(s: State, a: Action)
    requires Inv(s)
    ensures Inv(Step(s, a))
  {
    hide Step, Permits, RegionHolds, WriterOk, ReadersOk, LossOk;
    StepKeepsPermits(s, a);
    StepKeepsRegion(s, a);
    StepKeepsReaders(s, a);
    StepKeepsLoss(s, a);
  }

  // ---------- the writer ----------

  function Copies(n: nat): seq<Action> {
    seq(n, _ => CopyByte)
  }

  /** What the writer does for one text. */
  function PublishActions(text: seq<char>): seq<Action> {
    [Prepare(text), WriterWait] + Copies(|text|) + [WriterPost]
  }

  /** Copying goes on character by character. */
  lemma {:induction false} CopyOn(s: State, n: nat)
    requires s.writer.Copying? && s.writer.copied + n <= |s.writer.text| <= |s.region|
    ensures var t := RunFrom(s, Copies(n));
      t == s.(region := t.region, writer := Copying(s.writer.text, s.writer.copied + n)) && |t.region| == |s.region|
    decreases n
  {
    if n > 0 {
      assert Copies(n)[..n - 1] == Copies(n - 1);
      CopyOn(s, n - 1);
    }
  }

  /** From inside the region the writer finishes its text and leaves. */
  lemma {:induction false} WriterFinishes(s: State)
    requires Inv(s) && s.writer.Copying?
    ensures var text := s.writer.text;
      var t := RunFrom(s, Copies(|text| - s.writer.copied) + [WriterPost]);
      t == s.(region := t.region, writer := Idle, sem := s.sem + 1, published := s.published + [text])
  {
    hide IsObject, ReadersOk, Permits, LossOk, RunFrom;
    var copies := Copies(|s.writer.text| - s.writer.copied);
    CopyOn(s, |s.writer.text| - s.writer.copied);
    RunFromConcat(s, copies, [WriterPost]);
    OneStep(RunFrom(s, copies), WriterPost);
  }

  /** A waiting writer whose turn it is gets in and publishes. */
  lemma {:induction false} WaitingPublishes(s: State)
    requires Inv(s) && s.writer.Waiting? && s.sem > 0
    ensures var text := s.writer.text;
      var t := RunFrom(s, [WriterWait] + Copies(|text|) + [WriterPost]);
      t == s.(region := t.region, writer := Idle, published := s.published + [text])
  {
    hide IsObject, ReadersOk, Permits, LossOk, RunFrom, RegionHolds;
    var text := s.writer.text;
    OneStep(s, WriterWait);
    var inside := RunFrom(s, [WriterWait]);
    InvStep(s, WriterWait);
    WriterFinishes(inside);
    RunFromConcat(s, [WriterWait], Copies(|text|) + [WriterPost]);
    assert [WriterWait] + Copies(|text|) + [WriterPost] == [WriterWait] + (Copies(|text|) + [WriterPost]);
  }

  /** With the semaphore free and the writer idle, a text is published, and nothing else changes but the region. */
  lemma {:induction false} WriterPublishes(s: State, text: seq<char>)
    requires Inv(s) && s.sem > 0 && s.writer.Idle? && IsObject(text) && |text| <= REGION_SIZE
    ensures var t := RunFrom(s, PublishActions(text));
      t == s.(region := t.region, published := s.published + [text])
  {
    hide IsObject, ReadersOk, Permits, LossOk, RunFrom, RegionHolds;
    OneStep(s, Prepare(text));
    InvStep(s, Prepare(text));
    WaitingPublishes(Step(s, Prepare(text)));
    RunFromConcat(s, [Prepare(text)], [WriterWait] + Copies(|text|) + [WriterPost]);
    assert PublishActions(text) == [Prepare(text)] + ([WriterWait] + Copies(|text|) + [WriterPost]);
  }

  // ---------- a reader ----------

  function Reads(r: nat, n: nat): seq<Action> {
    seq(n, _ => ReadByte(r))
  }

  /** What a reader does for one text. */
  function ReadActions(r: nat, n: nat): seq<Action> {
    [ReaderWait(r)] + Reads(r, n) + [Install(r), ReaderPost(r)]
  }

  /** From wherever it is in the region, a reader reads on to the end of the last published text. */
  lemma {:induction false} ReadOn(s: State, r: nat, text: seq<char>, at: nat, n: nat)
    requires IsObject(text) && at + n <= |text| <= |s.region| && s.region[..|text|] == text && at < |text|
    requires r in s.readers && s.readers[r].phase == Reading(at, ScanText(Before, s.region[..at]))
    ensures RunFrom(s, Reads(r, n)) == WithPhase(s, r,
        if at + n == |text| then Parsed(text) else Reading(at + n, ScanText(Before, s.region[..at + n])))
    decreases n
  {
    hide IsObject, ScanText, ReadNext;
    if n == 0 {
      assert s.readers[r := s.readers[r]] == s.readers;
    } else {
      assert Reads(r, n)[..n - 1] == Reads(r, n - 1);
      ReadOn(s, r, text, at, n - 1);
      ReadNextOfObject(text, s.region, at + n - 1);
    }
  }

  /** Having parsed a text, a reader installs it and leaves. */
  lemma {:induction false} InstallsAndLeaves(s: State, r: nat)
    requires r in s.readers && s.readers[r].phase.Parsed?
    ensures var history := s.readers[r].history + [(|s.published|, s.readers[r].phase.text)];
      RunFrom(s, [Install(r), ReaderPost(r)])
      == s.(readers := s.readers[r := Reader(Resting, history)], sem := s.sem + 1)
  {
    hide RunFrom;
    OneStep(s, Install(r));
    OneStep(Step(s, Install(r)), ReaderPost(r));
    RunFromConcat(s, [Install(r)], [ReaderPost(r)]);
    assert [Install(r), ReaderPost(r)] == [Install(r)] + [ReaderPost(r)];
    var history := s.readers[r].history + [(|s.published|, s.readers[r].phase.text)];
    assert s.readers[r := Reader(Installed, history)][r := Reader(Resting, history)]
        == s.readers[r := Reader(Resting, history)];
  }

  /** A reader inside that is still reading installs the last published text and leaves. */
  lemma {:induction false} ReadingFinishes(s: State, r: nat)
    requires Inv(s) && s.published != [] && r in s.readers && s.readers[r].phase.Reading?
    ensures var last := s.published[|s.published| - 1];
      && s.readers[r].phase.at < |last|
      && RunFrom(s, Reads(r, |last| - s.readers[r].phase.at) + [Install(r), ReaderPost(r)])
         == s.(readers := s.readers[r := Reader(Resting, s.readers[r].history + [(|s.published|, last)])],
               sem := s.sem + 1)
  {
    hide IsObject, ScanText, RunFrom, LossOk, HistoryOk;
    AtMostOneInside(s);
    var last, at := s.published[|s.published| - 1], s.readers[r].phase.at;
    assert PhaseOk(s, s.readers[r].phase);
    NotYetComplete(last, s.region, at);
    ReadOn(s, r, last, at, |last| - at);
    var reading := Reads(r, |last| - at);
    var parsed := RunFrom(s, reading);
    InstallsAndLeaves(parsed, r);
    RunFromConcat(s, reading, [Install(r), ReaderPost(r)]);
    assert s.readers[r := s.readers[r].(phase := Parsed(last))][r
        := Reader(Resting, s.readers[r].history + [(|s.published|, last)])]
        == s.readers[r := Reader(Resting, s.readers[r].history + [(|s.published|, last)])];
  }

  lemma {:induction false} NotYetComplete(text: seq<char>, region: seq<char>, at: nat)
    requires IsObject(text) && |text| <= |region| && region[..|text|] == text && at <= |region|
    requires Scanning(ScanText(Before, region[..at]))
    ensures at < |text|
  {
    hide ScanText;
    if at >= |text| {
      assert region[..at][..|text|] == text;
      StaysComplete(region[..at], |text|);
    }
  }

  /** With the semaphore free, a resting reader installs exactly the last published text; all else stays as it is. */
  lemma {:induction false} ReaderInstalls(s: State, r: nat)
    requires Inv(s) && s.sem > 0 && s.published != [] && r in s.readers && s.readers[r].phase.Resting?
    ensures var last := s.published[|s.published| - 1];
      RunFrom(s, ReadActions(r, |last|))
      == s.(readers := s.readers[r := Reader(Resting, s.readers[r].history + [(|s.published|, last)])])
  {
    hide IsObject, ScanText, RunFrom, LossOk, HistoryOk, Permits, RegionHolds;
    var last := s.published[|s.published| - 1];
    OneStep(s, ReaderWait(r));
    InvStep(s, ReaderWait(r));
    var inside := Step(s, ReaderWait(r));
    ReadingFinishes(inside, r);
    RunFromConcat(s, [ReaderWait(r)], Reads(r, |last|) + [Install(r), ReaderPost(r)]);
    assert ReadActions(r, |last|) == [ReaderWait(r)] + (Reads(r, |last|) + [Install(r), ReaderPost(r)]);
    var reader := Reader(Resting, s.readers[r].history + [(|s.published|, last)]);
    assert s.readers[r := s.readers[r].(phase := Reading(0, Before))][r := reader] == s.readers[r := reader];
  }

  // ---------- whole runs ----------

  /** From the start: for each text in turn, the writer publishes it and a reader reads it. */
  function Serving(texts: seq<seq<char>>, r: nat): seq<Action> {
    if texts == [] then [Open, Join(r)]
    else
      var text := texts[|texts| - 1];
      Serving(texts[..|texts| - 1], r) + PublishActions(text) + ReadActions(r, |text|)
  }

  /** All texts, each with the number of publications made by then. */
  function Installs(texts: seq<seq<char>>): (history: seq<(nat, seq<char>)>)
    ensures |history| == |texts|
  {
    seq(|texts|, i requires 0 <= i < |texts| => (i + 1, texts[i]))
  }

  /** Any texts are all published, in order, and the reader installs each of them. */
  lemma {:induction false} ServesAll(texts: seq<seq<char>>, r: nat)
    requires forall i :: 0 <= i < |texts| ==> IsObject(texts[i]) && |texts[i]| <= REGION_SIZE
    ensures var s := Run(Serving(texts, r));
      && s.published == texts && s.sem == 1 && s.lost == 0 && s.writer == Idle
      && s.readers == map[r := Reader(Resting, Installs(texts))]
    decreases |texts|
  {
    hide IsObject, RunFrom, Inv, PublishActions, ReadActions, Step;
    if texts == [] {
      OpenAndJoin(r);
      assert Installs(texts) == [];
    } else {
      var k := |texts| - 1;
      var before, text := Serving(texts[..k], r), texts[k];
      ServesAll(texts[..k], r);
      Reachable(before);
      var s := Run(before);
      WriterPublishes(s, text);
      var s1 := RunFrom(s, PublishActions(text));
      RunIsRunFrom(before, PublishActions(text));
      Reachable(before + PublishActions(text));
      ReaderInstalls(s1, r);
      RunIsRunFrom(before + PublishActions(text), ReadActions(r, |text|));
      var history := Installs(texts[..k]);
      assert history + [(k + 1, text)] == Installs(texts);
      assert texts[..k] + [text] == texts;
      assert map[r := Reader(Resting, history)][r := Reader(Resting, history + [(k + 1, text)])]
          == map[r := Reader(Resting, history + [(k + 1, text)])];
    }
  }

  lemma {:induction false} OpenAndJoin(r: nat)
    ensures Run([Open, Join(r)]) == State(true, 1, 0, Start().region, Idle, map[r := Reader(Resting, [])], [])
  {
    var actions := [Open, Join(r)];
    assert actions[..1][..0] == [] && actions[..1] == [Open];
    assert Run([]) == Start();
    assert Run(actions[..1]) == Step(Start(), Open);
    assert Run(actions) == Step(Run(actions[..1]), Join(r));
  }

  /** Nothing is published before initialisation. */
  lemma {:induction false} ReadyFirst(actions: seq<Action>)
    ensures Run(actions).published != [] ==> Run(actions).ready
    decreases |actions|
  {
    hide IsObject, ScanText, ReadersOk, RegionHolds;
    if actions != [] {
      var k := |actions| - 1;
      ReadyFirst(actions[..k]);
      Reachable(actions[..k]);
    }
  }

  /** Whoever is inside the region can leave it, once something has been published. */
  lemma {:induction false} Leaves(s: State) returns (more: seq<Action>)
    requires Inv(s) && s.ready && s.published != []
    ensures var t := RunFrom(s, more);
      && t.sem > 0 && t.ready
      && (if s.writer.Copying? then t.writer == Idle && t.published == s.published + [s.writer.text]
          else t.writer == s.writer && t.published == s.published)
  {
    hide IsObject, ScanText, ReadersOk, RegionHolds, RunFrom, HistoryOk;
    AtMostOneInside(s);
    if s.writer.Copying? {
      WriterFinishes(s);
      more := Copies(|s.writer.text| - s.writer.copied) + [WriterPost];
    } else if s.sem > 0 {
      more := [];
      assert RunFrom(s, []) == s by { NoSteps(s); }
    } else {
      assert |ReadersInside(s)| == 1;
      var r :| r in ReadersInside(s);
      more := ReaderLeaves(s, r);
    }
  }

  lemma {:induction false} NoSteps(s: State)
    ensures RunFrom(s, []) == s
  {
  }

  lemma {:induction false} ReaderLeaves(s: State, r: nat) returns (more: seq<Action>)
    requires Inv(s) && s.published != [] && r in ReadersInside(s)
    ensures var t := RunFrom(s, more);
      t.sem == s.sem + 1 && t.published == s.published && t.ready == s.ready && t.writer == s.writer
  {
    hide IsObject, ScanText, RegionHolds, RunFrom, HistoryOk, Permits;
    assert PhaseOk(s, s.readers[r].phase);
    match s.readers[r].phase {
      case Reading(at, _) =>
        ReadingFinishes(s, r);
        more := Reads(r, |s.published[|s.published| - 1]| - at) + [Install(r), ReaderPost(r)];
      case Parsed(_) =>
        InstallsAndLeaves(s, r);
        more := [Install(r), ReaderPost(r)];
      case Installed =>
        OneStep(s, ReaderPost(r));
        more := [ReaderPost(r)];
    }
  }

  /**
   * No dead end: from every state that is reachable after a publication, whoever is inside and whatever is waiting,
   * the processes can go on so that any given text is published next but for what was already waiting, and the
   * semaphore is free again.
   */
  lemma {:induction false} CanAlwaysPublish(actions: seq<Action>, text: seq<char>) returns (more: seq<Action>)
    requires Run(actions).published != [] && IsObject(text) && |text| <= REGION_SIZE
    ensures var s, t := Run(actions), Run(actions + more);
      && s.published < t.published && t.published[|t.published| - 1] == text && |t.published| <= |s.published| + 2
      && t.sem == 1 && t.lost == 0 && t.writer == Idle
  {
    hide IsObject, ScanText, RegionHolds, RunFrom, HistoryOk, Permits, PublishActions, ReadersOk, WriterOk;
    var s := Run(actions);
    Reachable(actions);
    ReadyFirst(actions);
    var leave := Leaves(s);
    InvStays(s, leave);
    var out := RunFrom(s, leave);
    var turn := if out.writer.Waiting? then [WriterWait] + Copies(|out.writer.text|) + [WriterPost] else [];
    if out.writer.Waiting? {
      WaitingPublishes(out);
    } else {
      NoSteps(out);
    }
    InvStays(out, turn);
    var idle := RunFrom(out, turn);
    WriterPublishes(idle, text);
    more := leave + turn + PublishActions(text);
    RunFromConcat(s, leave, turn);
    RunFromConcat(s, leave + turn, PublishActions(text));
    RunIsRunFrom(actions, more);
    Reachable(actions + more);
    FreeSemaphore(Run(actions + more));
  }

  lemma {:induction false} FreeSemaphore(s: State)
    requires Inv(s) && s.sem > 0
    ensures s.sem == 1 && s.lost == 0
  {
    hide IsObject, ScanText, RegionHolds, ReadersOk;
  }

  // ---------- texts there are ----------

  /** Characters that stand for themselves in a string. */
  predicate Ordinary(s: seq<char>) {
    forall i :: 0 <= i < |s| ==> s[i] != '"' && s[i] != '\\' && s[i] != '\0'
  }

  lemma {:induction false} InsideString(front: seq<char>, s: seq<char>)
    requires Ordinary(s) && ScanText(Before, front) == Inside(1, true, false)
    ensures ScanText(Before, front + s) == Inside(1, true, false)
    decreases |s|
  {
    if s == [] {
      assert front + s == front;
    } else {
      var k := |s| - 1;
      InsideString(front, s[..k]);
      assert (front + s)[..|front| + k] == front + s[..k];
    }
  }

  lemma {:induction false} ScanMore(front: seq<char>, c: char)
    ensures ScanText(Before, front + [c]) == ScanChar(ScanText(Before, front), c)
  {
    assert (front + [c])[..|front|] == front;
  }

  lemma {:induction false} ScanClose(front: seq<char>)
    requires ScanText(Before, front) == Inside(1, true, false)
    ensures ScanText(Before, front + ['"']) == ScanText(Before, front + ['"'] + [':'])
         == ScanText(Before, front + ['"'] + [':'] + ['0']) == Inside(1, false, false)
    ensures ScanText(Before, front + ['"'] + [':'] + ['0'] + ['}']) == Complete
  {
    hide ScanText;
    ScanMore(front, '"');
    ScanMore(front + ['"'], ':');
    ScanMore(front + ['"'] + [':'], '0');
    ScanMore(front + ['"'] + [':'] + ['0'], '}');
  }

  /** Brackets in a string do not count: an object with such a key ends with its own bracket. */
  lemma {:induction false} StringsHideBrackets(s: seq<char>)
    requires Ordinary(s)
    ensures IsObject("{\"" + s + "\":0}")
  {
    hide ScanText, Ordinary;
    var open, close := "{\"", "\":0}";
    var text, front := open + s + close, open + s;
    ScanOpen();
    InsideString(open, s);
    ScanClose(front);
    assert text == front + ['"'] + [':'] + ['0'] + ['}'];
    forall k | 0 <= k < |text| ensures Scanning(ScanText(Before, text[..k])) {
      if k <= 1 {
        assert text[..k] == open[..k];
      } else if k <= |front| {
        assert text[..k] == open + s[..k - 2];
        OrdinaryPart(s, k - 2);
        InsideString(open, s[..k - 2]);
      } else {
        assert text[..k] == if k == |front| + 1 then front + ['"'] else if k == |front| + 2 then front + ['"'] + [':']
            else front + ['"'] + [':'] + ['0'];
      }
    }
  }

  lemma {:induction false} OrdinaryPart(s: seq<char>, k: nat)
    requires Ordinary(s) && k <= |s|
    ensures Ordinary(s[..k])
  {
  }

  lemma {:induction false} ScanOpen()
    ensures ScanText(Before, "{\"") == Inside(1, true, false)
    ensures Scanning(ScanText(Before, "{\""[..0])) && Scanning(ScanText(Before, "{\""[..1]))
  {
    var open := "{\"";
    assert open[..1][..0] == open[..0] == [] && open[..1][0] == '{';
    assert open[..2] == open && open[..1] == open[..|open| - 1];
  }
}
