/** One writer and many readers share a text region under a semaphore: the protocol as a step system. */
module SharedMap {
  // ---------- finding the end of a JSON object ----------

  /** The tokener on its way through a text. */
  datatype Scan = Before | Inside(depth: nat, inString: bool, escaped: bool) | Complete | Failed

  /** One character: strings hide brackets, a NUL ends the text too early. */
  function ScanChar(s: Scan, c: char): Scan {
    match s
    case Before => if c == '{' then Inside(1, false, false) else Failed
    case Inside(depth, inString, escaped) =>
      if c == '\0' then Failed
      else if inString then
        if escaped then Inside(depth, true, false)
        else if c == '\\' then Inside(depth, true, true)
        else Inside(depth, c != '"', false)
      else if c == '"' then Inside(depth, true, false)
      else if c == '{' || c == '[' then Inside(depth + 1, false, false)
      else if c == '}' || c == ']' then if depth <= 1 then Complete else Inside(depth - 1, false, false)
      else s
    case _ => s
  }

  function ScanText(s: Scan, text: seq<char>): Scan {
    if text == [] then s else ScanChar(ScanText(s, text[..|text| - 1]), text[|text| - 1])
  }

  /** A printed object: complete at its last character and not before. */
  ghost predicate IsObject(text: seq<char>) {
    && ScanText(Before, text) == Complete
    && forall k :: 0 <= k < |text| ==> Scanning(ScanText(Before, text[..k]))
  }

  predicate Scanning(s: Scan) {
    s.Before? || s.Inside?
  }

  lemma {:induction false} ScanPrefix(text: seq<char>, k: nat)
    requires k < |text|
    ensures ScanText(Before, text[..k + 1]) == ScanChar(ScanText(Before, text[..k]), text[k])
  {
    assert text[..k + 1][..k] == text[..k];
  }

  /** Objects are self-delimiting: whatever follows, the scan of the region is the scan of the object. */
  lemma {:induction false} SelfDelimiting(text: seq<char>, region: seq<char>, k: nat)
    requires IsObject(text) && |text| <= |region| && region[..|text|] == text && k <= |region|
    requires k == 0 || Scanning(ScanText(Before, region[..k - 1]))
    ensures k <= |text| && (Scanning(ScanText(Before, region[..k])) <==> k < |text|)
    ensures k == |text| ==> ScanText(Before, region[..k]) == Complete
    decreases k
  {
    if k > 0 {
      if k > |text| {
        assert region[..k - 1][..|text|] == text;
        StaysComplete(region[..k - 1], |text|);
      } else {
        assert region[..k] == text[..k];
        assert k == |text| ==> text[..k] == text;
      }
    } else {
      assert text != [];
      assert region[..0] == text[..0];
    }
  }

  lemma {:induction false} StaysComplete(text: seq<char>, k: nat)
    requires k <= |text| && ScanText(Before, text[..k]) == Complete
    ensures ScanText(Before, text) == Complete
    decreases |text|
  {
    if k == |text| {
      assert text[..k] == text;
    } else {
      assert text[..|text| - 1][..k] == text[..k];
      StaysComplete(text[..|text| - 1], k);
    }
  }

  // ---------- the protocol ----------

  const REGION_SIZE: nat := 104857600

  datatype Writer = Idle | Waiting(text: seq<char>) | Copying(text: seq<char>, copied: nat)

  datatype Phase = Resting | Reading(at: nat, scan: Scan) | Parsed(text: seq<char>) | Installed | ParseFailed

  /** A reader's phase and the texts it has installed, each with the number of publications made by then. */
  datatype Reader = Reader(phase: Phase, history: seq<(nat, seq<char>)>)

  datatype State = State(
    ready: bool,
    sem: nat,
    lost: nat,
    region: seq<char>,
    writer: Writer,
    readers: map<nat, Reader>,
    published: seq<seq<char>>)

  datatype Action =
    | Open
    | Prepare(text: seq<char>)
    | WriterWait
    | CopyByte
    | WriterPost
    | Join(r: nat)
    | ReaderWait(r: nat)
    | ReadByte(r: nat)
    | Install(r: nat)
    | ReaderPost(r: nat)
    | ReturnOnFailure(r: nat)

  /** Before initialisation: no permit, and a region of NUL characters. */
  function Start(): State {
    State(false, 0, 0, seq(REGION_SIZE, _ => '\0'), Idle, map[], [])
  }

  /** One reader's step once it holds the semaphore: read on, or leave the region. */
  function ReadNext(region: seq<char>, at: nat, scan: Scan): Phase {
    if at >= |region| then ParseFailed
    else
      var next := ScanChar(scan, region[at]);
      if next.Complete? then Parsed(region[..at + 1]) else if next.Failed? then ParseFailed else Reading(at + 1, next)
  }

  function WithPhase(s: State, r: nat, phase: Phase): State
    requires r in s.readers
  {
    s.(readers := s.readers[r := s.readers[r].(phase := phase)])
  }

  /** An action that is not possible leaves the state as it is: the process is blocked or not there. */
  ghost function Step(s: State, a: Action): State {
    match a
    case Open => if s.ready then s else s.(ready := true, sem := s.sem + 1)
    case Prepare(text) =>
      if s.writer.Idle? && IsObject(text) && |text| <= REGION_SIZE then s.(writer := Waiting(text)) else s
    case WriterWait =>
      if s.writer.Waiting? && s.sem > 0 then s.(sem := s.sem - 1, writer := Copying(s.writer.text, 0)) else s
    case CopyByte =>
      if s.writer.Copying? && s.writer.copied < |s.writer.text| && s.writer.copied < |s.region|
      then s.(region := s.region[s.writer.copied := s.writer.text[s.writer.copied]],
              writer := Copying(s.writer.text, s.writer.copied + 1)) else s
    case WriterPost =>
      if s.writer.Copying? && s.writer.copied == |s.writer.text|
      then s.(sem := s.sem + 1, writer := Idle, published := s.published + [s.writer.text]) else s
    case Join(r) => if r in s.readers then s else s.(readers := s.readers[r := Reader(Resting, [])])
    case ReaderWait(r) =>
      if r in s.readers && s.readers[r].phase.Resting? && s.sem > 0
      then WithPhase(s, r, Reading(0, Before)).(sem := s.sem - 1) else s
    case ReadByte(r) =>
      if r in s.readers && s.readers[r].phase.Reading?
      then WithPhase(s, r, ReadNext(s.region, s.readers[r].phase.at, s.readers[r].phase.scan)) else s
    case Install(r) =>
      if r in s.readers && s.readers[r].phase.Parsed?
      then
        var history := s.readers[r].history + [(|s.published|, s.readers[r].phase.text)];
        s.(readers := s.readers[r := Reader(Installed, history)])
      else s
    case ReaderPost(r) =>
      if r in s.readers && s.readers[r].phase.Installed? then WithPhase(s, r, Resting).(sem := s.sem + 1) else s
    case ReturnOnFailure(r) =>
      if r in s.readers && s.readers[r].phase.ParseFailed? then WithPhase(s, r, Resting).(lost := s.lost + 1) else s
  }

  ghost function Run(actions: seq<Action>): State {
    if actions == [] then Start() else Step(Run(actions[..|actions| - 1]), actions[|actions| - 1])
  }

  // ---------- invariants ----------

  /** The readers inside the region. */
  ghost function ReadersInside(s: State): set<nat> {
    set r | r in s.readers && !s.readers[r].phase.Resting?
  }

  /** The number of processes that hold the semaphore. */
  ghost function Holders(s: State): nat {
    |ReadersInside(s)| + if s.writer.Copying? then 1 else 0
  }

  /** Permits are neither made nor destroyed, except that a failed parse keeps one. */
  ghost predicate Permits(s: State) {
    s.sem + Holders(s) + s.lost == if s.ready then 1 else 0
  }

  /** What the region holds: the last published text in front of whatever earlier texts left, or nothing yet. */
  ghost predicate RegionHolds(s: State) {
    && |s.region| == REGION_SIZE
    && (forall i :: 0 <= i < |s.published| ==> IsObject(s.published[i]) && |s.published[i]| <= REGION_SIZE)
    && (if s.writer.Copying? then
          s.writer.copied <= |s.writer.text| <= REGION_SIZE && s.region[..s.writer.copied]
              == s.writer.text[..s.writer.copied]
        else if s.published == [] then s.region[0] == '\0'
        else var last := s.published[|s.published| - 1]; s.region[..|last|] == last)
  }

  ghost predicate WriterOk(w: Writer) {
    && (!w.Idle? ==> IsObject(w.text) && |w.text| <= REGION_SIZE)
    && (w.Copying? ==> w.copied <= |w.text|)
  }

  /** A reader inside has scanned what is in the region; it can only fail before the first publication. */
  ghost predicate PhaseOk(s: State, phase: Phase) {
    match phase
    case Resting => true
    case Reading(at, scan) =>
      at <= |s.region| && scan == ScanText(Before, s.region[..at]) && Scanning(scan) && (s.published == [] ==> at == 0)
    case Parsed(text) => s.published != [] && text == s.published[|s.published| - 1]
    case Installed => s.published != []
    case ParseFailed => s.published == []
  }

  /** Every installed text is one whole published text, and publications are installed in order. */
  ghost predicate HistoryOk(s: State, history: seq<(nat, seq<char>)>) {
    && (forall i :: 0 <= i < |history| ==>
          0 < history[i].0 <= |s.published| && history[i].1 == s.published[history[i].0 - 1])
    && (forall i, j :: 0 <= i < j < |history| ==> history[i].0 <= history[j].0)
  }

  ghost predicate ReadersOk(s: State) {
    forall r :: r in s.readers ==> PhaseOk(s, s.readers[r].phase) && HistoryOk(s, s.readers[r].history)
  }

  /** A lost permit is lost before anything is published. */
  ghost predicate LossOk(s: State) {
    s.lost > 0 ==> s.published == []
  }

  ghost predicate Inv(s: State) {
    Permits(s) && RegionHolds(s) && WriterOk(s.writer) && ReadersOk(s) && LossOk(s)
  }

  lemma {:induction false} TwoOf(inside: set<nat>, r: nat, q: nat)
    requires r in inside && q in inside && r != q
    ensures |inside| >= 2
  {
    assert |inside - {r}| == |inside| - 1;
    assert q in inside - {r};
    assert |inside - {r} - {q}| == |inside - {r}| - 1;
  }

  /** Mutual exclusion, from the permits alone. */
  lemma {:induction false} AtMostOneInside(s: State)
    requires Permits(s)
    ensures Holders(s) <= 1
    ensures forall r :: r in s.readers && !s.readers[r].phase.Resting? ==> !s.writer.Copying? && s.sem == 0
    ensures forall r, q :: r in ReadersInside(s) && q in ReadersInside(s) ==> r == q
  {
    forall r | r in s.readers && !s.readers[r].phase.Resting? ensures !s.writer.Copying? && s.sem == 0 {
      assert r in ReadersInside(s);
      assert |ReadersInside(s)| > 0;
    }
    forall r, q | r in ReadersInside(s) && q in ReadersInside(s) ensures r == q {
      if r != q {
        TwoOf(ReadersInside(s), r, q);
      }
    }
  }

  lemma {:induction false} PhaseChange(s: State, r: nat, reader: Reader)
    requires r in s.readers
    ensures var t := s.(readers := s.readers[r := reader]);
      |ReadersInside(t)| == |ReadersInside(s)| - (if s.readers[r].phase.Resting? then 0 else 1)
          + (if reader.phase.Resting? then 0 else 1)
  {
    var t := s.(readers := s.readers[r := reader]);
    var inside := ReadersInside(s);
    assert s.readers[r].phase.Resting? <==> r !in inside;
    if reader.phase.Resting? {
      assert ReadersInside(t) == inside - {r};
    } else {
      assert ReadersInside(t) == inside + {r};
    }
  }

  lemma {:induction false} StepKeepsPermits(s: State, a: Action)
    requires Permits(s)
    ensures Permits(Step(s, a))
  {
    hide IsObject, ScanText;
    var t := Step(s, a);
    match a {
      case Join(r) =>
        assert ReadersInside(t) == ReadersInside(s);
      case ReaderWait(r) => if r in s.readers { PhaseChange(s, r, t.readers[r]); KeepInside(s, t, r); }
      case ReadByte(r) => if r in s.readers { PhaseChange(s, r, t.readers[r]); KeepInside(s, t, r); }
      case Install(r) => if r in s.readers { PhaseChange(s, r, t.readers[r]); KeepInside(s, t, r); }
      case ReaderPost(r) => if r in s.readers { PhaseChange(s, r, t.readers[r]); KeepInside(s, t, r); }
      case ReturnOnFailure(r) => if r in s.readers { PhaseChange(s, r, t.readers[r]); KeepInside(s, t, r); }
      case _ =>
        assert ReadersInside(t) == ReadersInside(s);
    }
  }

  /** Who is inside depends only on the readers. */
  lemma {:induction false} KeepInside(s: State, t: State, r: nat)
    requires r in s.readers && r in t.readers && t.readers == s.readers[r := t.readers[r]]
    ensures ReadersInside(t) == ReadersInside(s.(readers := s.readers[r := t.readers[r]]))
  {
  }

  /** The scan goes on from the region as it is. */
  lemma {:induction false} ReadStep(s: State, at: nat, scan: Scan)
    requires RegionHolds(s) && !s.writer.Copying? && PhaseOk(s, Reading(at, scan))
    ensures PhaseOk(s, ReadNext(s.region, at, scan))
  {
    hide ScanText, IsObject;
    if at < |s.region| {
      ScanPrefix(s.region, at);
      if s.published != [] {
        var last := s.published[|s.published| - 1];
        SelfDelimiting(last, s.region, at + 1);
      }
      StartsBefore(s.region);
    } else if s.published != [] {
      var last := s.published[|s.published| - 1];
      assert s.region[..at] == s.region;
      FullRegion(last, s.region);
    }
  }

  lemma {:induction false} StartsBefore(region: seq<char>)
    ensures ScanText(Before, region[..0]) == Before
  {
  }

  /** Even a text that fills the region is complete at its end. */
  lemma {:induction false} FullRegion(text: seq<char>, region: seq<char>)
    requires IsObject(text) && |text| <= |region| && region[..|text|] == text
    ensures !Scanning(ScanText(Before, region))
  {
    StaysComplete(region, |text|);
  }

  lemma {:induction false} ReaderStepKeeps(s: State, t: State, r: nat)
    requires Inv(s) && r in s.readers && r in t.readers && t.readers == s.readers[r := t.readers[r]]
    requires t.region == s.region && t.published == s.published
    requires PhaseOk(s, t.readers[r].phase) && HistoryOk(s, t.readers[r].history)
    ensures ReadersOk(t)
  {
    hide ScanText, IsObject;
    forall q | q in t.readers ensures PhaseOk(t, t.readers[q].phase) && HistoryOk(t, t.readers[q].history) {
      assert q == r || t.readers[q] == s.readers[q];
    }
  }

  lemma {:induction false} StepKeepsReaders(s: State, a: Action)
    requires Inv(s)
    ensures ReadersOk(Step(s, a))
  {
    hide ScanText, IsObject, Permits, RegionHolds, PhaseOk, HistoryOk, ReadNext;
    var t := Step(s, a);
    AtMostOneInside(s);
    match a {
      case ReaderWait(r) => if t != s { StartReading(s); ReaderStepKeeps(s, t, r); }
      case ReadByte(r) => if t != s { ReadStep(s, s.readers[r].phase.at, s.readers[r].phase.scan); ReaderStepKeeps(s,
          t, r); }
      case Install(r) => if t != s { InstallKeeps(s, r); ReaderStepKeeps(s, t, r); }
      case ReaderPost(r) => if t != s { RestingOk(s); ReaderStepKeeps(s, t, r); }
      case ReturnOnFailure(r) => if t != s { RestingOk(s); ReaderStepKeeps(s, t, r); }
      case CopyByte => if t != s { WriterAlone(s, t); }
      case WriterPost => if t != s { WriterAlone(s, t); }
      case Join(r) => if t != s { JoinKeeps(s, t, r); }
      case _ => SameReaders(s, t);
    }
  }

  lemma {:induction false} StartReading(s: State)
    requires RegionHolds(s)
    ensures PhaseOk(s, Reading(0, Before))
  {
    StartsBefore(s.region);
  }

  lemma {:induction false} RestingOk(s: State)
    ensures PhaseOk(s, Resting)
  {
  }

  lemma {:induction false} SameReaders(s: State, t: State)
    requires ReadersOk(s) && t.readers == s.readers && t.region == s.region && t.published == s.published
    ensures ReadersOk(t)
  {
    hide ScanText;
  }

  lemma {:induction false} JoinKeeps(s: State, t: State, r: nat)
    requires ReadersOk(s) && r !in s.readers && t == s.(readers := s.readers[r := Reader(Resting, [])])
    ensures ReadersOk(t)
  {
    hide ScanText;
  }

  lemma {:induction false} InstallKeeps(s: State, r: nat)
    requires ReadersOk(s) && r in s.readers && s.readers[r].phase.Parsed?
    ensures var history := s.readers[r].history + [(|s.published|, s.readers[r].phase.text)];
      PhaseOk(s, Installed) && HistoryOk(s, history)
  {
    hide ScanText;
    assert PhaseOk(s, s.readers[r].phase) && HistoryOk(s, s.readers[r].history);
  }

  /** While the writer is inside no reader is, so changing the region disturbs nobody. */
  lemma {:induction false} WriterAlone(s: State, t: State)
    requires Inv(s) && s.writer.Copying? && t.readers == s.readers && s.published <= t.published
    ensures ReadersOk(t)
  {
    hide ScanText, RegionHolds;
    AtMostOneInside(s);
    forall r | r in t.readers ensures PhaseOk(t, t.readers[r].phase) && HistoryOk(t, t.readers[r].history) {
    }
  }

  lemma {:induction false} StepKeepsRegion(s: State, a: Action)
    requires Inv(s)
    ensures RegionHolds(Step(s, a)) && WriterOk(Step(s, a).writer)
  {
    hide IsObject, ScanText, PhaseOk, HistoryOk, Permits;
    var t := Step(s, a);
    if a.CopyByte? && t != s {
      var k, text := s.writer.copied, s.writer.text;
      assert t.region[..k + 1] == s.region[..k] + [text[k]] == text[..k + 1];
    }
    if a.WriterPost? && t != s {
      assert s.writer.text[..|s.writer.text|] == s.writer.text;
    }
  }

  lemma {:induction false} StepKeepsLoss(s: State, a: Action)
    requires Inv(s)
    ensures LossOk(Step(s, a))
  {
    hide IsObject, ScanText, RegionHolds;
    AtMostOneInside(s);
    if a.ReturnOnFailure? && a.r in s.readers {
      assert PhaseOk(s, s.readers[a.r].phase);
    }
  }

  /** Every reachable state satisfies the invariant. */
  lemma {:induction false} Reachable(actions: seq<Action>)
    ensures Inv(Run(actions))
  {
    hide IsObject, ScanText;
    if actions == [] {
      assert ReadersInside(Start()) == {};
    } else {
      var k := |actions| - 1;
      var s := Run(actions[..k]);
      Reachable(actions[..k]);
      StepKeepsPermits(s, actions[k]);
      StepKeepsRegion(s, actions[k]);
      StepKeepsReaders(s, actions[k]);
      StepKeepsLoss(s, actions[k]);
    }
  }

  /**
   * Safety, over every interleaving of one writer and any number of readers: permits are conserved, at most one
   * process is inside the region, and every map a reader has installed is one complete published text, in publication
   * order.
   */
  lemma {:induction false} ProtocolIsSafe(actions: seq<Action>)
    ensures var s := Run(actions);
      && s.sem + Holders(s) + s.lost == (if s.ready then 1 else 0) && Holders(s) <= 1
      && forall r :: r in s.readers ==> HistoryOk(s, s.readers[r].history)
  {
    hide IsObject, ScanText;
    Reachable(actions);
    AtMostOneInside(Run(actions));
  }

  /** A read that fails keeps the only permit: from then on nothing is ever published or installed. */
  lemma {:induction false} LostPermitStopsAll(actions: seq<Action>, more: seq<Action>)
    requires Run(actions).lost > 0
    ensures var s := Run(actions + more);
      && s.lost > 0 && s.sem == 0 && Holders(s) == 0 && s.published == []
      && forall r :: r in s.readers ==> s.readers[r].history == []
    decreases |more|
  {
    hide IsObject, ScanText, Step;
    Reachable(actions + more);
    if more == [] {
      assert actions + more == actions;
    } else {
      var k := |more| - 1;
      assert (actions + more)[..|actions| + k] == actions + more[..k];
      LostPermitStopsAll(actions, more[..k]);
      LossStays(Run(actions + more[..k]), more[k]);
    }
    NothingInstalled(Run(actions + more));
  }

  lemma {:induction false} LossStays(s: State, a: Action)
    ensures Step(s, a).lost >= s.lost
  {
    hide IsObject;
  }

  lemma {:induction false} NothingInstalled(s: State)
    requires Inv(s) && s.published == []
    ensures forall r :: r in s.readers ==> s.readers[r].history == []
  {
    hide ScanText;
    forall r | r in s.readers ensures s.readers[r].history == [] {
      HistoryNeedsPublications(s, s.readers[r].history);
    }
  }

  lemma {:induction false} HistoryNeedsPublications(s: State, history: seq<(nat, seq<char>)>)
    requires HistoryOk(s, history)
    ensures history != [] ==> s.published != []
  {
    if history != [] {
      assert 0 < history[0].0 <= |s.published|;
    }
  }

  /** Once something is published no read ever fails, whatever longer texts left behind in the region. */
  lemma {:induction false} NoFailureAfterPublishing(actions: seq<Action>)
    requires Run(actions).published != []
    ensures var s := Run(actions);
      s.lost == 0 && forall r :: r in s.readers ==> !s.readers[r].phase.ParseFailed?
  {
    hide IsObject, ScanText;
    Reachable(actions);
    var s := Run(actions);
    forall r | r in s.readers ensures !s.readers[r].phase.ParseFailed? {
      assert PhaseOk(s, s.readers[r].phase);
    }
  }

  /** Reading n characters in a row. */
  ghost function ReadBytes(s: State, r: nat, n: nat): State {
    if n == 0 then s else Step(ReadBytes(s, r, n - 1), ReadByte(r))
  }

  /** A reader that gets in before the first publication fails on its first character and keeps the permit. */
  lemma {:induction false} EarlyReadFails(s: State, r: nat)
    requires Inv(s) && s.published == [] && r in s.readers && s.readers[r].phase.Reading?
    ensures Step(Step(s, ReadByte(r)), ReturnOnFailure(r)).lost == s.lost + 1
  {
    hide IsObject, ScanText, Permits;
    assert PhaseOk(s, s.readers[r].phase);
    StartsBefore(s.region);
    AtMostOneInside(s) by {
      assert Permits(s);
    }
    assert s.region[0] == '\0';
  }

  /** Such a run: initialise, and let a reader in before the writer. */
  lemma {:induction false} PermitCanBeLost()
    ensures Run([Open, Join(0), ReaderWait(0), ReadByte(0), ReturnOnFailure(0)]).lost == 1
  {
    hide IsObject, ScanText;
    var actions := [Open, Join(0), ReaderWait(0), ReadByte(0), ReturnOnFailure(0)];
    assert actions[..1][..0] == [] && actions[..2][..1] == actions[..1];
    assert actions[..3][..2] == actions[..2] && actions[..4][..3] == actions[..3];
    var s0 := Start();
    var s1 := Step(s0, Open);
    var s2 := Step(s1, Join(0));
    var s3 := Step(s2, ReaderWait(0));
    assert Run([]) == s0 && Run(actions[..1]) == s1;
    assert Run(actions[..2]) == s2;
    assert Run(actions[..3]) == s3;
    assert ReadNext(s3.region, 0, Before) == ParseFailed;
    var s4 := Step(s3, ReadByte(0));
    assert Run(actions[..4]) == s4;
    assert Run(actions) == Step(s4, ReturnOnFailure(0));
  }

  /** Where the scan stands after k characters of a region that starts with a whole object. */
  lemma {:induction false} ReadNextOfObject(text: seq<char>, region: seq<char>, k: nat)
    requires IsObject(text) && k < |text| <= |region| && region[..|text|] == text
    ensures ReadNext(region, k, ScanText(Before, region[..k]))
      == if k + 1 == |text| then Parsed(text) else Reading(k + 1, ScanText(Before, region[..k + 1]))
  {
    ScanPrefix(region, k);
    assert region[..k] == text[..k] && region[..k + 1] == text[..k + 1];
    if k + 1 == |text| {
      assert text[..k + 1] == text;
    }
  }

  lemma {:induction false} ReadObject(s: State, r: nat, text: seq<char>, n: nat)
    requires IsObject(text) && n <= |text| <= |s.region| && s.region[..|text|] == text
    requires r in s.readers && s.readers[r].phase == Reading(0, Before)
    ensures ReadBytes(s, r, n)
      == WithPhase(s, r, if n == |text| then Parsed(text) else Reading(n, ScanText(Before, s.region[..n])))
    decreases n
  {
    hide IsObject, ScanText, ReadNext;
    if n == 0 {
      ObjectNotEmpty(text);
      StartsBefore(s.region);
      assert s.readers[r := s.readers[r]] == s.readers;
    } else {
      ReadObject(s, r, text, n - 1);
      ReadNextOfObject(text, s.region, n - 1);
    }
  }

  /** After it, a reader parses exactly the last published text, in exactly as many characters as that text has. */
  lemma {:induction false} ReadsLastText(s: State, r: nat)
    requires Inv(s) && s.published != [] && r in s.readers && s.readers[r].phase == Reading(0, Before)
    ensures var last := s.published[|s.published| - 1];
      ReadBytes(s, r, |last|) == WithPhase(s, r, Parsed(last))
  {
    hide IsObject, ScanText, Permits, ReadersOk, ReadNext, ReadBytes;
    AtMostOneInside(s) by {
      assert Permits(s);
    }
    var last := s.published[|s.published| - 1];
    ReadObject(s, r, last, |last|);
  }

  lemma {:induction false} ObjectNotEmpty(text: seq<char>)
    requires IsObject(text)
    ensures text != []
  {
  }
}
