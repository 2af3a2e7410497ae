/** `qhost.py`: from the scheduler's two listings to one array of reports, and what that leaves on the server. */
module JobBatch {
  import opened Options
  import opened HostMap
  import opened Expansion
  import opened Lines
  import opened Substrings

  /** One line of the scheduler's job list. */
  datatype Job = Job(jobid: string, user: string, hostlist: string)

  const NO_JOB := Job("-", "-", "")

  function HostRpc(host: string, job: Job): Rpc {
    Rpc(Some(host), None, None, Some(job.jobid), Some(job.user), None, None, None)
  }

  function HostRpcs(hosts: seq<string>, job: Job): (rpcs: seq<Rpc>)
    ensures |rpcs| == |hosts|
  {
    seq(|hosts|, i requires 0 <= i < |hosts| => HostRpc(hosts[i], job))
  }

  /** One report per expanded host and job line, in order; nothing is sent if some expression is bad. */
  function JobRpcs(jobs: seq<Job>): Option<seq<Rpc>> {
    if jobs == [] then Some([])
    else
      var k := |jobs| - 1;
      var before, hosts := JobRpcs(jobs[..k]), Expand(jobs[k].hostlist, false);
      if before.Some? && hosts.Ok? then Some(before.value + HostRpcs(hosts.value, jobs[k])) else None
  }

  /** The idle lines become jobs without id; they are sent before the running jobs. */
  function IdleJobs(idle: seq<string>): (jobs: seq<Job>)
    ensures |jobs| == |idle|
  {
    seq(|idle|, i requires 0 <= i < |idle| => NO_JOB.(hostlist := idle[i]))
  }

  // ---------- the listings ----------

  /** A line of the job list as the script unpacks it: its first four words are id, user, name and host list. */
  function JobOf(line: string): Option<Job> {
    var words := Words(line);
    if |words| < 4 then None else Some(Job(words[0], words[1], words[3]))
  }

  /** The jobs of the lines; a line with fewer than four words ends the script. */
  function JobsOf(lines: seq<string>): (jobs: Option<seq<Job>>)
    ensures jobs.Some? ==> |jobs.value| == |lines|
  {
    if lines == [] then Some([])
    else
      var k := |lines| - 1;
      var before, job := JobsOf(lines[..k]), JobOf(lines[k]);
      if before.Some? && job.Some? then Some(before.value + [job.value]) else None
  }

  /**
   * The whole array `qhost.py` sends, from the outputs of `sinfo` and `squeue`: idle hosts first, then running jobs.
   * Nothing is sent if there is no scheduler, a job line is too short, or a host list is bad.
   */
  function Batch(idata: string, rdata: string): Option<seq<Rpc>> {
    var running := JobsOf(Split(rdata));
    if Contains(idata, NO_SCHEDULER) || running.None? then None
    else JobRpcs(IdleJobs(Split(idata)) + running.value)
  }

  const NO_SCHEDULER: string := "command not found"

  /** The last name of the list that is kept under this key. */
  function LastName(hosts: seq<string>, key: string): Option<string> {
    if hosts == [] then None
    else if HostKey(hosts[|hosts| - 1]) == key then Some(hosts[|hosts| - 1])
    else LastName(hosts[..|hosts| - 1], key)
  }

  /** A job given to a host, under the name its host list has for it. */
  datatype Assigned = Assigned(job: Job, name: string)

  function Assign(job: Job, hosts: seq<string>, key: string): Option<Assigned> {
    if LastName(hosts, key).Some? then Some(Assigned(job, LastName(hosts, key).value)) else None
  }

  /** The last job of the list whose expanded host list has the host. */
  function LastJob(jobs: seq<Job>, key: string): Option<Assigned> {
    if jobs == [] then None
    else
      var job := jobs[|jobs| - 1];
      var r := Expand(job.hostlist, false);
      var last := if r.Ok? then Assign(job, r.value, key) else None;
      if last.Some? then last else LastJob(jobs[..|jobs| - 1], key)
  }

  /** The host list expands, and a host kept under this key is in it. */
  ghost predicate Listed(hostlist: string, key: string) {
    && Expand(hostlist, false).Ok?
    && exists i :: 0 <= i < |Expand(hostlist, false).value| && HostKey(Expand(hostlist, false).value[i]) == key
  }

  /** What a batch leaves for a host: the last job's tags and its name there, or what was there. */
  ghost predicate Refines(before: State, after: State, key: string, last: Option<Assigned>) {
    && (last.Some? ==> key in after.hosts && after.hosts[key] == WithJob(before, key, last.value))
    && (last.None? ==> (key in after.hosts <==> key in before.hosts))
    && (last.None? && key in after.hosts ==> after.hosts[key] == before.hosts[key])
  }

  /** The entry of a host, existing or new, with a job's tags and the reported name, otherwise as it was. */
  function WithJob(s: State, key: string, last: Assigned): Host {
    Existing(s, key).(hid := Some(last.name), jid := Some(last.job.jobid), uid := Some(last.job.user))
  }

  lemma {:induction false} ReceivedConcat(s: State, a: seq<Rpc>, b: seq<Rpc>)
    ensures ReceivedAll(s, a + b) == ReceivedAll(ReceivedAll(s, a), b)
  {
    if b == [] {
      assert a + b == a;
    } else {
      var k := |b| - 1;
      assert (a + b)[..|a| + k] == a + b[..k];
      ReceivedConcat(s, a, b[..k]);
    }
  }

  lemma {:induction false} HostRpcRefines(s: State, host: string, job: Job, key: string)
    ensures var after := Received(s, HostRpc(host, job));
      after.nids == s.nids && Refines(s, after, key, if HostKey(host) == key then Some(Assigned(job, host)) else None)
  {
  }

  /** The later of two batches decides. */
  lemma {:induction false} RefinesBoth(a: State, b: State, c: State, key: string, first: Option<Assigned>,
                                       second: Option<Assigned>)
    requires Refines(a, b, key, first) && Refines(b, c, key, second)
    ensures Refines(a, c, key, if second.Some? then second else first)
  {
  }

  /** One job's reports: exactly its hosts get its tags and their names, nothing else changes. */
  lemma {:induction false} HostRpcsRefine(s: State, hosts: seq<string>, job: Job, key: string)
    ensures var after := ReceivedAll(s, HostRpcs(hosts, job));
      after.nids == s.nids && Refines(s, after, key, Assign(job, hosts, key))
  {
    hide Received, Refines, HostRpc;
    if hosts == [] {
      NothingRefines(s, key);
    } else {
      var k := |hosts| - 1;
      var before := ReceivedAll(s, HostRpcs(hosts[..k], job));
      HostRpcsRefine(s, hosts[..k], job, key);
      assert HostRpcs(hosts, job)[..k] == HostRpcs(hosts[..k], job);
      HostRpcRefines(before, hosts[k], job, key);
      RefinesBoth(s, before, ReceivedAll(s, HostRpcs(hosts, job)), key, Assign(job, hosts[..k], key),
                  if HostKey(hosts[k]) == key then Some(Assigned(job, hosts[k])) else None);
    }
  }

  lemma {:induction false} NothingRefines(s: State, key: string)
    ensures Refines(s, s, key, None)
  {
  }

  lemma {:induction false} JobsRefine(s: State, jobs: seq<Job>, key: string)
    requires JobRpcs(jobs).Some?
    ensures ReceivedAll(s, JobRpcs(jobs).value).nids == s.nids
    ensures Refines(s, ReceivedAll(s, JobRpcs(jobs).value), key, LastJob(jobs, key))
  {
    hide HostRpcs, Received, Expand, Refines, Assign;
    if jobs == [] {
      NothingRefines(s, key);
    } else {
      var k := |jobs| - 1;
      var rpcs, hosts := JobRpcs(jobs[..k]).value, Expand(jobs[k].hostlist, false).value;
      var before := ReceivedAll(s, rpcs);
      JobsRefine(s, jobs[..k], key);
      ReceivedConcat(s, rpcs, HostRpcs(hosts, jobs[k]));
      HostRpcsRefine(before, hosts, jobs[k], key);
      RefinesBoth(s, before, ReceivedAll(before, HostRpcs(hosts, jobs[k])), key, LastJob(jobs[..k], key),
                  Assign(jobs[k], hosts, key));
    }
  }

  lemma {:induction false} LastJobConcat(a: seq<Job>, b: seq<Job>, key: string)
    ensures LastJob(a + b, key) == if LastJob(b, key).Some? then LastJob(b, key) else LastJob(a, key)
  {
    hide Assign, Expand;
    if b == [] {
      assert a + b == a;
    } else {
      assert (a + b)[..|a + b| - 1] == a + b[..|b| - 1];
      LastJobConcat(a, b[..|b| - 1], key);
    }
  }

  lemma {:induction false} LastNameIsListed(hosts: seq<string>, key: string)
    ensures LastName(hosts, key).Some? <==> exists i :: 0 <= i < |hosts| && HostKey(hosts[i]) == key
  {
    hide HostKey;
    if hosts != [] {
      var k := |hosts| - 1;
      LastNameIsListed(hosts[..k], key);
      assert forall i :: 0 <= i < k ==> hosts[..k][i] == hosts[i];
    }
  }

  lemma {:induction false} IdleHasNoJob(idle: seq<string>, key: string)
    ensures var last := LastJob(IdleJobs(idle), key);
      && (last.Some? ==> last.value.job.jobid == "-" && last.value.job.user == "-")
      && (last.Some? <==> exists i :: 0 <= i < |idle| && Listed(idle[i], key))
  {
    hide Expand;
    if idle != [] {
      var k := |idle| - 1;
      IdleHasNoJob(idle[..k], key);
      assert IdleJobs(idle)[..k] == IdleJobs(idle[..k]);
      assert forall i :: 0 <= i < k ==> idle[..k][i] == idle[i];
      if Expand(idle[k], false).Ok? {
        LastNameIsListed(Expand(idle[k], false).value, key);
      }
    }
  }

  // ---------- which listings are sent ----------

  /** A line of the job list that the script can use. */
  ghost predicate Usable(line: string) {
    JobOf(line).Some? && Expand(JobOf(line).value.hostlist, false).Ok?
  }

  ghost predicate AllUsable(lines: seq<string>) {
    forall i :: 0 <= i < |lines| ==> Usable(lines[i])
  }

  ghost predicate AllExpand(lines: seq<string>) {
    forall i :: 0 <= i < |lines| ==> Expand(lines[i], false).Ok?
  }

  lemma {:induction false} JobRpcsExactly(jobs: seq<Job>)
    ensures JobRpcs(jobs).Some? <==> forall i :: 0 <= i < |jobs| ==> Expand(jobs[i].hostlist, false).Ok?
  {
    hide Expand, HostRpcs;
    if jobs != [] {
      var k := |jobs| - 1;
      JobRpcsExactly(jobs[..k]);
      assert forall i :: 0 <= i < k ==> jobs[..k][i] == jobs[i];
    }
  }

  lemma {:induction false} JobsOfExactly(lines: seq<string>)
    ensures var jobs := JobsOf(lines);
      && (jobs.Some? <==> forall i :: 0 <= i < |lines| ==> JobOf(lines[i]).Some?)
      && (jobs.Some? ==> forall i :: 0 <= i < |lines| ==> JobOf(lines[i]) == Some(jobs.value[i]))
  {
    hide JobOf;
    if lines != [] {
      var k := |lines| - 1;
      JobsOfExactly(lines[..k]);
      assert forall i :: 0 <= i < k ==> lines[..k][i] == lines[i];
    }
  }

  lemma {:induction false} BothExpand(a: seq<Job>, b: seq<Job>)
    ensures JobRpcs(a + b).Some? <==> JobRpcs(a).Some? && JobRpcs(b).Some?
  {
    hide Expand, JobRpcs;
    JobRpcsExactly(a);
    JobRpcsExactly(b);
    JobRpcsExactly(a + b);
    assert forall i :: 0 <= i < |a| ==> (a + b)[i] == a[i];
    forall i | 0 <= i < |b| ensures (a + b)[|a| + i] == b[i] {
    }
    if JobRpcs(a + b).Some? {
      forall i | 0 <= i < |b| ensures Expand(b[i].hostlist, false).Ok? {
        assert (a + b)[|a| + i] == b[i];
      }
    }
  }

  lemma {:induction false} IdleExpand(idle: seq<string>)
    ensures JobRpcs(IdleJobs(idle)).Some? <==> AllExpand(idle)
  {
    hide Expand, JobRpcs;
    JobRpcsExactly(IdleJobs(idle));
    assert forall i :: 0 <= i < |idle| ==> IdleJobs(idle)[i].hostlist == idle[i];
  }

  lemma {:induction false} RunningUsable(lines: seq<string>)
    ensures JobsOf(lines).Some? && JobRpcs(JobsOf(lines).value).Some?
      <==> AllUsable(lines)
  {
    hide Expand, JobOf, JobsOf, JobRpcs;
    JobsOfExactly(lines);
    if JobsOf(lines).Some? {
      JobRpcsExactly(JobsOf(lines).value);
    }
  }

  /** Exactly when something is sent, in terms of the lines of the two listings. */
  lemma {:induction false} BatchExactly(idata: string, rdata: string)
    ensures var idle, running := Split(idata), Split(rdata);
      Batch(idata, rdata).Some? <==>
        !Contains(idata, NO_SCHEDULER) && AllExpand(idle) && AllUsable(running)
  {
    hide AllUsable, AllExpand, Split, JobsOf, JobRpcs, Contains;
    var idle, running := Split(idata), Split(rdata);
    IdleExpand(idle);
    RunningUsable(running);
    if JobsOf(running).Some? {
      BothExpand(IdleJobs(idle), JobsOf(running).value);
    }
  }

  /** Without running jobs nothing is sent: every host keeps the tags of a job that has ended. */
  lemma {:induction false} NoJobsNoBatch(idata: string)
    ensures Batch(idata, "") == None
  {
    NoJob();
    assert Split("") == [""];
  }

  /**
   * The loops of the script. A line that cannot be used raises, and nothing is sent.
   */
  method BuildBatch(idata: string, rdata: string) returns (sent: Option<seq<Rpc>>)
    ensures sent == Batch(idata, rdata)
  {
    hide Expand, Contains, Split, JobOf, JobRpcs, JobsOf, HostRpcs;
    BatchExactly(idata, rdata);
    Nothing();
    if Contains(idata, NO_SCHEDULER) {
      return None;
    }
    var rpcs := [];
    var idle, lines := Split(idata), Split(rdata);
    assert idle[..0] == [];
    for i := 0 to |idle|
      invariant JobRpcs(IdleJobs(idle[..i])) == Some(rpcs)
    {
      var hosts := ExpandHostlist(idle[i], false);
      if hosts.Err? {
        assert Split(idata)[i] == idle[i];
        return None;
      }
      var job := NO_JOB.(hostlist := idle[i]);
      rpcs := AddReports(rpcs, hosts.value, job);
      assert IdleJobs(idle[..i + 1]) == IdleJobs(idle[..i]) + [job];
      OneMoreJob(IdleJobs(idle[..i]), job);
    }
    assert idle[..|idle|] == idle && lines[..0] == [];
    ghost var waiting := IdleJobs(idle);
    assert waiting + [] == waiting;
    for i := 0 to |lines|
      invariant JobsOf(lines[..i]).Some? && JobRpcs(waiting + JobsOf(lines[..i]).value) == Some(rpcs)
    {
      var job := JobOf(lines[i]);
      if job.None? {
        assert Split(rdata)[i] == lines[i];
        assert !Usable(lines[i]) by { NotUsable(lines[i]); }
        return None;
      }
      var hosts := ExpandHostlist(job.value.hostlist, false);
      if hosts.Err? {
        assert Split(rdata)[i] == lines[i];
        assert !Usable(lines[i]) by { NotUsable(lines[i]); }
        return None;
      }
      rpcs := AddReports(rpcs, hosts.value, job.value);
      assert lines[..i + 1] == lines[..i] + [lines[i]];
      OneMoreLine(lines[..i], lines[i]);
      ghost var before := JobsOf(lines[..i]).value;
      assert waiting + (before + [job.value]) == waiting + before + [job.value];
      OneMoreJob(waiting + before, job.value);
    }
    assert lines[..|lines|] == lines;
    return Some(rpcs);
  }

  lemma {:induction false} Nothing()
    ensures JobRpcs(IdleJobs([])) == Some([]) && JobsOf([]) == Some([])
  {
    assert IdleJobs([]) == [];
  }

  lemma {:induction false} OneMoreLine(lines: seq<string>, line: string)
    ensures var before, job := JobsOf(lines), JobOf(line);
      JobsOf(lines + [line]) == if before.Some? && job.Some? then Some(before.value + [job.value]) else None
  {
    hide JobOf;
    assert (lines + [line])[..|lines|] == lines;
  }

  lemma {:induction false} NotUsable(line: string)
    ensures Usable(line) ==> JobOf(line).Some? && Expand(JobOf(line).value.hostlist, false).Ok?
  {
    hide Expand, JobOf;
  }

  lemma {:induction false} OneMoreJob(jobs: seq<Job>, job: Job)
    ensures var before, hosts := JobRpcs(jobs), Expand(job.hostlist, false);
      JobRpcs(jobs + [job])
      == if before.Some? && hosts.Ok? then Some(before.value + HostRpcs(hosts.value, job)) else None
  {
    hide Expand, HostRpcs;
    assert (jobs + [job])[..|jobs|] == jobs;
  }

  /** The loop over the hosts of one line. */
  method AddReports(before: seq<Rpc>, hosts: seq<string>, job: Job) returns (rpcs: seq<Rpc>)
    ensures rpcs == before + HostRpcs(hosts, job)
  {
    rpcs := before;
    for i := 0 to |hosts|
      invariant rpcs == before + HostRpcs(hosts, job)[..i]
    {
      rpcs := rpcs + [HostRpc(hosts[i], job)];
    }
  }

  /**
   * Job batch refinement. A batch is sent exactly when the lines of both listings can be used. After it is folded
   * through `update_host_map`, every host of a running job has the jid and uid of the last running job whose expanded
   * host list contains it, every other listed host has `-`, each under the last name that list has for it, and a host
   * that is not listed keeps its entry; claims are untouched.
   */
  lemma {:induction false} BatchRefines(s: State, idata: string, rdata: string, key: string)
    ensures var idle, running := Split(idata), Split(rdata);
      Batch(idata, rdata).Some? <==>
        !Contains(idata, NO_SCHEDULER) && AllExpand(idle) && AllUsable(running)
    ensures Batch(idata, rdata).Some? ==>
        var after, idle := ReceivedAll(s, Batch(idata, rdata).value), Split(idata);
        var job, waiting := LastJob(JobsOf(Split(rdata)).value, key), LastJob(IdleJobs(idle), key);
        && after.nids == s.nids
        && Refines(s, after, key, if job.Some? then job else waiting)
        && (waiting.Some? ==> waiting.value.job.jobid == "-" && waiting.value.job.user == "-")
        && (waiting.Some? <==> exists i :: 0 <= i < |idle| && Listed(idle[i], key))
  {
    hide Received, ReceivedAll, Listed, Refines, Expand, Split, Contains, JobOf, JobsOf, JobRpcs, Usable;
    BatchExactly(idata, rdata);
    if Batch(idata, rdata).Some? {
      var idle, running := Split(idata), JobsOf(Split(rdata)).value;
      JobsRefine(s, IdleJobs(idle) + running, key);
      LastJobConcat(IdleJobs(idle), running, key);
      IdleHasNoJob(idle, key);
    }
  }

  // ---------- the scheduler's jobs ----------

  /** A running job as the scheduler has it; its name may be anything. */
  datatype Scheduled = Scheduled(jobid: string, user: string, name: string, nodes: string) {
    /** `squeue -o "%i %u %j %N"` */
    function Line(): string {
      jobid + " " + user + " " + name + " " + nodes
    }

    function Told(): Job {
      Job(jobid, user, nodes)
    }

    /** Id, user and nodes are words, and the job is on one line. */
    ghost predicate Printable() {
      IsWord(jobid) && IsWord(user) && IsWord(nodes) && OneLine(Line())
    }

    /** The fourth word of the line is the host list: the name is one word, or its second word is that list. */
    predicate ReadRight() {
      |Words(name)| == 1 || (|Words(name)| > 1 && Words(name)[1] == nodes)
    }
  }

  function LinesOf(jobs: seq<Scheduled>): (lines: seq<string>)
    ensures |lines| == |jobs|
  {
    seq(|jobs|, i requires 0 <= i < |jobs| => jobs[i].Line())
  }

  function ToldOf(jobs: seq<Scheduled>): (r: seq<Job>)
    ensures |r| == |jobs|
  {
    seq(|jobs|, i requires 0 <= i < |jobs| => jobs[i].Told())
  }

  /** `getoutput` takes the last newline away. */
  function GetOutput(text: string): string {
    if text != "" && text[|text| - 1] == '\n' then text[..|text| - 1] else text
  }

  /** What the script takes a job for: a name of several words displaces the host list, an empty one hides it. */
  lemma {:induction false} LineIsRead(job: Scheduled)
    requires job.Printable()
    ensures JobOf(job.Line()) == match |Words(job.name)|
            case 0 => None
            case 1 => Some(job.Told())
            case _ => Some(job.Told().(hostlist := Words(job.name)[1]))
  {
    hide IsWord;
    var front := job.jobid + " " + job.user;
    WordsConcat(job.jobid, ' ', job.user);
    WordsConcat(front, ' ', job.name);
    WordsConcat(front + " " + job.name, ' ', job.nodes);
    WordsOfWord(job.jobid);
    WordsOfWord(job.user);
    WordsOfWord(job.nodes);
    assert Words(job.Line()) == [job.jobid, job.user] + Words(job.name) + [job.nodes];
  }

  lemma {:induction false} SplitOutput(lines: seq<string>)
    requires AreLines(lines)
    ensures Split(GetOutput(Text(lines))) == if lines == [] then [""] else lines
  {
    if lines != [] {
      var k := |lines| - 1;
      var text := Text(lines);
      TextAppend(lines[..k], [lines[k]]);
      assert lines == lines[..k] + [lines[k]];
      assert Text([lines[k]]) == lines[k] + "\n" by { assert [lines[k]][1..] == []; }
      assert text == Text(lines[..k]) + lines[k] + "\n";
      SplitOfText(lines);
      SplitIsLines(GetOutput(text));
      TextOfSplit(GetOutput(text));
      SameText(Split(GetOutput(text)), lines);
    }
  }

  lemma {:induction false} SameText(a: seq<string>, b: seq<string>)
    requires AreLines(a) && AreLines(b) && Text(a) == Text(b)
    ensures a == b
  {
    SplitOfText(a);
    SplitOfText(b);
    assert (a + [""])[..|a|] == a && (b + [""])[..|b|] == b;
  }

  /** No name hides a host list. */
  ghost predicate AllRead(jobs: seq<Scheduled>) {
    forall i :: 0 <= i < |jobs| ==> jobs[i].ReadRight()
  }

  lemma {:induction false} LinesAreRead(jobs: seq<Scheduled>)
    requires forall i :: 0 <= i < |jobs| ==> jobs[i].Printable()
    ensures AreLines(LinesOf(jobs)) && (JobsOf(LinesOf(jobs)) == Some(ToldOf(jobs)) <==> AllRead(jobs))
    decreases |jobs|
  {
    hide Scheduled.Line, Scheduled.ReadRight, Scheduled.Told, JobOf;
    if jobs != [] {
      var k := |jobs| - 1;
      LinesAreRead(jobs[..k]);
      ReadRightIs(jobs[k]);
      assert LinesOf(jobs)[..k] == LinesOf(jobs[..k]);
      assert ToldOf(jobs) == ToldOf(jobs[..k]) + [jobs[k].Told()];
      assert forall i :: 0 <= i < k ==> jobs[..k][i] == jobs[i];
      if JobsOf(LinesOf(jobs)) == Some(ToldOf(jobs)) {
        var before, job := JobsOf(LinesOf(jobs[..k])), JobOf(jobs[k].Line());
        assert before.value + [job.value] == ToldOf(jobs[..k]) + [jobs[k].Told()];
        assert (before.value + [job.value])[..k] == before.value && (before.value + [job.value])[k] == job.value;
        assert (ToldOf(jobs[..k]) + [jobs[k].Told()])[..k] == ToldOf(jobs[..k]);
      }
    }
  }

  /** The script reads the scheduler's jobs as they are exactly when there is one and each line is read right. */
  lemma {:induction false} JobsAreRead(jobs: seq<Scheduled>)
    requires forall i :: 0 <= i < |jobs| ==> jobs[i].Printable()
    ensures JobsOf(Split(GetOutput(Text(LinesOf(jobs))))) == Some(ToldOf(jobs)) <==> jobs != [] && AllRead(jobs)
  {
    hide Split, GetOutput, Text, Scheduled.Printable, JobsOf, AllRead;
    LinesAreRead(jobs);
    SplitOutput(LinesOf(jobs));
    NoJob();
  }

  lemma {:induction false} NoJob()
    ensures JobOf("") == None && JobsOf([""]) == None
  {
    assert Words("") == [] && [""][..0] == [];
  }

  lemma {:induction false} ReadRightIs(job: Scheduled)
    requires job.Printable()
    ensures JobOf(job.Line()) == Some(job.Told()) <==> job.ReadRight()
  {
    hide Scheduled.Line, JobOf;
    LineIsRead(job);
  }

  /**
   * From the scheduler to the server, when no name hides a host list: a batch is sent exactly when there is a job and
   * all host lists expand, and then every host gets the tags of the last of these jobs that it is in, or `-` if it is
   * only listed, or keeps its own.
   */
  lemma {:induction false} ScheduledBatchRefines(s: State, idata: string, jobs: seq<Scheduled>, key: string)
    requires AllRead(jobs) && forall i :: 0 <= i < |jobs| ==> jobs[i].Printable()
    ensures var batch := Batch(idata, GetOutput(Text(LinesOf(jobs))));
      batch.Some? <==>
        && jobs != [] && !Contains(idata, NO_SCHEDULER) && AllExpand(Split(idata))
        && forall i :: 0 <= i < |jobs| ==> Expand(jobs[i].nodes, false).Ok?
    ensures var batch := Batch(idata, GetOutput(Text(LinesOf(jobs))));
      var job, waiting := LastJob(ToldOf(jobs), key), LastJob(IdleJobs(Split(idata)), key);
      batch.Some? ==> Refines(s, ReceivedAll(s, batch.value), key, if job.Some? then job else waiting)
  {
    hide Refines, ReceivedAll, Split, LastJob, AllRead, Scheduled.Printable, AllUsable, AllExpand, Listed, JobsOf,
        JobRpcs, Expand, Contains, Text, GetOutput;
    if jobs == [] {
      NoJobsNoBatch(idata);
      NoJobsNoText();
      assert LinesOf(jobs) == [];
    } else {
      JobsAreRead(jobs);
      BatchRefines(s, idata, GetOutput(Text(LinesOf(jobs))), key);
      IdleExpand(Split(idata));
      BothExpand(IdleJobs(Split(idata)), ToldOf(jobs));
      ToldExpand(jobs);
    }
  }

  lemma {:induction false} ToldExpand(jobs: seq<Scheduled>)
    ensures JobRpcs(ToldOf(jobs)).Some? <==> forall i :: 0 <= i < |jobs| ==> Expand(jobs[i].nodes, false).Ok?
  {
    hide Expand, JobRpcs;
    JobRpcsExactly(ToldOf(jobs));
    assert forall i :: 0 <= i < |jobs| ==> ToldOf(jobs)[i].hostlist == jobs[i].nodes;
  }

  lemma {:induction false} NoJobsNoText()
    ensures GetOutput(Text([])) == ""
  {
  }
}
