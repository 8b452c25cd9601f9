/** The polling scheduler: a concurrency cap and one blocking run per task, whatever spawning does.
    Process spawning, the file system and the task board appear as outcomes chosen by the environment. */
module PollingScheduler {
  import opened Options

  datatype Status = Queued | Spawning | Running | Terminating | Quarantined | Completed | Failed | Cancelled

  predicate Blocking(s: Status) {
    s.Queued? || s.Spawning? || s.Running? || s.Terminating? || s.Quarantined?
  }

  /** Listed as active: blocking but not quarantined. A quarantined run is looked at no more. */
  predicate Active(s: Status) {
    Blocking(s) && !s.Quarantined?
  }

  predicate Edge(a: Status, b: Status) {
    match a
    case Queued => b.Spawning? || b.Cancelled? || b.Quarantined?
    case Spawning => b.Running? || b.Quarantined? || b.Failed? || b.Cancelled?
    case Running => b.Terminating? || b.Completed? || b.Failed? || b.Cancelled?
    case Terminating => b.Completed? || b.Failed? || b.Cancelled?
    case Quarantined => b.Cancelled?
    case _ => false
  }

  datatype PollRun = PollRun(task: string, status: Status, startedAt: Option<int>)

  type Runs = map<string, PollRun>

  /** The status update of a repository that checks the transition table (`strict`) raises on other moves. */
  predicate UpdateRaises(runs: Runs, id: string, s: Status, strict: bool) {
    strict && id in runs && !Edge(runs[id].status, s)
  }

  /** An update that raises changes nothing; one to a status that is not final sets the start time. */
  function Updated(runs: Runs, id: string, s: Status, now: int, strict: bool): Runs {
    if id !in runs || UpdateRaises(runs, id, s, strict) then runs
    else runs[id := PollRun(runs[id].task, s, if Blocking(s) then Some(now) else runs[id].startedAt)]
  }

  /** How one attempt to spawn goes: where it is refused, fails, raises, or gets through. */
  datatype Outcome =
    | Suppressed               // the launch registry says no, or cannot be asked
    | DenialUnsaved            // the same, and storing the cancelled run raises
    | NeverSaved               // the launch is granted, and the run directory or the repository raises
    | StartRefused(raises: bool)   // the board refuses to start the task; telling the registry may raise
    | StartErrors              // the board raises anything else
    | ConfirmRaises            // telling the registry that spawning begins raises
    | SpawnRaises
    | NoHandle(raises: bool)   // no launch handle; writing the event about that may raise
    | MetadataRaises
    | MetadataLost(raises: bool)
    | EventRaises
    | RunningRaises            // the launch is active, and marking the run as running raises
    | Launched(raises: bool)   // running; writing the status file may raise

  datatype Candidate = Candidate(task: string, registryBlocks: bool, runId: string, now: int, outcome: Outcome)

  /** The status in which an attempt leaves its run; None if it leaves no run. */
  function LeftIn(o: Outcome, strict: bool): Option<Status> {
    match o
    case Suppressed => Some(Cancelled)
    case DenialUnsaved => None
    case NeverSaved => None
    case StartRefused(_) => Some(if strict then Queued else Failed)
    case StartErrors => Some(Queued)
    case ConfirmRaises => Some(Spawning)
    case SpawnRaises => Some(Spawning)
    case NoHandle(_) => Some(Quarantined)
    case MetadataRaises => Some(Spawning)
    case MetadataLost(_) => Some(Quarantined)
    case EventRaises => Some(Spawning)
    case RunningRaises => Some(Spawning)
    case Launched(_) => Some(Running)
  }

  predicate Raises(o: Outcome, strict: bool) {
    match o
    case Suppressed => false
    case StartRefused(raises) => strict || raises
    case NoHandle(raises) => raises
    case MetadataLost(raises) => raises
    case Launched(raises) => raises
    case _ => true
  }

  function Spawned(runs: Runs, c: Candidate, strict: bool): Runs {
    var s := LeftIn(c.outcome, strict);
    if s.None? then runs
    else
      var started := Blocking(s.value) && !s.value.Queued?;
      runs[c.runId := PollRun(c.task, s.value, if started then Some(c.now) else None)]
  }

  function BlockingIds(runs: Runs): set<string> {
    set id | id in runs && Blocking(runs[id].status)
  }

  function BlockedTasks(runs: Runs): set<string> {
    set id | id in BlockingIds(runs) :: runs[id].task
  }

  /** No task has two blocking runs. */
  ghost predicate OnePerTask(runs: Runs) {
    forall a, b :: a in BlockingIds(runs) && b in BlockingIds(runs) && runs[a].task == runs[b].task ==> a == b
  }

  /** The approved tasks that may be tried, in order. */
  function Candidates(runs: Runs, approved: seq<Candidate>): seq<Candidate> {
    if approved == [] then []
    else
      var c := approved[|approved| - 1];
      Candidates(runs, approved[..|approved| - 1])
      + if c.task in BlockedTasks(runs) || c.registryBlocks then [] else [c]
  }

  /** Spawning in order until one attempt raises. */
  function SpawnAll(runs: Runs, cs: seq<Candidate>, strict: bool): (Runs, bool) {
    if cs == [] then (runs, false)
    else
      var before := SpawnAll(runs, cs[..|cs| - 1], strict);
      if before.1 then before
      else (Spawned(before.0, cs[|cs| - 1], strict), Raises(cs[|cs| - 1].outcome, strict))
  }

  function Polled(runs: Runs, maxConcurrent: int, approved: seq<Candidate>, strict: bool): (Runs, bool) {
    var available := maxConcurrent - |BlockingIds(runs)|;
    var candidates := Candidates(runs, approved);
    if available <= 0 then (runs, false)
    else SpawnAll(runs, candidates[..Min(available, |candidates|)], strict)
  }

  // Checking and cancelling.

  /** What the run directory's status file says: missing, completed, failed, or anything else. */
  datatype File = Missing | SaysCompleted | SaysFailed | SaysOther

  /** Where something other than a status update raises while a run is checked. */
  datatype Trouble = NoTrouble | Midway | AtEnd

  const TIMEOUT_MS := 300_000

  predicate TimedOut(r: PollRun, now: int) {
    now - r.startedAt.GetOr(0) > TIMEOUT_MS
  }

  /** First part of cleaning up: the status on the way to the end. */
  function CleanedUp(runs: Runs, id: string, now: int, strict: bool): (Runs, bool) {
    if id !in runs then (runs, false)
    else
      var s := runs[id].status;
      if s.Running? || s.Spawning? then
        (Updated(runs, id, Terminating, now, strict), UpdateRaises(runs, id, Terminating, strict))
      else if s.Queued? || s.Quarantined? then
        (Updated(runs, id, Cancelled, now, strict), UpdateRaises(runs, id, Cancelled, strict))
      else (runs, false)
  }

  /** Ending a run: clean up, then set the final status. Closing the agent in between, or the bookkeeping after, may
      raise too. */
  function Ended(runs: Runs, id: string, s: Status, t: Trouble, now: int, strict: bool): (Runs, bool) {
    var clean := CleanedUp(runs, id, now, strict);
    if clean.1 || t.Midway? then (clean.0, true)
    else (Updated(clean.0, id, s, now, strict), UpdateRaises(clean.0, id, s, strict) || t.AtEnd?)
  }

  function TimeoutChecked(runs: Runs, id: string, t: Trouble, now: int, strict: bool): (Runs, bool)
    requires id in runs
  {
    if TimedOut(runs[id], now) then
      (Updated(runs, id, Quarantined, now, strict), UpdateRaises(runs, id, Quarantined, strict) || t.AtEnd?)
    else (runs, false)
  }

  /** Only the runs that are listed as active are looked at. */
  function CheckedOne(runs: Runs, l: Look, now: int, strict: bool): (Runs, bool) {
    if l.id !in runs || !Active(runs[l.id].status) then (runs, false)
    else
      var unresolved := runs[l.id].status.Queued? || runs[l.id].status.Spawning?;
      match l.file
      case SaysCompleted => Ended(runs, l.id, Completed, l.trouble, now, strict)
      case SaysFailed => Ended(runs, l.id, Failed, l.trouble, now, strict)
      case Missing =>
        if unresolved then TimeoutChecked(runs, l.id, l.trouble, now, strict)
        else Ended(runs, l.id, Failed, l.trouble, now, strict)
      case SaysOther => if unresolved then TimeoutChecked(runs, l.id, l.trouble, now, strict) else (runs, false)
  }

  datatype Look = Look(id: string, file: File, trouble: Trouble)

  /** Checking the listed runs in order until one raises. */
  function Checked(runs: Runs, looks: seq<Look>, now: int, strict: bool): (Runs, bool) {
    if looks == [] then (runs, false)
    else
      var before, l := Checked(runs, looks[..|looks| - 1], now, strict), looks[|looks| - 1];
      if before.1 then before else CheckedOne(before.0, l, now, strict)
  }

  function CancelledRun(runs: Runs, id: string, now: int, strict: bool): Runs {
    if id !in runs || !Edge(runs[id].status, Cancelled) then runs else Updated(runs, id, Cancelled, now, strict)
  }

  /** The transition table, by the status that is entered. */
  lemma EntersFrom(a: Status)
    ensures !Edge(a, Queued)
    ensures Edge(a, Spawning) <==> a.Queued?
    ensures Edge(a, Running) <==> a.Spawning?
    ensures Edge(a, Terminating) <==> a.Running?
    ensures Edge(a, Quarantined) <==> a.Queued? || a.Spawning?
    ensures Edge(a, Completed) <==> a.Running? || a.Terminating?
    ensures Edge(a, Failed) <==> a.Spawning? || a.Running? || a.Terminating?
    ensures Edge(a, Cancelled) <==> Blocking(a)
  {
  }

  /** An update writes the status; to one that is not final it writes the start time as well, while the final ones
      keep it. It raises on a move that the table lacks, if the repository checks, and then changes nothing. */
  lemma UpdateMeans(runs: Runs, id: string, s: Status, now: int, strict: bool)
    requires id in runs
    ensures var after := Updated(runs, id, s, now, strict);
      && (UpdateRaises(runs, id, s, strict) <==> strict && !Edge(runs[id].status, s))
      && (UpdateRaises(runs, id, s, strict) ==> after == runs)
      && (!UpdateRaises(runs, id, s, strict) ==>
            && after == runs[id := after[id]] && after[id].status == s && after[id].task == runs[id].task
            && after[id].startedAt ==
                 if s.Completed? || s.Failed? || s.Cancelled? then runs[id].startedAt else Some(now))
  {
  }

  /** Five minutes without an answer since the start, or since the epoch when there is no start time. */
  lemma TimeoutMeans(r: PollRun, now: int)
    ensures r.startedAt.Some? ==> (TimedOut(r, now) <==> r.startedAt.value + 5 * 60 * 1000 < now)
    ensures r.startedAt.None? ==> (TimedOut(r, now) <==> 5 * 60 * 1000 < now)
  {
  }

  /** How attempts end: an attempt that does not raise settles its run, as cancelled, failed, quarantined or
      running; one that raises leaves none, or one that is queued or spawning, unless only its last report failed. */
  lemma AttemptSettles(o: Outcome, strict: bool)
    ensures Raises(o, strict) <==>
      || LeftIn(o, strict).None? || LeftIn(o, strict).value.Queued? || LeftIn(o, strict).value.Spawning?
      || ((o.StartRefused? || o.NoHandle? || o.MetadataLost? || o.Launched?) && o.raises)
    ensures LeftIn(o, strict).None? <==> o.DenialUnsaved? || o.NeverSaved?
    ensures LeftIn(o, strict) == Some(Cancelled) <==> o.Suppressed?
    ensures LeftIn(o, strict) == Some(Queued) <==> o.StartErrors? || (o.StartRefused? && strict)
    ensures LeftIn(o, strict) == Some(Failed) <==> o.StartRefused? && !strict
    ensures LeftIn(o, strict) == Some(Quarantined) <==> o.NoHandle? || o.MetadataLost?
    ensures LeftIn(o, strict) == Some(Running) <==> o.Launched?
    ensures LeftIn(o, strict).Some? ==> !LeftIn(o, strict).value.Completed? && !LeftIn(o, strict).value.Terminating?
  {
  }

  // The service.

  class PollingService {
    const strict: bool
    var maxConcurrent: int
    var runs: Runs

    constructor (strict: bool, maxConcurrent: int)
      ensures this.strict == strict && this.maxConcurrent == maxConcurrent && runs == map[]
    {
      this.strict, this.maxConcurrent, runs := strict, maxConcurrent, map[];
    }

    method UpdateStatus(id: string, s: Status, now: int) returns (raised: bool)
      modifies this`runs
      ensures runs == Updated(old(runs), id, s, now, strict)
      ensures raised <==> UpdateRaises(old(runs), id, s, strict)
    {
      if UpdateRaises(runs, id, s, strict) {
        return true;
      }
      runs := Updated(runs, id, s, now, strict);
      return false;
    }

    /** Creates, persists and starts one run, step by step. */
    method SpawnRun(c: Candidate) returns (raised: bool)
      modifies this`runs
      ensures runs == Spawned(old(runs), c, strict)
      ensures raised <==> Raises(c.outcome, strict)
    {
      var id := c.runId;
      if c.outcome.Suppressed? {
        runs := runs[id := PollRun(c.task, Cancelled, None)];
        return false;
      }
      if c.outcome.DenialUnsaved? || c.outcome.NeverSaved? {
        return true;
      }
      runs := runs[id := PollRun(c.task, Queued, None)];
      if c.outcome.StartErrors? {
        return true;
      }
      if c.outcome.StartRefused? {
        raised := UpdateStatus(id, Failed, c.now);
        return raised || c.outcome.raises;
      }
      raised := UpdateStatus(id, Spawning, c.now);
      if c.outcome.ConfirmRaises? || c.outcome.SpawnRaises? || c.outcome.MetadataRaises? || c.outcome.EventRaises?
         || c.outcome.RunningRaises?
      {
        return true;
      }
      if c.outcome.NoHandle? || c.outcome.MetadataLost? {
        raised := UpdateStatus(id, Quarantined, c.now);
        return c.outcome.raises;
      }
      raised := UpdateStatus(id, Running, c.now);
      return c.outcome.raises;
    }

    /** One poll cycle over the approved tasks. */
    method PollOnce(approved: seq<Candidate>) returns (raised: bool)
      modifies this`runs
      ensures (runs, raised) == Polled(old(runs), maxConcurrent, approved, strict)
    {
      hide SpawnAll, Candidates;
      var available := maxConcurrent - |BlockingIds(runs)|;
      if available <= 0 {
        return false;
      }
      var candidates := ChooseCandidates(approved);
      raised := SpawnChosen(candidates[..Min(available, |candidates|)]);
    }

    method ChooseCandidates(approved: seq<Candidate>) returns (candidates: seq<Candidate>)
      ensures candidates == Candidates(runs, approved)
    {
      hide BlockedTasks;
      var blocked := BlockedTasks(runs);
      candidates := [];
      for i := 0 to |approved|
        invariant candidates == Candidates(runs, approved[..i])
      {
        assert approved[..i + 1][..i] == approved[..i] && approved[..i + 1][i] == approved[i];
        if approved[i].task in blocked || approved[i].registryBlocks {
          continue;
        }
        candidates := candidates + [approved[i]];
      }
      assert approved[..|approved|] == approved;
    }

    method SpawnChosen(chosen: seq<Candidate>) returns (raised: bool)
      modifies this`runs
      ensures (runs, raised) == SpawnAll(old(runs), chosen, strict)
    {
      hide Spawned, Raises;
      for i := 0 to |chosen|
        invariant (runs, false) == SpawnAll(old(runs), chosen[..i], strict)
      {
        assert chosen[..i + 1][..i] == chosen[..i] && chosen[..i + 1][i] == chosen[i];
        raised := SpawnRun(chosen[i]);
        if raised {
          SpawnAllStops(old(runs), chosen, i + 1, strict);
          return true;
        }
      }
      assert chosen[..|chosen|] == chosen;
      return false;
    }

    method CleanUp(id: string, now: int) returns (raised: bool)
      modifies this`runs
      ensures (runs, raised) == CleanedUp(old(runs), id, now, strict)
    {
      if id !in runs {
        return false;
      }
      var s := runs[id].status;
      if s.Running? || s.Spawning? {
        raised := UpdateStatus(id, Terminating, now);
      } else if s.Queued? || s.Quarantined? {
        raised := UpdateStatus(id, Cancelled, now);
      } else {
        raised := false;
      }
    }

    method EndRun(id: string, s: Status, t: Trouble, now: int) returns (raised: bool)
      modifies this`runs
      ensures (runs, raised) == Ended(old(runs), id, s, t, now, strict)
    {
      raised := CleanUp(id, now);
      if raised || t.Midway? {
        return true;
      }
      raised := UpdateStatus(id, s, now);
      return raised || t.AtEnd?;
    }

    /** Checks the runs that are listed as active, in order. */
    method CheckRuns(looks: seq<Look>, now: int) returns (raised: bool)
      modifies this`runs
      ensures (runs, raised) == Checked(old(runs), looks, now, strict)
    {
      for i := 0 to |looks|
        invariant (runs, false) == Checked(old(runs), looks[..i], now, strict)
      {
        assert looks[..i + 1][..i] == looks[..i] && looks[..i + 1][i] == looks[i];
        var l := looks[i];
        raised := false;
        if l.id in runs && Active(runs[l.id].status) {
          var run := runs[l.id];
          if l.file.SaysCompleted? {
            raised := EndRun(l.id, Completed, l.trouble, now);
          } else if l.file.SaysFailed? || (l.file.Missing? && !run.status.Queued? && !run.status.Spawning?) {
            raised := EndRun(l.id, Failed, l.trouble, now);
          } else if (run.status.Queued? || run.status.Spawning?) && TimedOut(run, now) {
            raised := UpdateStatus(l.id, Quarantined, now);
            raised := raised || l.trouble.AtEnd?;
          }
        }
        if raised {
          CheckedStops(old(runs), looks, i + 1, now, strict);
          return true;
        }
      }
      assert looks[..|looks|] == looks;
      return false;
    }

    /** Cancels a run whose status allows it; the clean-up after that finds a final status. */
    method CancelRun(id: string, now: int) returns (ok: bool)
      modifies this`runs
      ensures runs == CancelledRun(old(runs), id, now, strict)
      ensures ok <==> id in old(runs) && Blocking(old(runs)[id].status)
      ensures ok ==> id in runs && runs[id].status.Cancelled?
    {
      if id !in runs || !Edge(runs[id].status, Cancelled) {
        return false;
      }
      var raised := UpdateStatus(id, Cancelled, now);
      raised := CleanUp(id, now);
      return true;
    }
  }

  lemma {:induction false} SpawnAllStops(runs: Runs, cs: seq<Candidate>, n: nat, strict: bool)
    requires n <= |cs| && SpawnAll(runs, cs[..n], strict).1
    ensures SpawnAll(runs, cs, strict) == SpawnAll(runs, cs[..n], strict)
    decreases |cs|
  {
    if n == |cs| {
      assert cs[..n] == cs;
    } else {
      assert cs[..|cs| - 1][..n] == cs[..n];
      SpawnAllStops(runs, cs[..|cs| - 1], n, strict);
    }
  }

  lemma {:induction false} CheckedStops(runs: Runs, looks: seq<Look>, n: nat, now: int, strict: bool)
    requires n <= |looks| && Checked(runs, looks[..n], now, strict).1
    ensures Checked(runs, looks, now, strict) == Checked(runs, looks[..n], now, strict)
    decreases |looks|
  {
    if n == |looks| {
      assert looks[..n] == looks;
    } else {
      assert looks[..|looks| - 1][..n] == looks[..n];
      CheckedStops(runs, looks[..|looks| - 1], n, now, strict);
    }
  }

  // Safety.

  /** Nothing starts blocking: every blocking run was blocking before, for the same task. */
  ghost predicate NothingNew(before: Runs, after: Runs) {
    forall id :: id in BlockingIds(after) ==> id in BlockingIds(before) && after[id].task == before[id].task
  }

  lemma NothingNewIsSafe(before: Runs, after: Runs)
    requires NothingNew(before, after)
    ensures OnePerTask(before) ==> OnePerTask(after)
    ensures |BlockingIds(after)| <= |BlockingIds(before)|
  {
    assert BlockingIds(after) <= BlockingIds(before);
    SubsetSize(BlockingIds(after), BlockingIds(before));
  }

  lemma SubsetSize(a: set<string>, b: set<string>)
    requires a <= b
    ensures |a| <= |b|
  {
    assert b == a + (b - a);
  }

  ghost predicate DistinctTasks(cs: seq<Candidate>) {
    forall i, k :: 0 <= i < k < |cs| ==> cs[i].task != cs[k].task
  }

  ghost predicate FreeTasks(runs: Runs, cs: seq<Candidate>) {
    forall i :: 0 <= i < |cs| ==> cs[i].task !in BlockedTasks(runs)
  }

  lemma {:induction false} CandidatesAreFree(runs: Runs, approved: seq<Candidate>)
    requires DistinctTasks(approved)
    ensures FreeTasks(runs, Candidates(runs, approved)) && DistinctTasks(Candidates(runs, approved))
    ensures forall c :: c in Candidates(runs, approved) ==> c in approved && !c.registryBlocks
  {
    if approved != [] {
      var n := |approved| - 1;
      CandidatesAreFree(runs, approved[..n]);
      var cs, c := Candidates(runs, approved[..n]), approved[n];
      forall i | 0 <= i < |cs| ensures cs[i].task != c.task && cs[i] in approved && !cs[i].registryBlocks {
        assert cs[i] in cs;
        var k :| 0 <= k < n && approved[..n][k] == cs[i];
        assert approved[k].task != approved[n].task;
      }
      var all := Candidates(runs, approved);
      assert all == cs || (all == cs + [c] && c.task !in BlockedTasks(runs) && !c.registryBlocks);
    }
  }

  /** Spawning for a task without a blocking run adds at most one blocking run, for that task. */
  lemma SpawnedIsSafe(runs: Runs, c: Candidate, strict: bool)
    requires OnePerTask(runs) && c.task !in BlockedTasks(runs)
    ensures OnePerTask(Spawned(runs, c, strict))
    ensures |BlockingIds(Spawned(runs, c, strict))| <= |BlockingIds(runs)| + 1
    ensures BlockedTasks(Spawned(runs, c, strict)) <= BlockedTasks(runs) + {c.task}
  {
    var after := Spawned(runs, c, strict);
    assert BlockingIds(after) <= BlockingIds(runs) + {c.runId};
    SubsetSize(BlockingIds(after), BlockingIds(runs) + {c.runId});
    forall id | id in BlockingIds(after) ensures after[id].task in BlockedTasks(runs) + {c.task} {
      if id != c.runId {
        assert id in BlockingIds(runs) && runs[id].task in BlockedTasks(runs);
      }
    }
    forall a, b | a in BlockingIds(after) && b in BlockingIds(after) && after[a].task == after[b].task ensures a == b {
      if a != c.runId {
        assert runs[a].task in BlockedTasks(runs);
      }
      if b != c.runId {
        assert runs[b].task in BlockedTasks(runs);
      }
    }
  }

  lemma {:induction false} SpawnAllIsSafe(runs: Runs, cs: seq<Candidate>, strict: bool)
    requires OnePerTask(runs)
    requires FreeTasks(runs, cs) && DistinctTasks(cs)
    ensures var after := SpawnAll(runs, cs, strict).0;
      && OnePerTask(after)
      && |BlockingIds(after)| <= |BlockingIds(runs)| + |cs|
      && forall t :: t in BlockedTasks(after) ==>
                       t in BlockedTasks(runs) || exists i :: 0 <= i < |cs| && cs[i].task == t
  {
    if cs != [] {
      hide OnePerTask, BlockedTasks, BlockingIds, Spawned;
      var n := |cs| - 1;
      SpawnAllIsSafe(runs, cs[..n], strict);
      var mid := SpawnAll(runs, cs[..n], strict);
      assert forall i :: 0 <= i < n ==> cs[..n][i] == cs[i];
      if !mid.1 {
        assert cs[n].task !in BlockedTasks(mid.0);
        SpawnedIsSafe(mid.0, cs[n], strict);
      }
    }
  }

  /** A poll keeps one blocking run per task, leaves at most the larger of the cap and what was there, and blocks
      only further tasks that were approved and free in the launch registry. */
  lemma PollIsSafe(runs: Runs, maxConcurrent: int, approved: seq<Candidate>, strict: bool)
    requires OnePerTask(runs)
    requires DistinctTasks(approved)
    ensures OnePerTask(Polled(runs, maxConcurrent, approved, strict).0)
    ensures |BlockingIds(Polled(runs, maxConcurrent, approved, strict).0)| <= Max(|BlockingIds(runs)|, maxConcurrent)
    ensures forall t :: t in BlockedTasks(Polled(runs, maxConcurrent, approved, strict).0) ==>
                          t in BlockedTasks(runs) || exists c :: c in approved && c.task == t && !c.registryBlocks
  {
    var available, candidates := maxConcurrent - |BlockingIds(runs)|, Candidates(runs, approved);
    if available > 0 {
      CandidatesAreFree(runs, approved);
      var chosen := candidates[..Min(available, |candidates|)];
      SpawnAllIsSafe(runs, chosen, strict);
      forall i | 0 <= i < |chosen| ensures chosen[i] in approved && !chosen[i].registryBlocks {
        assert chosen[i] == candidates[i];
      }
    }
  }

  lemma EndedIsSafe(runs: Runs, id: string, s: Status, t: Trouble, now: int, strict: bool)
    requires !Blocking(s)
    ensures NothingNew(runs, Ended(runs, id, s, t, now, strict).0)
  {
  }

  lemma NothingIsSafe(runs: Runs)
    ensures NothingNew(runs, runs)
  {
  }

  lemma QuarantiningIsSafe(runs: Runs, id: string, now: int, strict: bool)
    ensures id in runs && (runs[id].status.Queued? || runs[id].status.Spawning?) ==>
              NothingNew(runs, Updated(runs, id, Quarantined, now, strict))
  {
  }

  lemma CheckedOneIsSafe(runs: Runs, l: Look, now: int, strict: bool)
    ensures NothingNew(runs, CheckedOne(runs, l, now, strict).0)
  {
    hide Ended, Updated, BlockingIds;
    NothingIsSafe(runs);
    QuarantiningIsSafe(runs, l.id, now, strict);
    if l.id in runs {
      EndedIsSafe(runs, l.id, Completed, l.trouble, now, strict);
      EndedIsSafe(runs, l.id, Failed, l.trouble, now, strict);
    }
  }

  lemma {:induction false} CheckedIsSafe(runs: Runs, looks: seq<Look>, now: int, strict: bool)
    ensures NothingNew(runs, Checked(runs, looks, now, strict).0)
  {
    if looks != [] {
      var n := |looks| - 1;
      CheckedIsSafe(runs, looks[..n], now, strict);
      var mid := Checked(runs, looks[..n], now, strict);
      CheckedOneIsSafe(mid.0, looks[n], now, strict);
    }
  }

  datatype Act =
    | Poll(maxConcurrent: int, approved: seq<Candidate>)
    | Check(looks: seq<Look>, now: int)
    | Cancel(id: string, now: int)

  function Acted(runs: Runs, a: Act, strict: bool): Runs {
    match a
    case Poll(cap, approved) => Polled(runs, cap, approved, strict).0
    case Check(looks, now) => Checked(runs, looks, now, strict).0
    case Cancel(id, now) => CancelledRun(runs, id, now, strict)
  }

  function ScheduleFrom(runs: Runs, acts: seq<Act>, strict: bool): Runs {
    if acts == [] then runs else Acted(ScheduleFrom(runs, acts[..|acts| - 1], strict), acts[|acts| - 1], strict)
  }

  /** The board lists a task once, and no poll uses a larger cap. */
  ghost predicate Capped(a: Act, cap: int) {
    a.Poll? ==> a.maxConcurrent <= cap && DistinctTasks(a.approved)
  }

  /** Over every sequential run, with whatever outcomes and exceptions: no task has two blocking runs, and there
      are never more blocking runs than the cap. */
  lemma {:induction false} ScheduleIsSafe(runs: Runs, acts: seq<Act>, cap: nat, strict: bool)
    requires OnePerTask(runs) && |BlockingIds(runs)| <= cap
    requires forall i :: 0 <= i < |acts| ==> Capped(acts[i], cap)
    ensures OnePerTask(ScheduleFrom(runs, acts, strict)) && |BlockingIds(ScheduleFrom(runs, acts, strict))| <= cap
  {
    if acts != [] {
      hide OnePerTask, BlockingIds, Polled, Checked, CancelledRun;
      var n := |acts| - 1;
      ScheduleIsSafe(runs, acts[..n], cap, strict);
      var mid, a := ScheduleFrom(runs, acts[..n], strict), acts[n];
      assert Capped(a, cap);
      match a
      case Poll(c, approved) => PollIsSafe(mid, c, approved, strict);
      case Check(looks, now) =>
        CheckedIsSafe(mid, looks, now, strict);
        NothingNewIsSafe(mid, Checked(mid, looks, now, strict).0);
      case Cancel(id, now) =>
        CancelIsSafe(mid, id, now, strict);
        NothingNewIsSafe(mid, CancelledRun(mid, id, now, strict));
    }
  }

  lemma CancelIsSafe(runs: Runs, id: string, now: int, strict: bool)
    ensures NothingNew(runs, CancelledRun(runs, id, now, strict))
  {
  }

  // What a poll attempts.

  /** The candidates are exactly the approved tasks without a blocking run that the registry does not block, ... */
  lemma {:induction false} CandidatesIff(runs: Runs, approved: seq<Candidate>)
    ensures forall c :: c in Candidates(runs, approved)
                   <==> c in approved && c.task !in BlockedTasks(runs) && !c.registryBlocks
  {
    if approved != [] {
      hide BlockedTasks;
      var n := |approved| - 1;
      CandidatesIff(runs, approved[..n]);
      assert forall c :: c in approved <==> c in approved[..n] || c == approved[n];
    }
  }

  /** ... in the order of the list. */
  lemma {:induction false} CandidatesSplit(runs: Runs, a: seq<Candidate>, b: seq<Candidate>)
    ensures Candidates(runs, a + b) == Candidates(runs, a) + Candidates(runs, b)
  {
    hide BlockedTasks;
    if b == [] {
      assert a + b == a;
    } else {
      assert (a + b)[..|a + b| - 1] == a + b[..|b| - 1];
      CandidatesSplit(runs, a, b[..|b| - 1]);
    }
  }

  ghost predicate NewIds(runs: Runs, cs: seq<Candidate>) {
    && (forall i :: 0 <= i < |cs| ==> cs[i].runId !in runs)
    && (forall i, k :: 0 <= i < k < |cs| ==> cs[i].runId != cs[k].runId)
  }

  /** The run that an attempt leaves behind: none, or one of its task in the status that its outcome means. */
  predicate Left(after: Runs, c: Candidate, strict: bool) {
    match LeftIn(c.outcome, strict)
    case None => c.runId !in after
    case Some(s) => c.runId in after && after[c.runId].task == c.task && after[c.runId].status == s
                    && after[c.runId].startedAt == if Blocking(s) && !s.Queued? then Some(c.now) else None
  }

  predicate Tried(cs: seq<Candidate>, n: nat, id: string)
    requires n <= |cs|
  {
    exists i :: 0 <= i < n && cs[i].runId == id
  }

  /** The first `n` have been attempted, and no other run has changed or come into being. */
  ghost predicate Attempted(runs: Runs, after: Runs, cs: seq<Candidate>, n: nat, strict: bool) {
    && n <= |cs|
    && (forall i :: 0 <= i < n ==> Left(after, cs[i], strict))
    && (forall id :: id in runs ==> id in after && after[id] == runs[id])
    && (forall id :: id in after ==> id in runs || Tried(cs, n, id))
  }

  predicate NoneRaise(cs: seq<Candidate>, n: nat, strict: bool)
    requires n <= |cs|
  {
    forall i :: 0 <= i < n ==> !Raises(cs[i].outcome, strict)
  }

  lemma {:induction false} SpawnEach(runs: Runs, cs: seq<Candidate>, m: nat, strict: bool) returns (n: nat)
    requires NewIds(runs, cs) && m <= |cs|
    ensures var (after, raised) := SpawnAll(runs, cs[..m], strict);
      && n <= m && Attempted(runs, after, cs, n, strict)
      && (if raised then 0 < n && NoneRaise(cs, n - 1, strict) && Raises(cs[n - 1].outcome, strict)
          else n == m && NoneRaise(cs, n, strict))
  {
    hide Attempted, Spawned, Raises;
    if m == 0 {
      n := 0;
      NothingAttempted(runs, cs, strict);
    } else {
      assert cs[..m][..m - 1] == cs[..m - 1] && cs[..m][m - 1] == cs[m - 1];
      n := SpawnEach(runs, cs, m - 1, strict);
      var mid := SpawnAll(runs, cs[..m - 1], strict);
      if !mid.1 {
        n := m;
        OneMoreAttempted(runs, mid.0, cs, m - 1, strict);
      }
    }
  }

  lemma NothingAttempted(runs: Runs, cs: seq<Candidate>, strict: bool)
    ensures Attempted(runs, runs, cs, 0, strict)
  {
  }

  lemma OneMoreAttempted(runs: Runs, mid: Runs, cs: seq<Candidate>, n: nat, strict: bool)
    requires NewIds(runs, cs) && n < |cs| && Attempted(runs, mid, cs, n, strict)
    ensures Attempted(runs, Spawned(mid, cs[n], strict), cs, n + 1, strict)
  {
    var after := Spawned(mid, cs[n], strict);
    assert !Tried(cs, n, cs[n].runId);
    SpawnedLeaves(mid, cs[n], strict);
    hide Spawned, LeftIn;
    forall i | 0 <= i <= n ensures Left(after, cs[i], strict) {
      if i < n {
        StillLeft(mid, after, cs[i], strict);
      }
    }
    forall id | id in after ensures id in runs || Tried(cs, n + 1, id) {
      if id != cs[n].runId && id !in runs {
        assert Tried(cs, n, id);
      }
    }
  }

  lemma SpawnedLeaves(runs: Runs, c: Candidate, strict: bool)
    requires c.runId !in runs
    ensures var after := Spawned(runs, c, strict);
      && Left(after, c, strict) && after.Keys <= runs.Keys + {c.runId}
      && forall id :: id in runs ==> id in after && after[id] == runs[id]
    ensures forall id :: id != c.runId && id !in runs ==> id !in Spawned(runs, c, strict)
  {
  }

  lemma StillLeft(mid: Runs, after: Runs, c: Candidate, strict: bool)
    requires Left(mid, c, strict)
    requires if c.runId in mid then c.runId in after && after[c.runId] == mid[c.runId] else c.runId !in after
    ensures Left(after, c, strict)
  {
  }

  /** A poll attempts the candidates in order, as many as there are free places, until one attempt raises: if none does,
      each of these places is used. */
  lemma PollAttempts(runs: Runs, maxConcurrent: int, approved: seq<Candidate>, strict: bool) returns (n: nat)
    requires NewIds(runs, Candidates(runs, approved))
    ensures var (after, raised) := Polled(runs, maxConcurrent, approved, strict);
      var cs := Candidates(runs, approved);
      && Attempted(runs, after, cs, n, strict)
      && (if raised then 0 < n <= maxConcurrent - |BlockingIds(runs)| && NoneRaise(cs, n - 1, strict)
                         && Raises(cs[n - 1].outcome, strict)
          else n == Min(Max(0, maxConcurrent - |BlockingIds(runs)|), |cs|) && NoneRaise(cs, n, strict))
  {
    hide Attempted, Spawned, Raises, Candidates, SpawnAll;
    var cs, available := Candidates(runs, approved), maxConcurrent - |BlockingIds(runs)|;
    if available > 0 {
      n := SpawnEach(runs, cs, Min(available, |cs|), strict);
    } else {
      n := 0;
      NothingAttempted(runs, cs, strict);
    }
  }

  // What becomes of one run.

  /** Run ids are new: no attempt takes `id`. */
  predicate Avoids(a: Act, id: string) {
    a.Poll? ==> forall i :: 0 <= i < |a.approved| ==> a.approved[i].runId != id
  }

  lemma {:induction false} SpawnAllKeeps(runs: Runs, cs: seq<Candidate>, strict: bool, id: string)
    requires forall i :: 0 <= i < |cs| ==> cs[i].runId != id
    ensures var after := SpawnAll(runs, cs, strict).0;
      (id in after <==> id in runs) && (id in runs ==> after[id] == runs[id])
  {
    if cs != [] {
      SpawnAllKeeps(runs, cs[..|cs| - 1], strict, id);
    }
  }

  /** A poll leaves every run alone but those it creates. */
  lemma PollKeeps(runs: Runs, maxConcurrent: int, approved: seq<Candidate>, strict: bool, id: string)
    requires forall i :: 0 <= i < |approved| ==> approved[i].runId != id
    ensures var after := Polled(runs, maxConcurrent, approved, strict).0;
      (id in after <==> id in runs) && (id in runs ==> after[id] == runs[id])
  {
    var available, candidates := maxConcurrent - |BlockingIds(runs)|, Candidates(runs, approved);
    if available > 0 {
      CandidatesIff(runs, approved);
      var chosen := candidates[..Min(available, |candidates|)];
      forall i | 0 <= i < |chosen| ensures chosen[i].runId != id {
        assert chosen[i] == candidates[i] && candidates[i] in candidates;
        var k :| 0 <= k < |approved| && approved[k] == candidates[i];
      }
      SpawnAllKeeps(runs, chosen, strict, id);
    }
  }

  lemma {:induction false} CheckedKeepsEnded(runs: Runs, looks: seq<Look>, now: int, strict: bool, id: string)
    requires id in runs && !Active(runs[id].status)
    ensures id in Checked(runs, looks, now, strict).0 && Checked(runs, looks, now, strict).0[id] == runs[id]
  {
    if looks != [] {
      hide CheckedOne;
      var mid := Checked(runs, looks[..|looks| - 1], now, strict);
      CheckedKeepsEnded(runs, looks[..|looks| - 1], now, strict, id);
      CheckedOneKeeps(mid.0, looks[|looks| - 1], now, strict, id);
    }
  }

  lemma CheckedOneKeeps(runs: Runs, l: Look, now: int, strict: bool, id: string)
    requires id in runs && (l.id != id || !Active(runs[id].status))
    ensures id in CheckedOne(runs, l, now, strict).0 && CheckedOne(runs, l, now, strict).0[id] == runs[id]
  {
    if l.id in runs && l.id != id {
      EndedKeeps(runs, l.id, Completed, l.trouble, now, strict, id);
      EndedKeeps(runs, l.id, Failed, l.trouble, now, strict, id);
      hide Ended;
    }
  }

  lemma EndedKeeps(runs: Runs, l: string, s: Status, t: Trouble, now: int, strict: bool, id: string)
    requires id in runs && l != id
    ensures id in Ended(runs, l, s, t, now, strict).0 && Ended(runs, l, s, t, now, strict).0[id] == runs[id]
  {
  }

  /** With a repository that checks transitions, a run that has ended never changes, through any polls with new run ids,
      checks and cancellations. */
  lemma {:induction false} EndedRunsStay(runs: Runs, acts: seq<Act>, id: string)
    requires id in runs && !Blocking(runs[id].status)
    requires forall i :: 0 <= i < |acts| ==> Avoids(acts[i], id)
    ensures id in ScheduleFrom(runs, acts, true) && ScheduleFrom(runs, acts, true)[id] == runs[id]
  {
    if acts != [] {
      hide Polled, Checked;
      var n := |acts| - 1;
      EndedRunsStay(runs, acts[..n], id);
      var mid, a := ScheduleFrom(runs, acts[..n], true), acts[n];
      assert Avoids(a, id);
      match a
      case Poll(cap, approved) => PollKeeps(mid, cap, approved, true, id);
      case Check(looks, now) => CheckedKeepsEnded(mid, looks, now, true, id);
      case Cancel(_, _) =>
    }
  }

  /** A run whose final status is written ends when it was running or terminating and nothing else goes wrong. With a
      repository that checks transitions, one that was queued is cancelled and one that was spawning stays as it is:
      the check raises. No other run is touched. */
  lemma EndedReachesIff(runs: Runs, id: string, s: Status, t: Trouble, now: int, strict: bool)
    requires id in runs && Active(runs[id].status) && (s.Completed? || s.Failed?)
    ensures var (after, raised) := Ended(runs, id, s, t, now, strict);
      && after.Keys == runs.Keys && (forall k :: k in runs && k != id ==> after[k] == runs[k])
      && after[id].task == runs[id].task
      && (after[id].status == s
          <==> !t.Midway? && (!strict || runs[id].status.Running? || runs[id].status.Terminating?))
      && (raised <==> after[id].status != s || t.AtEnd?)
      && (strict && runs[id].status.Queued? ==> after[id].status.Cancelled?)
      && (strict && runs[id].status.Spawning? ==> after == runs)
  {
  }

  // What the status files decide.

  /** The status that a check leaves a run in, by the status it had, what its file says, and whether it timed out.
      With a repository that checks transitions a queued run is cancelled and a spawning one stays, where they
      should end. */
  function Decided(s: Status, file: File, timedOut: bool, strict: bool): Status {
    if !Active(s) then s
    else if s.Running? || s.Terminating? then
      (match file
       case SaysCompleted => Completed
       case SaysFailed => Failed
       case Missing => Failed
       case SaysOther => s)
    else if file.Missing? || file.SaysOther? then (if timedOut then Quarantined else s)
    else if !strict then (if file.SaysCompleted? then Completed else Failed)
    else if s.Queued? then Cancelled else Spawning
  }

  /** A check in which nothing goes wrong before the last status update: the run's status is the one its file
      decides, the check raises exactly when a final status is not reached or what follows the update raises, and no
      other run changes. */
  lemma CheckDecides(runs: Runs, l: Look, now: int, strict: bool)
    requires !l.trouble.Midway? && l.id in runs
    ensures var (after, raised) := CheckedOne(runs, l, now, strict);
      && after.Keys == runs.Keys && (forall k :: k in runs && k != l.id ==> after[k] == runs[k])
      && after[l.id].task == runs[l.id].task
      && after[l.id].status == Decided(runs[l.id].status, l.file, TimedOut(runs[l.id], now), strict)
      && (raised <==> (strict && (l.file.SaysCompleted? || l.file.SaysFailed?)
                       && (runs[l.id].status.Queued? || runs[l.id].status.Spawning?))
                      || (l.trouble.AtEnd? && after[l.id].status != runs[l.id].status))
      && (after[l.id].status == runs[l.id].status ==> after == runs)
  {
    if Active(runs[l.id].status) {
      EndedReachesIff(runs, l.id, Completed, l.trouble, now, strict);
      EndedReachesIff(runs, l.id, Failed, l.trouble, now, strict);
      hide Ended;
      TimeoutDecides(runs, l.id, l.trouble, now, strict);
      hide TimeoutChecked;
    }
  }

  /** When closing the agent raises, the run is left on its way: terminating, or cancelled if it was queued. */
  lemma InterruptedEnd(runs: Runs, id: string, s: Status, now: int, strict: bool)
    requires id in runs && Active(runs[id].status)
    ensures var (after, raised) := Ended(runs, id, s, Midway, now, strict);
      && raised && after.Keys == runs.Keys && (forall k :: k in runs && k != id ==> after[k] == runs[k])
      && after[id].status == (if runs[id].status.Queued? then Cancelled
                              else if runs[id].status.Spawning? && strict then Spawning
                              else Terminating)
  {
  }

  lemma TimeoutDecides(runs: Runs, id: string, t: Trouble, now: int, strict: bool)
    requires id in runs
    ensures var (after, raised) := TimeoutChecked(runs, id, t, now, strict);
      runs[id].status.Queued? || runs[id].status.Spawning? ==>
        && (raised <==> t.AtEnd? && TimedOut(runs[id], now))
        && after.Keys == runs.Keys && (forall k :: k in runs && k != id ==> after[k] == runs[k])
        && after[id].task == runs[id].task
        && (if TimedOut(runs[id], now) then after[id].status.Quarantined? else after == runs)
  {
  }

  ghost predicate DistinctLooks(looks: seq<Look>) {
    forall i, k :: 0 <= i < k < |looks| ==> looks[i].id != looks[k].id
  }

  /** The first `n` listed runs have become what checking each alone makes of it, and every other run is as it was. */
  ghost predicate EachDone(runs: Runs, after: Runs, looks: seq<Look>, n: nat, now: int, strict: bool) {
    && n <= |looks| && after.Keys == runs.Keys
    && (forall i :: 0 <= i < n && looks[i].id in runs ==>
          SameRow((after, false), (CheckedOne(runs, looks[i], now, strict).0, false), looks[i].id))
    && (forall k :: k in runs && Unlisted(looks, n, k) ==> after[k] == runs[k])
  }

  predicate Unlisted(looks: seq<Look>, n: nat, k: string)
    requires n <= |looks|
  {
    forall i :: 0 <= i < n ==> looks[i].id != k
  }

  ghost predicate NoneRaises(runs: Runs, looks: seq<Look>, n: nat, now: int, strict: bool) {
    n <= |looks| && forall i :: 0 <= i < n ==> !CheckedOne(runs, looks[i], now, strict).1
  }

  /** A check works through its list, each run by itself, up to the first on which it raises. */
  lemma CheckedEach(runs: Runs, looks: seq<Look>, now: int, strict: bool) returns (n: nat)
    requires DistinctLooks(looks)
    ensures var (after, raised) := Checked(runs, looks, now, strict);
      && EachDone(runs, after, looks, n, now, strict)
      && (if raised then
            && 0 < n <= |looks| && NoneRaises(runs, looks, n - 1, now, strict)
            && CheckedOne(runs, looks[n - 1], now, strict).1
          else n == |looks| && NoneRaises(runs, looks, n, now, strict))
  {
    hide CheckedOne, EachDone, NoneRaises;
    n := CheckedUpTo(runs, looks, |looks|, now, strict);
    assert looks[..|looks|] == looks;
  }

  lemma {:induction false} CheckedUpTo(runs: Runs, looks: seq<Look>, m: nat, now: int, strict: bool) returns (n: nat)
    requires DistinctLooks(looks) && m <= |looks|
    ensures var (after, raised) := Checked(runs, looks[..m], now, strict);
      && n <= m && EachDone(runs, after, looks, n, now, strict)
      && (if raised then
            0 < n && NoneRaises(runs, looks, n - 1, now, strict) && CheckedOne(runs, looks[n - 1], now, strict).1
          else n == m && NoneRaises(runs, looks, n, now, strict))
  {
    hide CheckedOne, EachDone, NoneRaises;
    if m == 0 {
      n := 0;
      NothingDone(runs, looks, now, strict);
    } else {
      assert looks[..m][..m - 1] == looks[..m - 1] && looks[..m][m - 1] == looks[m - 1];
      n := CheckedUpTo(runs, looks, m - 1, now, strict);
      var mid := Checked(runs, looks[..m - 1], now, strict);
      if !mid.1 {
        n := m;
        OneMoreDone(runs, mid.0, looks, m - 1, now, strict);
        OneMoreSilent(runs, looks, m - 1, now, strict);
      }
    }
  }

  lemma NothingDone(runs: Runs, looks: seq<Look>, now: int, strict: bool)
    ensures EachDone(runs, runs, looks, 0, now, strict) && NoneRaises(runs, looks, 0, now, strict)
  {
  }

  lemma OneMoreSilent(runs: Runs, looks: seq<Look>, n: nat, now: int, strict: bool)
    requires n < |looks| && NoneRaises(runs, looks, n, now, strict)
    ensures !CheckedOne(runs, looks[n], now, strict).1 ==> NoneRaises(runs, looks, n + 1, now, strict)
  {
    hide CheckedOne;
  }

  lemma OneMoreDone(runs: Runs, mid: Runs, looks: seq<Look>, n: nat, now: int, strict: bool)
    requires n < |looks| && DistinctLooks(looks) && EachDone(runs, mid, looks, n, now, strict)
    ensures EachDone(runs, CheckedOne(mid, looks[n], now, strict).0, looks, n + 1, now, strict)
    ensures CheckedOne(mid, looks[n], now, strict).1 == CheckedOne(runs, looks[n], now, strict).1
  {
    hide CheckedOne;
    var after, l := CheckedOne(mid, looks[n], now, strict).0, looks[n];
    CheckedKeys(mid, l, now, strict);
    assert Unlisted(looks, n, l.id);
    CheckedSame(runs, mid, l, now, strict);
    forall k | k in mid && k != l.id ensures k in after && after[k] == mid[k] {
      CheckedOneKeeps(mid, l, now, strict, k);
    }
    forall k | k in runs && Unlisted(looks, n + 1, k) ensures after[k] == runs[k] {
      assert looks[n].id != k && Unlisted(looks, n, k);
    }
  }

  lemma CheckedKeys(runs: Runs, l: Look, now: int, strict: bool)
    ensures CheckedOne(runs, l, now, strict).0.Keys == runs.Keys
  {
    EndedKeys(runs, l.id, Completed, l.trouble, now, strict);
    EndedKeys(runs, l.id, Failed, l.trouble, now, strict);
    hide Ended;
  }

  lemma EndedKeys(runs: Runs, id: string, s: Status, t: Trouble, now: int, strict: bool)
    ensures Ended(runs, id, s, t, now, strict).0.Keys == runs.Keys
  {
  }

  /** The results of an update agree on row `id`. */
  predicate SameRow(a: (Runs, bool), b: (Runs, bool), id: string) {
    a.1 == b.1 && id in a.0 && id in b.0 && a.0[id] == b.0[id]
  }

  /** Checking a run depends on that run alone. */
  lemma CheckedSame(a: Runs, b: Runs, l: Look, now: int, strict: bool)
    requires if l.id in a then l.id in b && a[l.id] == b[l.id] else l.id !in b
    ensures CheckedOne(a, l, now, strict).1 == CheckedOne(b, l, now, strict).1
    ensures l.id in a ==> SameRow(CheckedOne(a, l, now, strict), CheckedOne(b, l, now, strict), l.id)
  {
    if l.id in a {
      EndedSame(a, b, l.id, Completed, l.trouble, now, strict);
      EndedSame(a, b, l.id, Failed, l.trouble, now, strict);
      TimeoutSame(a, b, l.id, l.trouble, now, strict);
      hide Ended, TimeoutChecked;
    }
  }

  lemma TimeoutSame(a: Runs, b: Runs, id: string, t: Trouble, now: int, strict: bool)
    requires id in a && id in b && a[id] == b[id]
    ensures SameRow(TimeoutChecked(a, id, t, now, strict), TimeoutChecked(b, id, t, now, strict), id)
  {
  }

  lemma EndedSame(a: Runs, b: Runs, id: string, s: Status, t: Trouble, now: int, strict: bool)
    requires id in a && id in b && a[id] == b[id]
    ensures SameRow(Ended(a, id, s, t, now, strict), Ended(b, id, s, t, now, strict), id)
  {
    assert SameRow(CleanedUp(a, id, now, strict), CleanedUp(b, id, now, strict), id);
    hide CleanedUp;
  }

  // A start that the board refuses.

  /** The run goes on: it is not cancelled, its id is not used again, and its directory shows no final status. */
  predicate GoesOn(a: Act, id: string) {
    match a
    case Poll(_, _) => Avoids(a, id)
    case Check(looks, _) =>
      forall i :: 0 <= i < |looks| && looks[i].id == id ==> looks[i].file.Missing? || looks[i].file.SaysOther?
    case Cancel(i, _) => i != id
  }

  predicate Stuck(runs: Runs, id: string, task: string) {
    id in runs && runs[id].task == task && (runs[id].status.Queued? || runs[id].status.Quarantined?)
  }

  lemma {:induction false} CheckedStaysStuck(runs: Runs, looks: seq<Look>, now: int, id: string, task: string)
    requires Stuck(runs, id, task) && GoesOn(Check(looks, now), id)
    ensures Stuck(Checked(runs, looks, now, true).0, id, task)
  {
    if looks != [] {
      var n := |looks| - 1;
      assert forall i :: 0 <= i < n ==> looks[..n][i] == looks[i];
      var mid := Checked(runs, looks[..n], now, true);
      CheckedStaysStuck(runs, looks[..n], now, id, task);
      if looks[n].id != id {
        CheckedOneKeeps(mid.0, looks[n], now, true, id);
        hide CheckedOne;
      }
    }
  }

  lemma {:induction false} StaysStuck(runs: Runs, acts: seq<Act>, id: string, task: string)
    requires Stuck(runs, id, task) && forall i :: 0 <= i < |acts| ==> GoesOn(acts[i], id)
    ensures Stuck(ScheduleFrom(runs, acts, true), id, task)
  {
    if acts != [] {
      hide Polled, Checked;
      var n := |acts| - 1;
      StaysStuck(runs, acts[..n], id, task);
      var mid, a := ScheduleFrom(runs, acts[..n], true), acts[n];
      assert GoesOn(a, id);
      match a
      case Poll(cap, approved) => PollKeeps(mid, cap, approved, true, id);
      case Check(looks, now) => CheckedStaysStuck(mid, looks, now, id, task);
      case Cancel(_, _) =>
    }
  }

  /** A start that the board refuses, with a repository that checks transitions: through any polls with new run ids,
      checks and other cancellations, until its own run is cancelled, the run goes on blocking. Its task is no candidate
      of any poll, and the other runs have one place less. Without the check the run ends at once. */
  lemma RefusedStartBlocks(runs: Runs, c: Candidate, acts: seq<Act>, cap: nat, now: int, approved: seq<Candidate>)
    requires c.outcome.StartRefused? && OnePerTask(runs) && c.task !in BlockedTasks(runs) && |BlockingIds(runs)| < cap
    requires forall i :: 0 <= i < |acts| ==> Capped(acts[i], cap) && GoesOn(acts[i], c.runId)
    ensures var after := ScheduleFrom(Spawned(runs, c, true), acts, true);
      && c.runId in BlockingIds(after) && after[c.runId].task == c.task
      && |BlockingIds(after) - {c.runId}| <= cap - 1
      && (forall x :: x in Candidates(after, approved) ==> x.task != c.task)
      && c.runId !in BlockingIds(Acted(after, Cancel(c.runId, now), true))
    ensures c.runId !in BlockingIds(Spawned(runs, c, false))
  {
    hide OnePerTask, BlockingIds, BlockedTasks, Acted, Candidates;
    RefusedStartSticks(runs, c);
    var start := Spawned(runs, c, true);
    hide Spawned;
    SpawnedIsSafe(runs, c, true);
    StaysStuck(start, acts, c.runId, c.task);
    ScheduleIsSafe(start, acts, cap, true);
    var after := ScheduleFrom(start, acts, true);
    StuckBlocks(after, c.runId, c.task, now);
    CandidatesIff(after, approved);
    var others := BlockingIds(after) - {c.runId};
    assert BlockingIds(after) == others + {c.runId};
  }

  lemma RefusedStartSticks(runs: Runs, c: Candidate)
    requires c.outcome.StartRefused?
    ensures Stuck(Spawned(runs, c, true), c.runId, c.task)
    ensures c.runId !in BlockingIds(Spawned(runs, c, false))
  {
  }

  lemma StuckBlocks(runs: Runs, id: string, task: string, now: int)
    requires Stuck(runs, id, task)
    ensures id in BlockingIds(runs) && task in BlockedTasks(runs)
    ensures id !in BlockingIds(Acted(runs, Cancel(id, now), true))
  {
    assert id in BlockingIds(runs);
  }

  /** A run left queued has no start time, so the first check without a status file quarantines it, as soon as
      the clock is past the timeout. */
  lemma QueuedIsQuarantinedAtOnce(runs: Runs, c: Candidate, now: int)
    requires LeftIn(c.outcome, true) == Some(Queued) && now > TIMEOUT_MS
    ensures var after := CheckedOne(Spawned(runs, c, true), Look(c.runId, Missing, NoTrouble), now, true).0;
      c.runId in after && after[c.runId].status.Quarantined?
  {
  }
}
