/** The polling scheduler with the launch registry wired in: what cancelling a run does to its task. */
module PollingLaunches {
  import opened Options
  import opened PollingScheduler
  import L = LaunchRegistry

  /** The runs and the registry. A run's launch has the id `launch(run id)`, and the task id is the canonical key. */
  datatype Both = Both(runs: Runs, reg: L.Registry)

  type LaunchIds = string -> string

  predicate Denied(o: Outcome) {
    o.Suppressed? || o.DenialUnsaved?
  }

  /** The status of the launch that a granted attempt leaves behind; its handle and lease go with it. */
  function LaunchLeft(o: Outcome, strict: bool): L.Status {
    match o
    case StartRefused(raises) => if strict || raises then L.Reserved else L.Failed
    case SpawnRaises => L.Spawning
    case NoHandle(_) => L.Quarantined
    case MetadataRaises => L.Spawning
    case MetadataLost(_) => L.Quarantined
    case EventRaises => L.Spawning
    case RunningRaises => L.Active
    case Launched(_) => L.Active
    case _ => L.Reserved
  }

  /** What a granted attempt leaves fits together: the run is running exactly when all went through, it is quarantined
      exactly when its launch is, and whenever the run blocks, so does the launch. An attempt that raises after storing
      its run leaves it blocking, unless only the report of a refused start failed. */
  lemma OutcomeMeans(o: Outcome, strict: bool)
    requires !Denied(o) && !o.NeverSaved?
    ensures var (run, reg) := (LeftIn(o, strict), LaunchLeft(o, strict));
      && run.Some?
      && (run.value.Running? <==> o.Launched?)
      && (reg.Active? <==> o.Launched? || o.RunningRaises?)
      && (run.value.Quarantined? <==> reg.Quarantined?)
      && (run.value.Quarantined? <==> o.NoHandle? || o.MetadataLost?)
      && (run.value.Queued? ==> reg.Reserved?)
      && (run.value.Queued? <==> o.StartErrors? || (o.StartRefused? && strict))
      && (Blocking(run.value) ==> reg in L.BLOCKING)
      && (Raises(o, strict) && !Blocking(run.value) ==> o.StartRefused? && o.raises && run.value.Failed?)
  {
  }

  predicate Free(reg: L.Registry, key: string) {
    L.Free(reg, key, L.BLOCKING)
  }

  /** A launch is requested for the task; when the registry does not grant it, the attempt is over. */
  function Effective(b: Both, c: Candidate, launch: LaunchIds): Outcome {
    if (launch(c.runId) in b.reg || !Free(b.reg, c.task)) && !Denied(c.outcome) then Suppressed else c.outcome
  }

  /** One attempt: the run as its outcome says, and a launch when that was granted. */
  function SpawnedBoth(b: Both, c: Candidate, launch: LaunchIds, strict: bool): Both {
    var o := Effective(b, c, launch);
    var status := LaunchLeft(o, strict);
    var managed := status.Active?;
    Both(Spawned(b.runs, c.(outcome := o), strict),
         if Denied(o) then b.reg
         else b.reg[launch(c.runId) := L.Launch(c.task, status, if managed then None else Some(c.now + L.LEASE_MS),
                                                if managed then Some("handle") else None, None)])
  }

  predicate RaisesBoth(b: Both, c: Candidate, launch: LaunchIds, strict: bool) {
    Raises(Effective(b, c, launch), strict)
  }

  function SpawnAllBoth(b: Both, cs: seq<Candidate>, launch: LaunchIds, strict: bool): (Both, bool) {
    if cs == [] then (b, false)
    else
      var (before, c) := (SpawnAllBoth(b, cs[..|cs| - 1], launch, strict), cs[|cs| - 1]);
      if before.1 then before
      else (SpawnedBoth(before.0, c, launch, strict), RaisesBoth(before.0, c, launch, strict))
  }

  /** What the registry says about each approved task before the attempts. */
  function Asked(reg: L.Registry, approved: seq<Candidate>): seq<Candidate> {
    seq(|approved|, i requires 0 <= i < |approved| => approved[i].(registryBlocks := !Free(reg, approved[i].task)))
  }

  function PolledBoth(b: Both, maxConcurrent: int, approved: seq<Candidate>, now: int, launch: LaunchIds, strict: bool)
    : Both
  {
    var reg := L.Reconciled(b.reg, now);
    var available := maxConcurrent - |BlockingIds(b.runs)|;
    var candidates := Candidates(b.runs, Asked(reg, approved));
    if available <= 0 then Both(b.runs, reg)
    else SpawnAllBoth(Both(b.runs, reg), candidates[..Min(available, |candidates|)], launch, strict).0
  }

  /** Finalizing the launch of a run that has come to its end. */
  function Finalized(reg: L.Registry, id: string, failed: bool): L.Registry {
    if id !in reg then reg
    else if failed then if L.Edge(reg[id].status, L.Failed) then reg[id := reg[id].(status := L.Failed)] else reg
    else if reg[id].status in {L.Active, L.Terminating} then reg[id := reg[id].(status := L.Terminated)]
    else reg
  }

  /** Checking one run; if that gives it a final status, its launch is finalized. */
  function CheckedBoth(b: Both, l: Look, now: int, launch: LaunchIds, strict: bool): (Both, bool) {
    var checked := CheckedOne(b.runs, l, now, strict);
    var runs := checked.0;
    var ended := l.id in b.runs && l.id in runs && runs[l.id] != b.runs[l.id]
                 && (runs[l.id].status.Completed? || runs[l.id].status.Failed?);
    (Both(runs, if ended then Finalized(b.reg, launch(l.id), runs[l.id].status.Failed?) else b.reg), checked.1)
  }

  function CheckAllBoth(b: Both, looks: seq<Look>, now: int, launch: LaunchIds, strict: bool): (Both, bool) {
    if looks == [] then (b, false)
    else
      var before := CheckAllBoth(b, looks[..|looks| - 1], now, launch, strict);
      if before.1 then before else CheckedBoth(before.0, looks[|looks| - 1], now, launch, strict)
  }

  datatype Step =
    | PollStep(maxConcurrent: int, approved: seq<Candidate>, now: int)
    | CheckStep(looks: seq<Look>, now: int)
    | CancelStep(id: string, now: int)

  /** Cancelling a run does not touch its launch. */
  function Next(b: Both, a: Step, launch: LaunchIds, strict: bool): Both {
    match a
    case PollStep(cap, approved, now) => PolledBoth(b, cap, approved, now, launch, strict)
    case CheckStep(looks, now) => CheckAllBoth(b, looks, now, launch, strict).0
    case CancelStep(id, now) => b.(runs := CancelledRun(b.runs, id, now, strict))
  }

  function Steps(b: Both, acts: seq<Step>, launch: LaunchIds, strict: bool): Both {
    if acts == [] then b else Next(Steps(b, acts[..|acts| - 1], launch, strict), acts[|acts| - 1], launch, strict)
  }

  /** The launch of run `id` is blocking, and no run of its task is. */
  ghost predicate Orphaned(b: Both, id: string, task: string, launch: LaunchIds) {
    && launch(id) in b.reg && b.reg[launch(id)].key == task && b.reg[launch(id)].status in L.BLOCKING
    && task !in BlockedTasks(b.runs)
    && id in b.runs && !Blocking(b.runs[id].status)
  }

  /** No other run has the same launch, and polls use new run ids. */
  predicate Fresh(a: Step, id: string) {
    a.PollStep? ==> forall i :: 0 <= i < |a.approved| ==> a.approved[i].runId != id
  }

  ghost predicate OwnLaunch(launch: LaunchIds, id: string) {
    forall x :: launch(x) == launch(id) ==> x == id
  }

  lemma SpawnKeepsOrphan(b: Both, c: Candidate, launch: LaunchIds, strict: bool, id: string, task: string)
    requires Orphaned(b, id, task, launch) && c.runId != id
    ensures Orphaned(SpawnedBoth(b, c, launch, strict), id, task, launch)
  {
    var g := SpawnedBoth(b, c, launch, strict);
    if c.task == task {
      assert !Free(b.reg, task);
    }
    forall x | x in BlockingIds(g.runs) ensures g.runs[x].task != task {
      if x != c.runId {
        assert x in BlockingIds(b.runs) && b.runs[x].task in BlockedTasks(b.runs);
      }
    }
  }

  lemma {:induction false} SpawnAllKeepsOrphan(b: Both, cs: seq<Candidate>, launch: LaunchIds, strict: bool, id: string,
                                               task: string)
    requires Orphaned(b, id, task, launch) && forall i :: 0 <= i < |cs| ==> cs[i].runId != id
    ensures Orphaned(SpawnAllBoth(b, cs, launch, strict).0, id, task, launch)
  {
    if cs != [] {
      hide Orphaned, SpawnedBoth, RaisesBoth;
      var n := |cs| - 1;
      SpawnAllKeepsOrphan(b, cs[..n], launch, strict, id, task);
      var mid := SpawnAllBoth(b, cs[..n], launch, strict);
      SpawnKeepsOrphan(mid.0, cs[n], launch, strict, id, task);
    }
  }

  lemma PollKeepsOrphan(b: Both, cap: int, approved: seq<Candidate>, now: int, launch: LaunchIds, strict: bool,
                        id: string, task: string)
    requires Orphaned(b, id, task, launch) && forall i :: 0 <= i < |approved| ==> approved[i].runId != id
    ensures Orphaned(PolledBoth(b, cap, approved, now, launch, strict), id, task, launch)
  {
    var reg := L.Reconciled(b.reg, now);
    var asked := Asked(reg, approved);
    var candidates := Candidates(b.runs, asked);
    var available := cap - |BlockingIds(b.runs)|;
    assert Orphaned(Both(b.runs, reg), id, task, launch);
    hide Orphaned;
    if available > 0 {
      CandidatesIff(b.runs, asked);
      var chosen := candidates[..Min(available, |candidates|)];
      forall i | 0 <= i < |chosen| ensures chosen[i].runId != id {
        assert chosen[i] == candidates[i] && candidates[i] in candidates;
        var k :| 0 <= k < |asked| && asked[k] == candidates[i];
        assert asked[k].runId == approved[k].runId;
      }
      SpawnAllKeepsOrphan(Both(b.runs, reg), chosen, launch, strict, id, task);
    }
  }

  lemma CheckKeepsOrphan(b: Both, l: Look, now: int, launch: LaunchIds, strict: bool, id: string, task: string)
    requires Orphaned(b, id, task, launch) && OwnLaunch(launch, id)
    ensures Orphaned(CheckedBoth(b, l, now, launch, strict).0, id, task, launch)
  {
    CheckedOneKeeps(b.runs, l, now, strict, id);
    CheckedOneIsSafe(b.runs, l, now, strict);
    var runs := CheckedOne(b.runs, l, now, strict).0;
    NoNewTasks(b.runs, runs, task);
    assert l.id == id ==> runs[id] == b.runs[id];
    hide CheckedOne, BlockedTasks, Blocking;
  }

  lemma NoNewTasks(before: Runs, after: Runs, task: string)
    requires NothingNew(before, after) && task !in BlockedTasks(before)
    ensures task !in BlockedTasks(after)
  {
    forall x | x in BlockingIds(after) ensures after[x].task != task {
      assert before[x].task in BlockedTasks(before);
    }
  }

  lemma {:induction false} CheckAllKeepsOrphan(b: Both, looks: seq<Look>, now: int, launch: LaunchIds, strict: bool,
                                               id: string, task: string)
    requires Orphaned(b, id, task, launch) && OwnLaunch(launch, id)
    ensures Orphaned(CheckAllBoth(b, looks, now, launch, strict).0, id, task, launch)
  {
    if looks != [] {
      hide Orphaned, CheckedBoth, OwnLaunch;
      var n := |looks| - 1;
      CheckAllKeepsOrphan(b, looks[..n], now, launch, strict, id, task);
      var mid := CheckAllBoth(b, looks[..n], now, launch, strict);
      CheckKeepsOrphan(mid.0, looks[n], now, launch, strict, id, task);
    }
  }

  /** Through any further polls with new run ids, checks and cancellations such a launch goes on blocking. */
  lemma {:induction false} StaysOrphaned(b: Both, acts: seq<Step>, launch: LaunchIds, strict: bool, id: string,
                                         task: string)
    requires Orphaned(b, id, task, launch) && OwnLaunch(launch, id)
    requires forall i :: 0 <= i < |acts| ==> Fresh(acts[i], id)
    ensures Orphaned(Steps(b, acts, launch, strict), id, task, launch)
  {
    if acts != [] {
      hide PolledBoth, CheckAllBoth, OwnLaunch, Orphaned;
      var n := |acts| - 1;
      StaysOrphaned(b, acts[..n], launch, strict, id, task);
      var mid, a := Steps(b, acts[..n], launch, strict), acts[n];
      assert Fresh(a, id);
      match a
      case PollStep(cap, approved, now) => PollKeepsOrphan(mid, cap, approved, now, launch, strict, id, task);
      case CheckStep(looks, now) => CheckAllKeepsOrphan(mid, looks, now, launch, strict, id, task);
      case CancelStep(other, now) => CancelKeepsOrphan(mid, other, now, launch, strict, id, task);
    }
  }

  lemma CancelKeepsOrphan(b: Both, other: string, now: int, launch: LaunchIds, strict: bool, id: string, task: string)
    requires Orphaned(b, id, task, launch)
    ensures Orphaned(b.(runs := CancelledRun(b.runs, other, now, strict)), id, task, launch)
  {
    CancelIsSafe(b.runs, other, now, strict);
    NoNewTasks(b.runs, CancelledRun(b.runs, other, now, strict), task);
    hide BlockedTasks;
  }

  /** Cancelling a run ends the run but not its launch. Through any further polls, checks and cancellations the launch
      goes on blocking, so that no poll ever takes the task as a candidate again and no run of it blocks, though the
      cancellation has reset the task to be picked up again. */
  lemma CancelledIsNeverRunAgain(b: Both, id: string, now: int, acts: seq<Step>, launch: LaunchIds, strict: bool,
                                 approved: seq<Candidate>, later: int)
    requires OnePerTask(b.runs) && id in b.runs && Edge(b.runs[id].status, Cancelled) && OwnLaunch(launch, id)
    requires launch(id) in b.reg && b.reg[launch(id)].key == b.runs[id].task
    requires b.reg[launch(id)].status in L.BLOCKING
    requires forall i :: 0 <= i < |acts| ==> Fresh(acts[i], id)
    ensures var after := Steps(Next(b, CancelStep(id, now), launch, strict), acts, launch, strict);
      var task := b.runs[id].task;
      && Next(b, CancelStep(id, now), launch, strict).runs[id].status.Cancelled?
      && launch(id) in after.reg && after.reg[launch(id)].status in L.BLOCKING && !Free(after.reg, task)
      && task !in BlockedTasks(after.runs)
      && forall c :: c in Candidates(after.runs, Asked(L.Reconciled(after.reg, later), approved)) ==> c.task != task
  {
    var task := b.runs[id].task;
    CancelUnblocks(b, id, now, launch, strict);
    var cancelled := Next(b, CancelStep(id, now), launch, strict);
    StaysOrphaned(cancelled, acts, launch, strict, id, task);
    hide Next, Steps, OnePerTask, BlockedTasks;
    var after := Steps(cancelled, acts, launch, strict);
    var reg := L.Reconciled(after.reg, later);
    assert !Free(reg, task) by {
      assert launch(id) in reg && reg[launch(id)].status in L.BLOCKING;
    }
    BlockedIsNoCandidate(after.runs, reg, approved, task);
  }

  lemma CancelUnblocks(b: Both, id: string, now: int, launch: LaunchIds, strict: bool)
    requires OnePerTask(b.runs) && id in b.runs && Edge(b.runs[id].status, Cancelled)
    ensures var after := Next(b, CancelStep(id, now), launch, strict);
      && after.reg == b.reg && id in after.runs && after.runs[id].status.Cancelled?
      && b.runs[id].task !in BlockedTasks(after.runs)
  {
    var runs := CancelledRun(b.runs, id, now, strict);
    assert id in BlockingIds(b.runs);
    forall x | x in BlockingIds(runs) ensures runs[x].task != b.runs[id].task {
      assert x in BlockingIds(b.runs);
    }
  }

  lemma BlockedIsNoCandidate(runs: Runs, reg: L.Registry, approved: seq<Candidate>, task: string)
    requires !Free(reg, task)
    ensures forall c :: c in Candidates(runs, Asked(reg, approved)) ==> c.task != task
  {
    var asked := Asked(reg, approved);
    hide Free;
    CandidatesIff(runs, asked);
    forall c | c in Candidates(runs, asked) ensures c.task != task {
      var k :| 0 <= k < |asked| && asked[k] == c;
      assert asked[k].task == approved[k].task;
    }
  }

  /** When cancelling does what it is for: the task, approved again, is a candidate of the next poll if and only if the
      registry has no blocking launch of it. */
  lemma CancelFreesIff(b: Both, id: string, now: int, launch: LaunchIds, strict: bool, approved: seq<Candidate>,
                       later: int)
    requires OnePerTask(b.runs) && id in b.runs && Edge(b.runs[id].status, Cancelled)
    requires exists i :: 0 <= i < |approved| && approved[i].task == b.runs[id].task
    ensures var after := Next(b, CancelStep(id, now), launch, strict);
      (exists c :: c in Candidates(after.runs, Asked(L.Reconciled(after.reg, later), approved))
                   && c.task == b.runs[id].task)
      <==> Free(b.reg, b.runs[id].task)
  {
    var task := b.runs[id].task;
    CancelUnblocks(b, id, now, launch, strict);
    L.ReconciledMeans(b.reg, later, task);
    hide Next, Free, OnePerTask, BlockedTasks, L.Reconciled;
    var after := Next(b, CancelStep(id, now), launch, strict);
    var reg := L.Reconciled(b.reg, later);
    if Free(reg, task) {
      var i :| 0 <= i < |approved| && approved[i].task == task;
      CandidatesIff(after.runs, Asked(reg, approved));
      assert Asked(reg, approved)[i] in Asked(reg, approved) && Asked(reg, approved)[i].task == task;
    } else {
      BlockedIsNoCandidate(after.runs, reg, approved, task);
    }
  }

  /** A running run that is checked without trouble takes its launch with it: an active launch is terminated when the
      file says completed, failed when it says failed or is missing, and left alone otherwise, as are all others. */
  lemma CheckFinalizes(b: Both, l: Look, now: int, launch: LaunchIds, strict: bool)
    requires l.id in b.runs && b.runs[l.id].status.Running? && l.trouble.NoTrouble?
    requires launch(l.id) in b.reg && b.reg[launch(l.id)].status.Active?
    ensures var (after, raised) := CheckedBoth(b, l, now, launch, strict);
      var id := launch(l.id);
      && !raised
      && after.runs[l.id].status == Decided(Running, l.file, false, strict)
      && after.reg == b.reg[id := b.reg[id].(status :=
           match l.file
           case SaysCompleted => L.Terminated
           case SaysFailed => L.Failed
           case Missing => L.Failed
           case SaysOther => L.Active)]
  {
    CheckDecides(b.runs, l, now, strict);
    hide CheckedOne;
  }

  /** Finalizing: a launch that can still fail is failed; one that is active or already terminating is terminated; and
      nothing else changes. */
  lemma FinalizedMeans(reg: L.Registry, id: string, failed: bool)
    ensures var after := Finalized(reg, id, failed);
      if id in reg
         && (if failed then reg[id].status in L.BLOCKING else reg[id].status.Active? || reg[id].status.Terminating?)
      then after == reg[id := reg[id].(status := if failed then L.Failed else L.Terminated)]
      else after == reg
  {
  }

  // The scheduler of PollingScheduler, refined.

  /** Checking with the registry wired in does to the runs what checking does. */
  lemma {:induction false} ChecksAsBefore(b: Both, looks: seq<Look>, now: int, launch: LaunchIds, strict: bool)
    ensures var (after, raised) := CheckAllBoth(b, looks, now, launch, strict);
      (after.runs, raised) == Checked(b.runs, looks, now, strict)
  {
    if looks != [] {
      hide CheckedOne;
      ChecksAsBefore(b, looks[..|looks| - 1], now, launch, strict);
    }
  }

  /** No two attempts are for one task, and the launch ids are new. */
  ghost predicate NewLaunches(reg: L.Registry, cs: seq<Candidate>, launch: LaunchIds) {
    && (forall i :: 0 <= i < |cs| ==> launch(cs[i].runId) !in reg && Free(reg, cs[i].task))
    && (forall i, k :: 0 <= i < k < |cs| ==>
          launch(cs[i].runId) != launch(cs[k].runId) && cs[i].task != cs[k].task)
  }

  /** The attempts then go as their outcomes say, and each that was granted leaves its launch. */
  lemma {:induction false} SpawnsAsBefore(b: Both, cs: seq<Candidate>, m: nat, launch: LaunchIds, strict: bool)
    requires m <= |cs| && NewLaunches(b.reg, cs, launch)
    ensures var (after, raised) := SpawnAllBoth(b, cs[..m], launch, strict);
      && (after.runs, raised) == SpawnAll(b.runs, cs[..m], strict)
      && (forall i :: m <= i < |cs| ==> launch(cs[i].runId) !in after.reg && Free(after.reg, cs[i].task))
      && (!raised ==> forall i :: 0 <= i < m ==> LaunchIs(after.reg, cs[i], launch, strict))
      && (forall id :: id in b.reg ==> id in after.reg && after.reg[id] == b.reg[id])
  {
    hide Spawned, Raises, LaunchIs;
    if m > 0 {
      assert cs[..m][..m - 1] == cs[..m - 1] && cs[..m][m - 1] == cs[m - 1];
      SpawnsAsBefore(b, cs, m - 1, launch, strict);
      var mid := SpawnAllBoth(b, cs[..m - 1], launch, strict);
      if !mid.1 {
        SpawnsOne(mid.0, cs, m - 1, launch, strict);
      }
    }
  }

  /** The launch of an attempt: none if it was denied; else with a lease until it is active, and a handle from then
      on. */
  predicate LaunchIs(reg: L.Registry, c: Candidate, launch: LaunchIds, strict: bool) {
    if Denied(c.outcome) then launch(c.runId) !in reg
    else
      && launch(c.runId) in reg
      && var l := reg[launch(c.runId)];
      && l.key == c.task && l.status == LaunchLeft(c.outcome, strict) && l.parent.None?
      && (if l.status.Active? then l.lease.None? && l.handle.Some?
          else l.lease == Some(c.now + L.LEASE_MS) && l.handle.None?)
  }

  lemma SpawnsOne(b: Both, cs: seq<Candidate>, n: nat, launch: LaunchIds, strict: bool)
    requires n < |cs|
    requires forall i :: n <= i < |cs| ==> launch(cs[i].runId) !in b.reg && Free(b.reg, cs[i].task)
    requires forall i, k :: 0 <= i < k < |cs| ==> launch(cs[i].runId) != launch(cs[k].runId) && cs[i].task != cs[k].task
    requires forall i :: 0 <= i < n ==> LaunchIs(b.reg, cs[i], launch, strict)
    ensures var after := SpawnedBoth(b, cs[n], launch, strict);
      && after.runs == Spawned(b.runs, cs[n], strict)
      && RaisesBoth(b, cs[n], launch, strict) == Raises(cs[n].outcome, strict)
      && (forall i :: n < i < |cs| ==> launch(cs[i].runId) !in after.reg && Free(after.reg, cs[i].task))
      && (forall i :: 0 <= i <= n ==> LaunchIs(after.reg, cs[i], launch, strict))
      && (forall id :: id in b.reg ==> id in after.reg && after.reg[id] == b.reg[id])
  {
    hide Spawned, Raises, LaunchLeft;
    assert Effective(b, cs[n], launch) == cs[n].outcome;
    assert cs[n].(outcome := cs[n].outcome) == cs[n];
  }

  /** A poll with the registry wired in does to the runs what a poll does for which the registry, reconciled, says which
      tasks it blocks. */
  lemma PollsAsBefore(b: Both, cap: int, approved: seq<Candidate>, now: int, launch: LaunchIds, strict: bool)
    requires var reg := L.Reconciled(b.reg, now); NewLaunches(reg, Candidates(b.runs, Asked(reg, approved)), launch)
    ensures PolledBoth(b, cap, approved, now, launch, strict).runs
         == Polled(b.runs, cap, Asked(L.Reconciled(b.reg, now), approved), strict).0
  {
    hide L.Reconciled, Asked, Candidates, SpawnAll, SpawnAllBoth, NewLaunches;
    var reg := L.Reconciled(b.reg, now);
    var cs, available := Candidates(b.runs, Asked(reg, approved)), cap - |BlockingIds(b.runs)|;
    if available > 0 {
      SpawnsAsBefore(Both(b.runs, reg), cs, Min(available, |cs|), launch, strict);
    }
  }

  // Reachable states.

  const START := Both(map[], map[])

  ghost predicate Injective(launch: LaunchIds) {
    forall x, y :: launch(x) == launch(y) ==> x == y
  }

  /** Polls use new run ids. */
  ghost predicate Possible(acts: seq<Step>, launch: LaunchIds, strict: bool) {
    forall i {:trigger Steps(START, acts[..i], launch, strict)} :: 0 <= i < |acts| ==>
      acts[i].PollStep? ==> NewIds(Steps(START, acts[..i], launch, strict).runs, acts[i].approved)
  }

  /** Every blocking run has a blocking launch of its own task, no task has two blocking runs, and launches have their
      handles and leases. */
  ghost predicate Linked(b: Both, launch: LaunchIds) {
    && OnePerTask(b.runs) && L.AllManaged(b.reg)
    && forall id :: id in b.runs && Blocking(b.runs[id].status) ==>
         && launch(id) in b.reg && b.reg[launch(id)].key == b.runs[id].task
         && b.reg[launch(id)].status in L.BLOCKING
  }

  lemma SpawnKeepsManaged(b: Both, c: Candidate, launch: LaunchIds, strict: bool)
    requires L.AllManaged(b.reg)
    ensures L.AllManaged(SpawnedBoth(b, c, launch, strict).reg)
  {
    hide Spawned;
  }

  /** A granted launch is for a task without a blocking run: this alone keeps one blocking run per task. */
  lemma SpawnKeepsLinked(b: Both, c: Candidate, launch: LaunchIds, strict: bool)
    requires Linked(b, launch) && Injective(launch) && c.runId !in b.runs
    ensures Linked(SpawnedBoth(b, c, launch, strict), launch)
    ensures SpawnedBoth(b, c, launch, strict).runs.Keys <= b.runs.Keys + {c.runId}
  {
    var o, g := Effective(b, c, launch), SpawnedBoth(b, c, launch, strict);
    SpawnKeepsManaged(b, c, launch, strict);
    hide L.AllManaged;
    if Denied(o) {
      assert NothingNew(b.runs, g.runs);
      NothingNewIsSafe(b.runs, g.runs);
    } else {
      GrantedKeepsLinked(b, c, launch, strict);
    }
  }

  lemma GrantedKeepsLinked(b: Both, c: Candidate, launch: LaunchIds, strict: bool)
    requires Linked(b, launch) && Injective(launch) && c.runId !in b.runs && !Denied(Effective(b, c, launch))
    requires L.AllManaged(SpawnedBoth(b, c, launch, strict).reg)
    ensures Linked(SpawnedBoth(b, c, launch, strict), launch)
    ensures SpawnedBoth(b, c, launch, strict).runs.Keys <= b.runs.Keys + {c.runId}
  {
    hide L.AllManaged;
    forall x | x in BlockingIds(b.runs) ensures b.runs[x].task != c.task {
      assert Free(b.reg, c.task);
    }
    SpawnedIsSafe(b.runs, c, strict);
    hide OnePerTask, BlockedTasks, BlockingIds;
    assert c.(outcome := Effective(b, c, launch)) == c;
  }

  lemma {:induction false} SpawnAllKeepsLinked(b: Both, cs: seq<Candidate>, launch: LaunchIds, strict: bool)
    requires Linked(b, launch) && Injective(launch) && NewIds(b.runs, cs)
    ensures Linked(SpawnAllBoth(b, cs, launch, strict).0, launch)
    ensures forall x :: x in SpawnAllBoth(b, cs, launch, strict).0.runs ==>
              x in b.runs || exists i :: 0 <= i < |cs| && cs[i].runId == x
  {
    if cs != [] {
      hide Linked, SpawnedBoth, RaisesBoth, Injective;
      var n := |cs| - 1;
      SpawnAllKeepsLinked(b, cs[..n], launch, strict);
      var mid := SpawnAllBoth(b, cs[..n], launch, strict);
      if !mid.1 {
        SpawnKeepsLinked(mid.0, cs[n], launch, strict);
      }
    }
  }

  lemma ChosenAreNew(runs: Runs, approved: seq<Candidate>, n: nat)
    requires NewIds(runs, approved) && n <= |Candidates(runs, approved)|
    ensures NewIds(runs, Candidates(runs, approved)[..n])
  {
    CandidatesAreNew(runs, approved);
  }

  lemma {:induction false} CandidatesAreNew(runs: Runs, approved: seq<Candidate>)
    requires NewIds(runs, approved)
    ensures NewIds(runs, Candidates(runs, approved))
    ensures forall c :: c in Candidates(runs, approved) ==> c in approved
  {
    if approved != [] {
      hide BlockedTasks;
      var n := |approved| - 1;
      CandidatesAreNew(runs, approved[..n]);
      var cs := Candidates(runs, approved[..n]);
      forall i | 0 <= i < |cs| ensures cs[i].runId != approved[n].runId {
        assert cs[i] in cs;
        var k :| 0 <= k < n && approved[..n][k] == cs[i];
      }
    }
  }

  lemma PollKeepsLinked(b: Both, cap: int, approved: seq<Candidate>, now: int, launch: LaunchIds, strict: bool)
    requires Linked(b, launch) && Injective(launch) && NewIds(b.runs, approved)
    ensures Linked(PolledBoth(b, cap, approved, now, launch, strict), launch)
  {
    var reg := L.Reconciled(b.reg, now);
    var asked := Asked(reg, approved);
    assert Linked(Both(b.runs, reg), launch);
    assert NewIds(b.runs, asked);
    hide Linked, Injective, NewIds, L.Reconciled, Asked, SpawnAllBoth;
    var available, candidates := cap - |BlockingIds(b.runs)|, Candidates(b.runs, asked);
    if available > 0 {
      ChosenAreNew(b.runs, asked, Min(available, |candidates|));
      SpawnAllKeepsLinked(Both(b.runs, reg), candidates[..Min(available, |candidates|)], launch, strict);
    }
  }

  lemma CheckKeepsLinked(b: Both, l: Look, now: int, launch: LaunchIds, strict: bool)
    requires Linked(b, launch) && Injective(launch)
    ensures Linked(CheckedBoth(b, l, now, launch, strict).0, launch)
  {
    var runs := CheckedOne(b.runs, l, now, strict).0;
    CheckedOneIsSafe(b.runs, l, now, strict);
    NothingNewIsSafe(b.runs, runs);
    hide CheckedOne, OnePerTask;
    forall id | id in runs && Blocking(runs[id].status)
      ensures id in b.runs && Blocking(b.runs[id].status) && runs[id].task == b.runs[id].task
    {
      assert id in BlockingIds(runs);
    }
  }

  lemma {:induction false} CheckAllKeepsLinked(b: Both, looks: seq<Look>, now: int, launch: LaunchIds, strict: bool)
    requires Linked(b, launch) && Injective(launch)
    ensures Linked(CheckAllBoth(b, looks, now, launch, strict).0, launch)
  {
    if looks != [] {
      hide Linked, CheckedBoth, Injective;
      var n := |looks| - 1;
      CheckAllKeepsLinked(b, looks[..n], now, launch, strict);
      CheckKeepsLinked(CheckAllBoth(b, looks[..n], now, launch, strict).0, looks[n], now, launch, strict);
    }
  }

  lemma CancelKeepsLinked(b: Both, id: string, now: int, launch: LaunchIds, strict: bool)
    requires Linked(b, launch)
    ensures Linked(b.(runs := CancelledRun(b.runs, id, now, strict)), launch)
  {
    CancelIsSafe(b.runs, id, now, strict);
    NothingNewIsSafe(b.runs, CancelledRun(b.runs, id, now, strict));
  }

  /** In every state that polls, checks and cancellations lead to, every blocking run has a blocking launch of its task,
      and no task has two blocking runs. */
  lemma {:induction false} RunKeepsLinked(acts: seq<Step>, launch: LaunchIds, strict: bool)
    requires Possible(acts, launch, strict) && Injective(launch)
    ensures Linked(Steps(START, acts, launch, strict), launch)
  {
    if acts != [] {
      hide PolledBoth, CheckAllBoth, Linked, Injective, NewIds;
      var n := |acts| - 1;
      PossiblePrefix(acts, n, launch, strict);
      RunKeepsLinked(acts[..n], launch, strict);
      var mid := Steps(START, acts[..n], launch, strict);
      match acts[n]
      case PollStep(cap, approved, now) => PollKeepsLinked(mid, cap, approved, now, launch, strict);
      case CheckStep(looks, now) => CheckAllKeepsLinked(mid, looks, now, launch, strict);
      case CancelStep(id, now) => CancelKeepsLinked(mid, id, now, launch, strict);
    }
  }

  lemma PossiblePrefix(acts: seq<Step>, n: nat, launch: LaunchIds, strict: bool)
    requires Possible(acts, launch, strict) && n < |acts|
    ensures Possible(acts[..n], launch, strict)
    ensures acts[n].PollStep? ==> NewIds(Steps(START, acts[..n], launch, strict).runs, acts[n].approved)
  {
    hide Steps, NewIds;
    forall i | 0 <= i < n && acts[..n][i].PollStep?
      ensures NewIds(Steps(START, acts[..n][..i], launch, strict).runs, acts[..n][i].approved)
    {
      assert acts[..n][..i] == acts[..i] && acts[..n][i] == acts[i];
    }
  }

  /** So cancelling never frees a task: whatever run is cancelled in whatever state that polls, checks and cancellations
      lead to, its launch blocks the task from then on. */
  lemma CancelNeverFrees(acts: seq<Step>, id: string, now: int, more: seq<Step>, launch: LaunchIds, strict: bool,
                         approved: seq<Candidate>, later: int)
    requires Possible(acts, launch, strict) && Injective(launch)
    requires var b := Steps(START, acts, launch, strict); id in b.runs && Edge(b.runs[id].status, Cancelled)
    requires forall i :: 0 <= i < |more| ==> Fresh(more[i], id)
    ensures var b := Steps(START, acts, launch, strict);
      var after := Steps(Next(b, CancelStep(id, now), launch, strict), more, launch, strict);
      && !Free(after.reg, b.runs[id].task) && b.runs[id].task !in BlockedTasks(after.runs)
      && forall c :: c in Candidates(after.runs, Asked(L.Reconciled(after.reg, later), approved)) ==>
                       c.task != b.runs[id].task
  {
    RunKeepsLinked(acts, launch, strict);
    var b := Steps(START, acts, launch, strict);
    assert Blocking(b.runs[id].status);
    hide Steps, Next, BlockedTasks, Candidates, OnePerTask;
    CancelledIsNeverRunAgain(b, id, now, more, launch, strict, approved, later);
  }
}
