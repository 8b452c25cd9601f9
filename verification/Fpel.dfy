/** The authorization gate: proposals are frozen, checked, sealed, and failed. The content hash is any function. */
module Fpel {
  import opened Options

  type HashFunction = string -> string

  datatype Proposal = Proposal(target: string, hash: string, content: string, active: bool)

  datatype Verdict = Verdict(hash: string, legacy: bool)

  datatype Check = Pass | Fail | OtherVerdict

  datatype TargetStatus = NotEvaluated | TerminalFail | OtherStatus

  datatype Reason = HashMismatch | MissingReports | TerminallyFailed | NoFrozenProposal

  datatype Decision = Allowed(id: string) | Denied(reason: Reason)

  /** The repository. `reports` maps a proposal to its checkers' verdicts; `checkers` lists those registered
      for a target. */
  datatype State = State(
    proposals: map<string, Proposal>, verdicts: map<string, Verdict>, failures: map<string, Option<string>>,
    reports: map<string, map<string, Check>>, checkers: map<string, seq<string>>, status: map<string, TargetStatus>,
    current: map<string, string>)

  const EMPTY := State(map[], map[], map[], map[], map[], map[], map[])

  /** The hash that the repository reports as a target's current one; how it comes by it is left open. */
  function Reported(f: State, target: string): Option<string> {
    if target in f.current then Some(f.current[target]) else None
  }

  predicate IsActive(proposals: map<string, Proposal>, target: string, id: string) {
    id in proposals && proposals[id].target == target && proposals[id].active
  }

  /** The active proposal of a target, if any. */
  ghost function ActiveOf(f: State, target: string): (a: Option<string>)
    ensures a.Some? ==> IsActive(f.proposals, target, a.value)
    ensures a.None? ==> forall id :: !IsActive(f.proposals, target, id)
  {
    if id :| IsActive(f.proposals, target, id) then Some(id) else None
  }

  /** `proposals` with those of `target` no longer active. */
  function Supersede(proposals: map<string, Proposal>, target: string): map<string, Proposal> {
    map id | id in proposals ::
      if proposals[id].target == target then proposals[id].(active := false) else proposals[id]
  }

  /** All registered checkers, at least one, have reported PASS on the proposal. */
  predicate AllPassed(f: State, target: string, id: string) {
    && target in f.checkers
    && f.checkers[target] != []
    && forall c :: c in f.checkers[target] ==> id in f.reports && c in f.reports[id] && f.reports[id][c] == Pass
  }

  // What the operations do.

  /** Freezing supersedes the target's active proposals and stores the new one, unless its id is taken. */
  function Frozen(f: State, target: string, content: string, id: string, h: HashFunction): State {
    if id in f.proposals then f
    else f.(proposals := Supersede(f.proposals, target)[id := Proposal(target, h(content), content, true)])
  }

  /** Why a seal is refused; None when it is not. The clauses are tried in this order; a proposal already sealed is not
      sealed again. */
  ghost function SealRefusal(f: State, target: string): Option<Reason> {
    var a, current := ActiveOf(f, target), Reported(f, target);
    if a.None? then Some(NoFrozenProposal)
    else if a.value in f.failures then Some(TerminallyFailed)
    else if a.value in f.verdicts then None
    else if target in f.status && f.status[target] == TerminalFail then Some(TerminallyFailed)
    else if current.Some? && current.value != f.proposals[a.value].hash then Some(HashMismatch)
    else if !AllPassed(f, target, a.value) then Some(MissingReports)
    else None
  }

  ghost function Sealed(f: State, target: string): State {
    var a := ActiveOf(f, target);
    if SealRefusal(f, target).Some? || a.value in f.verdicts then f
    else f.(verdicts := f.verdicts[a.value := Verdict(f.proposals[a.value].hash, false)])
  }

  /** Failing keeps the first reason. */
  ghost function FailMarked(f: State, target: string, reason: Option<string>): State {
    var a := ActiveOf(f, target);
    if a.None? || a.value in f.failures then f else f.(failures := f.failures[a.value := reason])
  }

  /** The legacy snapshot freezes and seals at once, but only a target without an active proposal. */
  ghost function Snapshotted(f: State, target: string, content: string, id: string, h: HashFunction): State {
    if ActiveOf(f, target).Some? || id in f.proposals then f
    else Frozen(f, target, content, id, h).(verdicts := f.verdicts[id := Verdict(h(content), true)])
  }

  /** The decision of the gate, for the hash the caller brings, else the one the repository reports. */
  ghost function GateDecision(f: State, target: string, brought: Option<string>): Decision {
    var a, current := ActiveOf(f, target), if brought.Some? then brought else Reported(f, target);
    if a.None? then Denied(NoFrozenProposal)
    else if a.value in f.failures then Denied(TerminallyFailed)
    else if a.value !in f.verdicts then Denied(MissingReports)
    else if current.Some? && current.value != f.verdicts[a.value].hash then Denied(HashMismatch)
    else Allowed(a.value)
  }

  // The service.

  class AuthorizationService {
    const h: HashFunction
    var repo: State

    ghost predicate Valid()
      reads this
    {
      Inv(repo, h)
    }

    constructor (h: HashFunction)
      ensures this.h == h && repo == EMPTY && Valid()
    {
      this.h := h;
      repo := EMPTY;
    }

    method GetActive(target: string) returns (a: Option<string>)
      requires Valid()
      ensures a == ActiveOf(repo, target)
    {
      if id :| id in repo.proposals && IsActive(repo.proposals, target, id) {
        return Some(id);
      }
      return None;
    }

    method Freeze(target: string, content: string, id: string) returns (ok: bool)
      requires Valid()
      modifies this`repo
      ensures Valid() && repo == Frozen(old(repo), target, content, id, h)
      ensures ok <==> id !in old(repo).proposals
      ensures ok ==> ActiveOf(repo, target) == Some(id) && repo.proposals[id].hash == h(content)
    {
      if id in repo.proposals {
        return false;
      }
      FrozenKeepsInv(repo, target, content, id, h);
      repo := repo.(proposals := Supersede(repo.proposals, target)[id := Proposal(target, h(content), content, true)]);
      ActiveIsUnique(repo, target, id);
      return true;
    }

    method AllCheckersPassed(target: string, id: string) returns (passed: bool)
      ensures passed <==> AllPassed(repo, target, id)
    {
      var checkers := if target in repo.checkers then repo.checkers[target] else [];
      var reports := if id in repo.reports then repo.reports[id] else map[];
      if checkers == [] {
        return false;
      }
      for i := 0 to |checkers|
        invariant forall k :: 0 <= k < i ==> checkers[k] in reports && reports[checkers[k]] == Pass
      {
        if checkers[i] !in reports || reports[checkers[i]] != Pass {
          assert checkers[i] in repo.checkers[target];
          return false;
        }
      }
      return true;
    }

    method Seal(target: string) returns (refusal: Option<Reason>)
      requires Valid()
      modifies this`repo
      ensures Valid() && repo == Sealed(old(repo), target)
      ensures refusal == SealRefusal(old(repo), target)
    {
      hide AllPassed, Inv;
      SealedKeepsInv(repo, target, h);
      var frozen := GetActive(target);
      if frozen.None? {
        return Some(NoFrozenProposal);
      }
      var id := frozen.value;
      if id in repo.failures {
        return Some(TerminallyFailed);
      }
      if id in repo.verdicts {
        return None;
      }
      if target in repo.status && repo.status[target] == TerminalFail {
        return Some(TerminallyFailed);
      }
      var current := Reported(repo, target);
      if current.Some? && current.value != repo.proposals[id].hash {
        return Some(HashMismatch);
      }
      var passed := AllCheckersPassed(target, id);
      if !passed {
        return Some(MissingReports);
      }
      repo := repo.(verdicts := repo.verdicts[id := Verdict(repo.proposals[id].hash, false)]);
      return None;
    }

    method CheckSealed(target: string, current: Option<string>) returns (d: Decision)
      requires Valid()
      ensures d == GateDecision(repo, target, current)
    {
      var frozen := GetActive(target);
      if frozen.None? {
        return Denied(NoFrozenProposal);
      }
      if frozen.value in repo.failures {
        return Denied(TerminallyFailed);
      }
      if frozen.value !in repo.verdicts {
        return Denied(MissingReports);
      }
      var effective := if current.Some? then current else Reported(repo, target);
      if effective.Some? && repo.verdicts[frozen.value].hash != effective.value {
        return Denied(HashMismatch);
      }
      return Allowed(frozen.value);
    }

    method MarkFail(target: string, reason: Option<string>) returns (ok: bool)
      requires Valid()
      modifies this`repo
      ensures Valid() && repo == FailMarked(old(repo), target, reason)
      ensures ok <==> ActiveOf(old(repo), target).Some?
    {
      var frozen := GetActive(target);
      if frozen.None? {
        return false;
      }
      if frozen.value !in repo.failures {
        repo := repo.(failures := repo.failures[frozen.value := reason]);
      }
      return true;
    }

    /** None when refused: the active proposal failed, or is not sealed, or the id is taken. */
    method SnapshotLegacy(target: string, content: string, id: string) returns (r: Option<string>)
      requires Valid()
      modifies this`repo
      ensures Valid() && repo == Snapshotted(old(repo), target, content, id, h)
      ensures r.Some? ==> ActiveOf(repo, target) == r && r.value in repo.verdicts && r.value !in repo.failures
      ensures r.Some? <==> match ActiveOf(old(repo), target)
                           case None => id !in old(repo).proposals
                           case Some(a) => a !in old(repo).failures && a in old(repo).verdicts
    {
      var frozen := GetActive(target);
      if frozen.Some? {
        if frozen.value in repo.failures || frozen.value !in repo.verdicts {
          return None;
        }
        return frozen;
      }
      if id in repo.proposals {
        return None;
      }
      SnapshottedKeepsInv(repo, target, content, id, h);
      repo := repo.(
        proposals := Supersede(repo.proposals, target)[id := Proposal(target, h(content), content, true)],
        verdicts := repo.verdicts[id := Verdict(h(content), true)]);
      ActiveIsUnique(repo, target, id);
      return Some(id);
    }
  }

  // Invariant.

  /** Each target has at most one active proposal; hashes are the hashes of the contents; a verdict carries its
      proposal's hash; only proposals fail. */
  ghost predicate Inv(f: State, h: HashFunction) {
    && (forall target, a, b :: IsActive(f.proposals, target, a) && IsActive(f.proposals, target, b) ==> a == b)
    && (forall id :: id in f.proposals ==> f.proposals[id].hash == h(f.proposals[id].content))
    && (forall id :: id in f.verdicts ==> id in f.proposals && f.verdicts[id].hash == f.proposals[id].hash)
    && f.failures.Keys <= f.proposals.Keys
  }

  lemma ActiveIsUnique(f: State, target: string, id: string)
    requires IsActive(f.proposals, target, id)
    requires forall a :: IsActive(f.proposals, target, a) ==> a == id
    ensures ActiveOf(f, target) == Some(id)
  {
  }

  /** After a freeze the new proposal is the target's only active one; other targets keep theirs. */
  lemma FrozenActive(f: State, target: string, content: string, id: string, h: HashFunction, t: string, a: string)
    requires id !in f.proposals
    ensures IsActive(Frozen(f, target, content, id, h).proposals, t, a) <==>
      if t == target then a == id else IsActive(f.proposals, t, a)
  {
  }

  lemma FrozenKeepsInv(f: State, target: string, content: string, id: string, h: HashFunction)
    requires Inv(f, h)
    ensures Inv(Frozen(f, target, content, id, h), h)
    ensures id !in f.proposals ==> ActiveOf(Frozen(f, target, content, id, h), target) == Some(id)
  {
    if id !in f.proposals {
      var g := Frozen(f, target, content, id, h);
      forall t, a, b | IsActive(g.proposals, t, a) && IsActive(g.proposals, t, b) ensures a == b {
        FrozenActive(f, target, content, id, h, t, a);
        FrozenActive(f, target, content, id, h, t, b);
      }
      FrozenActive(f, target, content, id, h, target, id);
      ActiveIsUnique(g, target, id);
    }
  }

  lemma SnapshottedKeepsInv(f: State, target: string, content: string, id: string, h: HashFunction)
    requires Inv(f, h)
    ensures Inv(Snapshotted(f, target, content, id, h), h)
  {
    FrozenKeepsInv(f, target, content, id, h);
    var g, s := Frozen(f, target, content, id, h), Snapshotted(f, target, content, id, h);
    if s != f {
      forall t, a, b | IsActive(s.proposals, t, a) && IsActive(s.proposals, t, b) ensures a == b {
        assert IsActive(g.proposals, t, a) && IsActive(g.proposals, t, b);
      }
    }
  }

  lemma SealedKeepsInv(f: State, target: string, h: HashFunction)
    requires Inv(f, h)
    ensures Inv(Sealed(f, target), h)
  {
  }

  // Runs. Besides the service, checkers are registered and report, and statuses are set, by others.

  datatype Op =
    | Freeze(target: string, content: string, id: string)
    | Seal(target: string)
    | MarkFail(target: string, reason: Option<string>)
    | SnapshotLegacy(target: string, content: string, id: string)
    | Report(id: string, checker: string, check: Check)
    | Register(target: string, names: seq<string>)
    | SetStatus(target: string, status: TargetStatus)
    | Announce(target: string, hash: Option<string>)  // what the repository reports from now on

  ghost function Do(f: State, op: Op, h: HashFunction): State {
    match op
    case Freeze(target, content, id) => Frozen(f, target, content, id, h)
    case Seal(target) => Sealed(f, target)
    case MarkFail(target, reason) => FailMarked(f, target, reason)
    case SnapshotLegacy(target, content, id) => Snapshotted(f, target, content, id, h)
    case Report(id, checker, check) =>
      f.(reports := f.reports[id := (if id in f.reports then f.reports[id] else map[])[checker := check]])
    case Register(target, names) => f.(checkers := f.checkers[target := names])
    case SetStatus(target, status) => f.(status := f.status[target := status])
    case Announce(target, hash) =>
      f.(current := if hash.Some? then f.current[target := hash.value] else f.current - {target})
  }

  ghost function Run(f: State, ops: seq<Op>, h: HashFunction): State {
    if ops == [] then f else Do(Run(f, ops[..|ops| - 1], h), ops[|ops| - 1], h)
  }

  lemma DoKeepsInv(f: State, op: Op, h: HashFunction)
    requires Inv(f, h)
    ensures Inv(Do(f, op, h), h)
  {
    match op
    case Freeze(target, content, id) => FrozenKeepsInv(f, target, content, id, h);
    case SnapshotLegacy(target, content, id) => SnapshottedKeepsInv(f, target, content, id, h);
    case Seal(target) => SealedKeepsInv(f, target, h);
    case _ =>
  }

  lemma {:induction false} RunKeepsInv(f: State, ops: seq<Op>, h: HashFunction)
    requires Inv(f, h)
    ensures Inv(Run(f, ops, h), h)
  {
    if ops != [] {
      hide Do, Inv;
      RunKeepsInv(f, ops[..|ops| - 1], h);
      DoKeepsInv(Run(f, ops[..|ops| - 1], h), ops[|ops| - 1], h);
    }
  }

  /** What it takes to seal: the proposal is its target's active one, has not failed, is not sealed, all of a non-empty
      list of checkers passed it, the target is not failed for good, and if the repository reports a hash, it is that of
      the proposal's content. */
  ghost predicate Earned(f: State, target: string, id: string, h: HashFunction) {
    && IsActive(f.proposals, target, id) && id !in f.failures && id !in f.verdicts && AllPassed(f, target, id)
    && !(target in f.status && f.status[target].TerminalFail?)
    && (Reported(f, target).None? || Reported(f, target).value == h(f.proposals[id].content))
  }

  /** A seal is granted exactly when it is earned, and what it stores is the hash of the sealed content. */
  lemma SealGrantedIff(f: State, target: string, h: HashFunction, id: string)
    requires Inv(f, h)
    ensures id in Sealed(f, target).verdicts && id !in f.verdicts <==> Earned(f, target, id, h)
    ensures Earned(f, target, id, h) ==>
      Sealed(f, target) == f.(verdicts := f.verdicts[id := Verdict(h(f.proposals[id].content), false)])
    ensures (forall p :: !Earned(f, target, p, h)) ==> Sealed(f, target) == f
  {
    hide AllPassed;
    if IsActive(f.proposals, target, id) {
      ActiveIsUnique(f, target, id);
    }
    var a := ActiveOf(f, target);
    assert a.Some? && Sealed(f, target) != f ==> Earned(f, target, a.value, h);
  }

  /** What each answer means, in the order of the reasons. */
  lemma RefusalMeans(f: State, target: string, h: HashFunction, id: string)
    requires Inv(f, h) && IsActive(f.proposals, target, id)
    ensures var live :=
        id !in f.failures && id !in f.verdicts && !(target in f.status && f.status[target].TerminalFail?);
      var drifted := Reported(f, target).Some? && Reported(f, target).value != h(f.proposals[id].content);
      && (SealRefusal(f, target) == Some(HashMismatch) <==> live && drifted)
      && (SealRefusal(f, target) == Some(MissingReports) <==> live && !drifted && !AllPassed(f, target, id))
      && (SealRefusal(f, target) == Some(TerminallyFailed) <==> !live && (id in f.failures || id !in f.verdicts))
      && SealRefusal(f, target) != Some(NoFrozenProposal)
  {
    hide AllPassed;
    ActiveIsUnique(f, target, id);
  }

  lemma NothingFrozen(f: State, target: string)
    ensures SealRefusal(f, target) == Some(NoFrozenProposal) <==> forall id :: !IsActive(f.proposals, target, id)
  {
    hide AllPassed;
    var a := ActiveOf(f, target);
    assert a.Some? ==> IsActive(f.proposals, target, a.value);
  }

  lemma NewVerdictIsEarned(f: State, op: Op, h: HashFunction, id: string)
    requires Inv(f, h)
    requires id in Do(f, op, h).verdicts && !Do(f, op, h).verdicts[id].legacy
    requires !(id in f.verdicts && !f.verdicts[id].legacy)
    ensures op.Seal? && Earned(f, op.target, id, h)
  {
    hide AllPassed;
  }

  /** Over every run, a verdict that is not a legacy one was made by a seal when it was earned. */
  lemma {:induction false} VerdictWasEarned(ops: seq<Op>, h: HashFunction, id: string) returns (n: nat)
    requires id in Run(EMPTY, ops, h).verdicts && !Run(EMPTY, ops, h).verdicts[id].legacy
    ensures n < |ops| && ops[n].Seal? && Earned(Run(EMPTY, ops[..n], h), ops[n].target, id, h)
  {
    hide Do, Inv, Earned;
    var k := |ops| - 1;
    var f := Run(EMPTY, ops[..k], h);
    if id in f.verdicts && !f.verdicts[id].legacy {
      n := VerdictWasEarned(ops[..k], h, id);
      assert ops[..k][..n] == ops[..n];
    } else {
      n := k;
      EmptyIsSound(h);
      RunKeepsInv(EMPTY, ops[..k], h);
      NewVerdictIsEarned(f, ops[k], h, id);
    }
  }

  lemma EmptyIsSound(h: HashFunction)
    ensures Inv(EMPTY, h)
  {
  }

  /** The first reason stays: nothing that happens after a fail changes it, further fails included. */
  lemma {:induction false} FirstReasonStays(f: State, target: string, reason: Option<string>, ops: seq<Op>,
                                            h: HashFunction, id: string)
    requires IsActive(f.proposals, target, id) && Inv(f, h)
    ensures id in Run(FailMarked(f, target, reason), ops, h).failures
    ensures Run(FailMarked(f, target, reason), ops, h).failures[id]
         == if id in f.failures then f.failures[id] else reason
  {
    if ops == [] {
      ActiveIsUnique(f, target, id);
    } else {
      hide Do;
      FirstReasonStays(f, target, reason, ops[..|ops| - 1], h, id);
      FailuresStay(Run(FailMarked(f, target, reason), ops[..|ops| - 1], h), ops[|ops| - 1], h, id);
    }
  }

  lemma FailuresStay(f: State, op: Op, h: HashFunction, id: string)
    requires id in f.failures
    ensures id in Do(f, op, h).failures && Do(f, op, h).failures[id] == f.failures[id]
  {
    hide AllPassed;
  }

  /** A legacy snapshot of a target without an active proposal, under a new id, opens the gate for the content's
      hash. Of one with an active proposal it changes nothing. */
  lemma SnapshotOpensIff(f: State, target: string, content: string, id: string, h: HashFunction)
    requires Inv(f, h)
    ensures var g := Snapshotted(f, target, content, id, h);
      && (ActiveOf(f, target).None? && id !in f.proposals
          <==>
            && g != f && OpenBy(g, target, h(content), id)
            && g.verdicts[id].legacy && g.proposals[id].content == content)
      && (!(ActiveOf(f, target).None? && id !in f.proposals) ==> g == f)
  {
    if ActiveOf(f, target).None? && id !in f.proposals {
      FrozenKeepsInv(f, target, content, id, h);
      assert id !in f.failures;
    }
  }

  /** The active proposal of `target` failed. */
  ghost predicate Stopped(f: State, target: string, id: string) {
    IsActive(f.proposals, target, id) && id in f.failures
  }

  lemma StoppedStays(f: State, op: Op, h: HashFunction, target: string, id: string)
    requires Inv(f, h) && Stopped(f, target, id) && !(op.Freeze? && op.target == target)
    ensures Stopped(Do(f, op, h), target, id)
  {
    hide AllPassed, Sealed;
    if op.Seal? {
      SealingAdds(f, op.target);
    }
  }

  /** After a fail no sequence of operations without a new freeze of the target opens its gate, for any hash. */
  lemma {:induction false} FailIsFinal(f: State, target: string, reason: Option<string>, ops: seq<Op>, h: HashFunction,
                                       current: Option<string>)
    requires Inv(f, h) && ActiveOf(f, target).Some?
    requires forall i :: 0 <= i < |ops| ==> !(ops[i].Freeze? && ops[i].target == target)
    ensures var g := Run(FailMarked(f, target, reason), ops, h);
      GateDecision(g, target, current) == Denied(TerminallyFailed) && Stopped(g, target, ActiveOf(f, target).value)
  {
    hide Do, Inv;
    var failed, id := FailMarked(f, target, reason), ActiveOf(f, target).value;
    MarkingKeepsInv(f, target, reason, h);
    if ops == [] {
      assert Stopped(failed, target, id);
    } else {
      var n := |ops| - 1;
      FailIsFinal(f, target, reason, ops[..n], h, current);
      RunKeepsInv(failed, ops[..n], h);
      StoppedStays(Run(failed, ops[..n], h), ops[n], h, target, id);
    }
    RunKeepsInv(failed, ops, h);
    StoppedIsDenied(Run(failed, ops, h), h, target, id, current);
  }

  lemma MarkingKeepsInv(f: State, target: string, reason: Option<string>, h: HashFunction)
    requires Inv(f, h)
    ensures Inv(FailMarked(f, target, reason), h)
  {
    DoKeepsInv(f, MarkFail(target, reason), h);
  }

  lemma StoppedIsDenied(f: State, h: HashFunction, target: string, id: string, current: Option<string>)
    requires Inv(f, h) && Stopped(f, target, id)
    ensures GateDecision(f, target, current) == Denied(TerminallyFailed)
  {
    ActiveIsUnique(f, target, id);
  }

  /** The gate is open for this very hash. */
  ghost predicate GateOpen(f: State, target: string, hash: string) {
    exists id :: OpenBy(f, target, hash, id)
  }

  predicate OpenBy(f: State, target: string, hash: string, id: string) {
    IsActive(f.proposals, target, id) && id !in f.failures && id in f.verdicts && f.verdicts[id].hash == hash
  }

  /** A caller that brings its hash is allowed exactly when a live seal of exactly that hash exists, and then the
      sealed proposal's own content has that hash. */
  lemma AllowedIffOpen(f: State, target: string, hash: string, h: HashFunction)
    requires Inv(f, h)
    ensures GateDecision(f, target, Some(hash)).Allowed? <==> GateOpen(f, target, hash)
    ensures GateOpen(f, target, hash) ==>
      exists id :: IsActive(f.proposals, target, id) && id !in f.failures && h(f.proposals[id].content) == hash
  {
    var d := GateDecision(f, target, Some(hash));
    if d.Allowed? {
      assert OpenBy(f, target, hash, d.id);
    }
    if id :| OpenBy(f, target, hash, id) {
      ActiveIsUnique(f, target, id);
      assert h(f.proposals[id].content) == hash;
    }
  }

  /** What each denial means, in the order of the reasons, for the hash that counts: the one brought, else the one
      reported. */
  lemma DenialMeans(f: State, target: string, brought: Option<string>, h: HashFunction)
    requires Inv(f, h)
    ensures var d := GateDecision(f, target, brought);
      && (d == Denied(NoFrozenProposal) <==> forall id :: !IsActive(f.proposals, target, id))
      && forall id :: IsActive(f.proposals, target, id) ==>
           && (d == Denied(TerminallyFailed) <==> id in f.failures)
           && (d == Denied(MissingReports) <==> id !in f.failures && id !in f.verdicts)
           && (d == Denied(HashMismatch) <==>
                 && id !in f.failures && id in f.verdicts
                 && var hash := if brought.Some? then brought else Reported(f, target);
                    hash.Some? && hash.value != h(f.proposals[id].content))
  {
    var a := ActiveOf(f, target);
    if a.Some? {
      assert IsActive(f.proposals, target, a.value);
    }
  }

  /** What others do counts: a target failed for good is not sealed, ... */
  lemma StatusCounts(f: State, target: string, id: string, h: HashFunction)
    requires IsActive(f.proposals, target, id) && (forall a :: IsActive(f.proposals, target, a) ==> a == id)
    requires id !in f.verdicts
    ensures SealRefusal(Do(f, SetStatus(target, TerminalFail), h), target) == Some(TerminallyFailed)
  {
    hide AllPassed;
    ActiveIsUnique(Do(f, SetStatus(target, TerminalFail), h), target, id);
  }

  /** ... a hash is reported from its announcement until it is withdrawn, ... */
  lemma AnnouncementCounts(f: State, target: string, hash: string, h: HashFunction)
    ensures Reported(Do(f, Announce(target, Some(hash)), h), target) == Some(hash)
    ensures Reported(Do(f, Announce(target, None), h), target) == None
  {
  }

  /** ... and the last report of a checker decides. */
  lemma ReportCounts(f: State, target: string, id: string, checker: string, check: Check, h: HashFunction)
    ensures AllPassed(Do(Do(f, Register(target, [checker]), h), Report(id, checker, check), h), target, id)
       <==> check.Pass?
  {
    var g := Do(Do(f, Register(target, [checker]), h), Report(id, checker, check), h);
    assert g.checkers[target] == [checker] && checker in g.checkers[target];
  }

  /** Sealing only adds a verdict that was not there. */
  lemma SealingAdds(f: State, target: string)
    ensures var g := Sealed(f, target);
      && g.proposals == f.proposals && g.failures == f.failures
      && forall id :: id in f.verdicts ==> id in g.verdicts && g.verdicts[id] == f.verdicts[id]
  {
    hide AllPassed;
  }

  /** An open gate stays open through everything but a new freeze or a fail of its target. */
  lemma OpenStays(f: State, op: Op, h: HashFunction, target: string, hash: string)
    requires Inv(f, h) && GateOpen(f, target, hash)
    requires !((op.Freeze? || op.MarkFail?) && op.target == target)
    ensures GateOpen(Do(f, op, h), target, hash)
  {
    var id :| OpenBy(f, target, hash, id);
    hide AllPassed, Sealed;
    if op.Seal? {
      SealingAdds(f, op.target);
    }
    assert OpenBy(Do(f, op, h), target, hash, id);
  }
}
