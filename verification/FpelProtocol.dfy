/** Any number of clients of the authorization gate, each service call split at its repository calls. */
module FpelProtocol {
  import opened Options
  import opened Fpel

  datatype Call =
    | CallFreeze(target: string, content: string, id: string)
    | CallSeal(target: string)
    | CallMarkFail(target: string, reason: Option<string>)
    | CallSnapshot(target: string, content: string, id: string)
    | CallCheck(target: string, current: Option<string>)

  /** Where a client stands: what its next repository call is. With it go the moments at which it has read: the
      active proposal at `a`, that it has not failed at `b`, the target's status at `s`, the hash that the
      repository reports at `e`, its verdict or the checkers at `c`, the reports at `d`. */
  datatype Pc =
    | Idle
    | GettingAll(target: string, content: string, id: string, legacy: bool)
    | SavingFrozen(target: string, content: string, id: string, legacy: bool, supersede: set<string>)
    | GettingActive(call: Call)
    | AskingFailed(call: Call, p: string, a: nat)
    | GettingVerdict(call: Call, p: string, a: nat, b: nat)
    | GettingStatus(target: string, p: string, a: nat, b: nat)
    | GettingHash(target: string, p: string, a: nat, b: nat, s: nat)
    | GettingCheckers(target: string, p: string, a: nat, b: nat, s: nat, e: nat)
    | GettingReports(target: string, p: string, a: nat, b: nat, s: nat, e: nat, checkers: seq<string>, c: nat)
    | SavingVerdict(target: string, p: string, a: nat, b: nat, s: nat, e: nat, checkers: seq<string>, c: nat, d: nat)
    | SavingFail(p: string, reason: Option<string>)
    | ComparingHash(target: string, p: string, hash: string, a: nat, b: nat, c: nat)
    | Denying(target: string)
    | Allowing(target: string, p: string, current: Option<string>, a: nat, b: nat, c: nat)

  /** What the environment decides for one step: the call to start, and whether the repository call fails. */
  datatype Choice = Choice(call: Call, fails: bool)

  function StartCall(call: Call): Pc {
    match call
    case CallFreeze(target, content, id) => GettingAll(target, content, id, false)
    case _ => GettingActive(call)
  }

  /** After the active proposal was read. */
  function AfterActive(call: Call, active: Option<string>, now: nat): Pc {
    match active
    case None =>
      (match call
       case CallCheck(target, _) => Denying(target)
       case CallSnapshot(target, content, id) => GettingAll(target, content, id, true)
       case _ => Idle)
    case Some(p) => if call.CallMarkFail? then SavingFail(p, call.reason) else AskingFailed(call, p, now)
  }

  function AfterFailed(f: State, call: Call, p: string, a: nat, now: nat): Pc {
    if p !in f.failures then GettingVerdict(call, p, a, now)
    else if call.CallCheck? then Denying(call.target)
    else Idle
  }

  function AfterVerdict(f: State, call: Call, p: string, a: nat, b: nat, now: nat): Pc {
    match call
    case CallSeal(target) => if p in f.verdicts then Idle else GettingStatus(target, p, a, b)
    case CallCheck(target, current) =>
      if p !in f.verdicts then Denying(target)
      else if current.None? then ComparingHash(target, p, f.verdicts[p].hash, a, b, now)
      else if current.value == f.verdicts[p].hash then Allowing(target, p, current, a, b, now)
      else Denying(target)
    case _ => Idle
  }

  function CheckersOf(f: State, target: string): seq<string> {
    if target in f.checkers then f.checkers[target] else []
  }

  /** The reported hash is not the proposal's. */
  predicate Drifted(f: State, target: string, p: string) {
    Reported(f, target).Some? && p in f.proposals && Reported(f, target).value != f.proposals[p].hash
  }

  predicate AllReported(f: State, p: string, checkers: seq<string>) {
    checkers != [] && forall k :: k in checkers ==> p in f.reports && k in f.reports[p] && f.reports[p][k] == Pass
  }

  /** The proposals with exactly those listed no longer active. */
  function SupersedeIds(proposals: map<string, Proposal>, ids: set<string>): map<string, Proposal> {
    map id | id in proposals :: if id in ids then proposals[id].(active := false) else proposals[id]
  }

  /** The save of a new proposal: it fails if the id is taken, or if the target would have another active proposal,
      which a unique index forbids. */
  predicate SaveFails(f: State, target: string, id: string, supersede: set<string>) {
    id in f.proposals || exists q :: IsActive(f.proposals, target, q) && q in f.proposals && q !in supersede
  }

  function SavedFrozen(f: State, pc: Pc, h: HashFunction): State
    requires pc.SavingFrozen?
  {
    if SaveFails(f, pc.target, pc.id, pc.supersede) then f
    else
      var p := Proposal(pc.target, h(pc.content), pc.content, true);
      var g := f.(proposals := SupersedeIds(f.proposals, pc.supersede)[pc.id := p]);
      if pc.legacy then g.(verdicts := g.verdicts[pc.id := Verdict(h(pc.content), true)]) else g
  }

  function SavedVerdict(f: State, p: string): State {
    if p in f.verdicts || p !in f.proposals then f
    else f.(verdicts := f.verdicts[p := Verdict(f.proposals[p].hash, false)])
  }

  function SavedFail(f: State, p: string, reason: Option<string>): State {
    if p in f.failures then f else f.(failures := f.failures[p := reason])
  }

  /** One repository call of one client. */
  ghost function Act(f: State, now: nat, pc: Pc, ch: Choice, h: HashFunction): (State, Pc) {
    if ch.fails then (f, Idle)
    else
      match pc
      case Idle => (f, StartCall(ch.call))
      case GettingAll(target, content, id, legacy) =>
        (f, SavingFrozen(target, content, id, legacy, set q | q in f.proposals && IsActive(f.proposals, target, q)))
      case SavingFrozen(_, _, _, _, _) => (SavedFrozen(f, pc, h), Idle)
      case GettingActive(call) => (f, AfterActive(call, ActiveOf(f, call.target), now))
      case AskingFailed(call, p, a) => (f, AfterFailed(f, call, p, a, now))
      case GettingVerdict(call, p, a, b) => (f, AfterVerdict(f, call, p, a, b, now))
      case GettingStatus(target, p, a, b) =>
        (f, if target in f.status && f.status[target] == TerminalFail then Idle else GettingHash(target, p, a, b, now))
      case GettingHash(target, p, a, b, s) =>
        (f, if Drifted(f, target, p) then Idle else GettingCheckers(target, p, a, b, s, now))
      case GettingCheckers(target, p, a, b, s, e) =>
        (f, GettingReports(target, p, a, b, s, e, CheckersOf(f, target), now))
      case GettingReports(target, p, a, b, s, e, checkers, c) =>
        (f, if AllReported(f, p, checkers) then SavingVerdict(target, p, a, b, s, e, checkers, c, now) else Idle)
      case SavingVerdict(_, p, _, _, _, _, _, _, _) => (SavedVerdict(f, p), Idle)
      case SavingFail(p, reason) => (SavedFail(f, p, reason), Idle)
      case ComparingHash(target, p, hash, a, b, c) =>
        (f, if Reported(f, target).Some? && Reported(f, target).value != hash then Denying(target)
            else Allowing(target, p, Reported(f, target), a, b, c))
      case Denying(_) => (f, Idle)
      case Allowing(_, _, _, _, _, _) => (f, Idle)
  }

  /** The repository now, what it was at each moment before, and the clients. */
  datatype World = World(past: seq<State>, now: State, clients: map<nat, Pc>)

  /** Besides the service, checkers are registered and report, and statuses are set, by others. */
  datatype Event =
    | Turn(client: nat, choice: Choice)
    | Other(op: Op)

  predicate ByOthers(op: Op) {
    op.Report? || op.Register? || op.SetStatus? || op.Announce?
  }

  function PcOf(w: World, c: nat): Pc {
    if c in w.clients then w.clients[c] else Idle
  }

  ghost function Step(w: World, e: Event, h: HashFunction): World {
    match e
    case Turn(c, ch) =>
      var (f, pc) := Act(w.now, |w.past|, PcOf(w, c), ch, h);
      World(w.past + [w.now], f, w.clients[c := pc])
    case Other(op) => World(w.past + [w.now], if ByOthers(op) then Do(w.now, op, h) else w.now, w.clients)
  }

  const START := World([], EMPTY, map[])

  ghost function Run(es: seq<Event>, h: HashFunction): World {
    if es == [] then START else Step(Run(es[..|es| - 1], h), es[|es| - 1], h)
  }

  // What stays.

  predicate Later(a: Proposal, b: Proposal) {
    b.target == a.target && b.hash == a.hash && b.content == a.content && (b.active ==> a.active)
  }

  /** Proposals stay, with their target, content and hash, and are not made active again; verdicts and failures stay. */
  ghost predicate Grows(f: State, g: State) {
    && (forall p :: p in f.proposals ==> p in g.proposals && Later(f.proposals[p], g.proposals[p]))
    && (forall p :: p in f.verdicts ==> p in g.verdicts && g.verdicts[p] == f.verdicts[p])
    && (forall p :: p in f.failures ==> p in g.failures)
  }

  /** Each moment grows into all later ones. */
  ghost predicate Chain(past: seq<State>, now: State) {
    && (forall i, k :: 0 <= i <= k < |past| ==> Grows(past[i], past[k]))
    && (forall i :: 0 <= i < |past| ==> Grows(past[i], now))
  }

  /** The moments of a client's reads and what was read. */
  ghost predicate ReadActive(past: seq<State>, target: string, p: string, a: nat) {
    a < |past| && IsActive(past[a].proposals, target, p)
  }

  ghost predicate ReadUnfailed(past: seq<State>, target: string, p: string, a: nat, b: nat) {
    ReadActive(past, target, p, a) && a <= b < |past| && p !in past[b].failures
  }

  ghost predicate ReadStatus(past: seq<State>, target: string, p: string, a: nat, b: nat, s: nat) {
    && ReadUnfailed(past, target, p, a, b) && b <= s < |past|
    && !(target in past[s].status && past[s].status[target].TerminalFail?)
  }

  ghost predicate ReadHash(past: seq<State>, target: string, p: string, a: nat, b: nat, s: nat, e: nat) {
    ReadStatus(past, target, p, a, b, s) && s <= e < |past| && !Drifted(past[e], target, p)
  }

  ghost predicate ReadCheckers(past: seq<State>, target: string, p: string, a: nat, b: nat, s: nat, e: nat,
                               checkers: seq<string>, c: nat)
  {
    ReadHash(past, target, p, a, b, s, e) && e <= c < |past| && checkers == CheckersOf(past[c], target)
  }

  /** A verdict was earned: the proposal was active at `a`, had not failed at `b`, its target was not failed for good at
      `s`, no other hash was reported at `e`, it had checkers at `c`, and all of these had reported PASS at `d`. */
  ghost predicate Earned(past: seq<State>, target: string, p: string, a: nat, b: nat, s: nat, e: nat, c: nat, d: nat) {
    && ReadHash(past, target, p, a, b, s, e) && e <= c <= d < |past|
    && AllReported(past[d], p, CheckersOf(past[c], target))
  }

  datatype Moments = Moments(a: nat, b: nat, s: nat, e: nat, c: nat, d: nat)

  ghost predicate EarnedAt(past: seq<State>, target: string, p: string, t: Moments) {
    Earned(past, target, p, t.a, t.b, t.s, t.e, t.c, t.d)
  }

  /** A check allowed: the proposal was active at `a`, had not failed at `b`, and was sealed at `c`, with the hash that
      the caller brought. */
  ghost predicate Cleared(past: seq<State>, target: string, p: string, current: Option<string>, a: nat, b: nat, c: nat)
  {
    && ReadUnfailed(past, target, p, a, b) && b <= c < |past| && p in past[c].verdicts
    && (current.Some? ==> past[c].verdicts[p].hash == current.value)
  }

  ghost predicate GoodPc(past: seq<State>, pc: Pc) {
    match pc
    case AskingFailed(call, p, a) => ReadActive(past, call.target, p, a)
    case GettingVerdict(call, p, a, b) => ReadUnfailed(past, call.target, p, a, b)
    case GettingStatus(target, p, a, b) => ReadUnfailed(past, target, p, a, b)
    case GettingHash(target, p, a, b, s) => ReadStatus(past, target, p, a, b, s)
    case GettingCheckers(target, p, a, b, s, e) => ReadHash(past, target, p, a, b, s, e)
    case GettingReports(target, p, a, b, s, e, checkers, c) => ReadCheckers(past, target, p, a, b, s, e, checkers, c)
    case SavingVerdict(target, p, a, b, s, e, checkers, c, d) =>
      ReadCheckers(past, target, p, a, b, s, e, checkers, c) && Earned(past, target, p, a, b, s, e, c, d)
    case SavingFail(p, _) => exists a :: 0 <= a < |past| && p in past[a].proposals
    case ComparingHash(target, p, hash, a, b, c) => Cleared(past, target, p, Some(hash), a, b, c)
    case Allowing(target, p, current, a, b, c) => Cleared(past, target, p, current, a, b, c)
    case _ => true
  }

  ghost predicate VerdictEarned(past: seq<State>, p: string) {
    exists target, t :: EarnedAt(past, target, p, t)
  }

  ghost predicate VerdictsEarned(past: seq<State>, f: State) {
    forall p :: p in f.verdicts && !f.verdicts[p].legacy ==> VerdictEarned(past, p)
  }

  ghost predicate WorldInv(w: World, h: HashFunction) {
    && Inv(w.now, h)
    && Chain(w.past, w.now)
    && VerdictsEarned(w.past, w.now)
    && (forall c :: c in w.clients ==> GoodPc(w.past, w.clients[c]))
  }

  // Each step keeps it.

  lemma GoodPcGrows(past: seq<State>, f: State, pc: Pc)
    requires GoodPc(past, pc)
    ensures GoodPc(past + [f], pc)
  {
    assert forall i :: 0 <= i < |past| ==> (past + [f])[i] == past[i];
    if pc.SavingFail? {
      var a :| 0 <= a < |past| && pc.p in past[a].proposals;
      assert (past + [f])[a] == past[a];
    }
  }

  lemma EarnedGrows(past: seq<State>, f: State, p: string)
    requires VerdictEarned(past, p)
    ensures VerdictEarned(past + [f], p)
  {
    hide EarnedAt;
    var target, t :| EarnedAt(past, target, p, t);
    OneEarnedGrows(past, f, target, p, t);
  }

  lemma OneEarnedGrows(past: seq<State>, f: State, target: string, p: string, t: Moments)
    requires EarnedAt(past, target, p, t)
    ensures EarnedAt(past + [f], target, p, t)
  {
    hide AllReported, CheckersOf, Drifted, IsActive;
    var all := past + [f];
    assert all[t.a] == past[t.a] && all[t.b] == past[t.b] && all[t.s] == past[t.s] && all[t.e] == past[t.e];
    assert all[t.c] == past[t.c] && all[t.d] == past[t.d];
  }

  /** A read leads to a position that what was read backs. */
  lemma ReadIsGood(past: seq<State>, f: State, pc: Pc, ch: Choice, h: HashFunction)
    requires GoodPc(past, pc)
    ensures GoodPc(past + [f], Act(f, |past|, pc, ch, h).1)
  {
    hide SavedFrozen, SavedVerdict, SavedFail, AllReported, CheckersOf, Earned, IsActive;
    var all := past + [f];
    assert all[|past|] == f;
    GoodPcGrows(past, f, pc);
    if pc.GettingReports? && !ch.fails && AllReported(f, pc.p, pc.checkers) {
      ReportsAreGood(past, f, pc);
    } else if pc.GettingVerdict? {
      hide GoodPc;
      VerdictIsGood(past, f, pc);
    } else if pc.GettingActive? {
      hide GoodPc;
      ActiveIsGood(past, f, pc.call);
      IdleIsGood(all);
    }
  }

  lemma ActiveIsGood(past: seq<State>, f: State, call: Call)
    ensures GoodPc(past + [f], AfterActive(call, ActiveOf(f, call.target), |past|))
  {
    var all := past + [f];
    assert all[|past|] == f;
  }

  lemma ReportsAreGood(past: seq<State>, f: State, pc: Pc)
    requires pc.GettingReports? && GoodPc(past + [f], pc) && AllReported(f, pc.p, pc.checkers)
    ensures GoodPc(past + [f], SavingVerdict(pc.target, pc.p, pc.a, pc.b, pc.s, pc.e, pc.checkers, pc.c, |past|))
  {
    assert (past + [f])[|past|] == f;
  }

  lemma VerdictIsGood(past: seq<State>, f: State, pc: Pc)
    requires pc.GettingVerdict? && GoodPc(past + [f], pc)
    ensures GoodPc(past + [f], AfterVerdict(f, pc.call, pc.p, pc.a, pc.b, |past|))
    ensures GoodPc(past + [f], Idle)
  {
    assert (past + [f])[|past|] == f;
  }

  lemma SupersededKeeps(f: State, target: string, content: string, id: string, supersede: set<string>, h: HashFunction)
    requires Inv(f, h) && !SaveFails(f, target, id, supersede)
    ensures var p := Proposal(target, h(content), content, true);
      var g := f.(proposals := SupersedeIds(f.proposals, supersede)[id := p]);
      Inv(g, h) && Grows(f, g)
  {
    var proposals := SupersedeIds(f.proposals, supersede)[id := Proposal(target, h(content), content, true)];
    forall t, x, y | IsActive(proposals, t, x) && IsActive(proposals, t, y) ensures x == y {
      assert x != id ==> IsActive(f.proposals, t, x) && x !in supersede;
      assert y != id ==> IsActive(f.proposals, t, y) && y !in supersede;
    }
  }

  lemma LegacyKeeps(f: State, id: string, h: HashFunction)
    requires Inv(f, h) && id in f.proposals && id !in f.verdicts
    ensures var g := f.(verdicts := f.verdicts[id := Verdict(f.proposals[id].hash, true)]); Inv(g, h) && Grows(f, g)
  {
  }

  lemma FrozenKeeps(f: State, pc: Pc, h: HashFunction)
    requires Inv(f, h) && pc.SavingFrozen?
    ensures Inv(SavedFrozen(f, pc, h), h) && Grows(f, SavedFrozen(f, pc, h))
    ensures forall p :: p in SavedFrozen(f, pc, h).verdicts && !SavedFrozen(f, pc, h).verdicts[p].legacy ==>
              p in f.verdicts && f.verdicts[p] == SavedFrozen(f, pc, h).verdicts[p]
  {
    GrowsItself(f);
    if !SaveFails(f, pc.target, pc.id, pc.supersede) {
      SupersededKeeps(f, pc.target, pc.content, pc.id, pc.supersede, h);
      var p := Proposal(pc.target, h(pc.content), pc.content, true);
      var g := f.(proposals := SupersedeIds(f.proposals, pc.supersede)[pc.id := p]);
      VerdictsHaveProposals(f, pc.id, h);
      assert g.proposals[pc.id] == p;
      hide Inv, Grows, SaveFails, SupersedeIds;
      if pc.legacy {
        LegacyKeeps(g, pc.id, h);
        GrowsOn(f, g, SavedFrozen(f, pc, h));
      }
    }
  }

  lemma VerdictsHaveProposals(f: State, id: string, h: HashFunction)
    requires Inv(f, h)
    ensures id !in f.proposals ==> id !in f.verdicts
  {
  }

  lemma ActKeeps(past: seq<State>, f: State, pc: Pc, ch: Choice, h: HashFunction)
    requires Inv(f, h) && Chain(past, f) && VerdictsEarned(past, f) && GoodPc(past, pc)
    ensures var g := Act(f, |past|, pc, ch, h).0;
      Inv(g, h) && Grows(f, g) && VerdictsEarned(past + [f], g)
  {
    hide Inv, Chain, Earned, SavedFrozen, VerdictEarned;
    GrowsItself(f);
    forall p | VerdictEarned(past, p) ensures VerdictEarned(past + [f], p) {
      EarnedGrows(past, f, p);
    }
    if pc.SavingFrozen? {
      FrozenKeeps(f, pc, h);
    } else if pc.SavingVerdict? {
      VerdictKeeps(past, f, pc, h);
    } else if pc.SavingFail? {
      FailKeeps(past, f, pc, h);
    }
  }

  lemma VerdictKeeps(past: seq<State>, f: State, pc: Pc, h: HashFunction)
    requires Inv(f, h) && pc.SavingVerdict? && GoodPc(past, pc)
    ensures Inv(SavedVerdict(f, pc.p), h) && Grows(f, SavedVerdict(f, pc.p))
    ensures VerdictEarned(past + [f], pc.p)
  {
    SealKeeps(f, pc.p, h);
    hide Inv, Grows, SavedVerdict;
    assert EarnedAt(past, pc.target, pc.p, Moments(pc.a, pc.b, pc.s, pc.e, pc.c, pc.d));
    hide Earned, EarnedAt;
    assert VerdictEarned(past, pc.p);
    EarnedGrows(past, f, pc.p);
  }

  lemma SealKeeps(f: State, p: string, h: HashFunction)
    requires Inv(f, h)
    ensures Inv(SavedVerdict(f, p), h) && Grows(f, SavedVerdict(f, p))
  {
    SealGrows(f, p);
    hide Grows;
  }

  lemma SealGrows(f: State, p: string)
    ensures Grows(f, SavedVerdict(f, p))
  {
  }

  lemma FailKeeps(past: seq<State>, f: State, pc: Pc, h: HashFunction)
    requires Inv(f, h) && Chain(past, f) && pc.SavingFail? && GoodPc(past, pc)
    ensures Inv(SavedFail(f, pc.p, pc.reason), h) && Grows(f, SavedFail(f, pc.p, pc.reason))
  {
    var a :| 0 <= a < |past| && pc.p in past[a].proposals;
    assert Grows(past[a], f);
    assert pc.p in f.proposals;
    FailingKeeps(f, pc.p, pc.reason, h);
  }

  lemma FailingKeeps(f: State, p: string, reason: Option<string>, h: HashFunction)
    requires Inv(f, h) && p in f.proposals
    ensures Inv(SavedFail(f, p, reason), h) && Grows(f, SavedFail(f, p, reason))
  {
  }

  lemma GrowsItself(f: State)
    ensures Grows(f, f)
  {
  }

  lemma GrowsOn(f: State, g: State, k: State)
    requires Grows(f, g) && Grows(g, k)
    ensures Grows(f, k)
  {
  }

  lemma ChainGrows(past: seq<State>, f: State, g: State)
    requires Chain(past, f) && Grows(f, g)
    ensures Chain(past + [f], g)
  {
    hide Grows;
    GrowsItself(f);
    forall i | 0 <= i < |past| ensures Grows(past[i], g) {
      GrowsOn(past[i], f, g);
    }
  }

  lemma OthersKeep(past: seq<State>, f: State, op: Op, h: HashFunction)
    requires Inv(f, h) && VerdictsEarned(past, f) && ByOthers(op)
    ensures Inv(Do(f, op, h), h) && Grows(f, Do(f, op, h)) && VerdictsEarned(past + [f], Do(f, op, h))
  {
    DoKeepsInv(f, op, h);
    hide EarnedAt, VerdictEarned;
    forall p | VerdictEarned(past, p) ensures VerdictEarned(past + [f], p) {
      EarnedGrows(past, f, p);
    }
  }

  lemma NothingKeeps(past: seq<State>, f: State)
    requires VerdictsEarned(past, f)
    ensures VerdictsEarned(past + [f], f)
  {
    hide EarnedAt, VerdictEarned;
    forall p | VerdictEarned(past, p) ensures VerdictEarned(past + [f], p) {
      EarnedGrows(past, f, p);
    }
  }

  lemma StepKeepsInv(w: World, e: Event, h: HashFunction)
    requires WorldInv(w, h)
    ensures WorldInv(Step(w, e, h), h) && Grows(w.now, Step(w, e, h).now)
  {
    hide Inv, Chain, VerdictsEarned, GoodPc, Act, Grows, Do;
    GrowsItself(w.now);
    forall c | c in w.clients ensures GoodPc(w.past + [w.now], w.clients[c]) {
      GoodPcGrows(w.past, w.now, w.clients[c]);
    }
    match e
    case Turn(c, ch) =>
      IdleIsGood(w.past);
      ActKeeps(w.past, w.now, PcOf(w, c), ch, h);
      ReadIsGood(w.past, w.now, PcOf(w, c), ch, h);
      ChainGrows(w.past, w.now, Step(w, e, h).now);
    case Other(op) =>
      if ByOthers(op) {
        OthersKeep(w.past, w.now, op, h);
      } else {
        NothingKeeps(w.past, w.now);
      }
      ChainGrows(w.past, w.now, Step(w, e, h).now);
  }

  /** A read by someone else. */
  function Tick(w: World): World {
    World(w.past + [w.now], w.now, w.clients)
  }

  lemma TickKeepsInv(w: World, h: HashFunction)
    requires WorldInv(w, h)
    ensures WorldInv(Tick(w), h)
  {
    hide Inv, Chain, VerdictsEarned, GoodPc, Grows;
    GrowsItself(w.now);
    forall c | c in w.clients ensures GoodPc(w.past + [w.now], w.clients[c]) {
      GoodPcGrows(w.past, w.now, w.clients[c]);
    }
    NothingKeeps(w.past, w.now);
    ChainGrows(w.past, w.now, w.now);
  }

  lemma IdleIsGood(past: seq<State>)
    ensures GoodPc(past, Idle)
  {
  }

  lemma StartIsGood(h: HashFunction)
    ensures WorldInv(START, h)
  {
  }

  /** In every interleaving, split at the repository calls and failing anywhere: each target has at most one active
      proposal, every verdict carries the hash of its proposal's content, and nothing is ever taken back. */
  lemma {:induction false} RunKeepsInv(es: seq<Event>, h: HashFunction)
    ensures WorldInv(Run(es, h), h)
  {
    hide WorldInv, Step;
    StartIsGood(h);
    if es != [] {
      RunKeepsInv(es[..|es| - 1], h);
      StepKeepsInv(Run(es[..|es| - 1], h), es[|es| - 1], h);
    }
  }

  // Main results.

  /** In every interleaving a verdict that is not a legacy one was earned: its proposal was active, later not failed,
      later its target was not failed for good, later no other hash was reported than that of its content, later it had
      checkers, and later all of these had reported PASS. */
  lemma VerdictWasEarned(es: seq<Event>, h: HashFunction, p: string)
    requires p in Run(es, h).now.verdicts && !Run(es, h).now.verdicts[p].legacy
    ensures WasEarned(Run(es, h), h, p)
  {
    RunKeepsInv(es, h);
    hide Run, WorldInv, EarnedAt, HashFits;
    var w := Run(es, h);
    FromInv(w, h, p);
    var target, t :| EarnedAt(w.past, target, p, t);
    EarnedHashFits(w, h, target, p, t);
  }

  ghost predicate WasEarned(w: World, h: HashFunction, p: string) {
    exists target, t :: EarnedAt(w.past, target, p, t) && HashFits(w, h, target, p, t.e)
  }

  ghost predicate HashFits(w: World, h: HashFunction, target: string, p: string, e: nat) {
    && e < |w.past| && p in w.now.proposals
    && (Reported(w.past[e], target).Some? ==> Reported(w.past[e], target).value == h(w.now.proposals[p].content))
  }

  lemma FromInv(w: World, h: HashFunction, p: string)
    requires WorldInv(w, h) && p in w.now.verdicts && !w.now.verdicts[p].legacy
    ensures VerdictEarned(w.past, p)
  {
  }

  lemma EarnedHashFits(w: World, h: HashFunction, target: string, p: string, t: Moments)
    requires WorldInv(w, h) && EarnedAt(w.past, target, p, t)
    ensures HashFits(w, h, target, p, t.e)
  {
    assert Grows(w.past[t.a], w.past[t.e]) && Grows(w.past[t.e], w.now);
  }

  /** A check that allows has found a proposal active, later not failed, and later sealed with the hash it was given.
      The gate was open at the moment of the first read if and only if the proposal was sealed by then. */
  lemma AllowedMeans(es: seq<Event>, h: HashFunction, c: nat)
    requires PcOf(Run(es, h), c).Allowing? && PcOf(Run(es, h), c).current.Some?
    ensures var w := Run(es, h);
      var pc := w.clients[c];
      && Cleared(w.past, pc.target, pc.p, pc.current, pc.a, pc.b, pc.c)
      && (OpenBy(w.past[pc.a], pc.target, pc.current.value, pc.p) <==> pc.p in w.past[pc.a].verdicts)
      && pc.p in w.now.proposals && h(w.now.proposals[pc.p].content) == pc.current.value
  {
    RunKeepsInv(es, h);
    var w := Run(es, h);
    var pc := w.clients[c];
    assert GoodPc(w.past, pc);
    hide Run;
    assert Grows(w.past[pc.a], w.past[pc.b]) && Grows(w.past[pc.a], w.past[pc.c]) && Grows(w.past[pc.c], w.now);
  }

  /** At some moment so far `p` was a live seal of `target` for `hash`. */
  ghost predicate WasOpenBy(w: World, target: string, hash: string, p: string) {
    || OpenBy(w.now, target, hash, p)
    || exists i :: 0 <= i < |w.past| && OpenBy(w.past[i], target, hash, p)
  }

  lemma {:induction false} FirstSealed(past: seq<State>, p: string, c: nat) returns (s: nat)
    requires c < |past| && p in past[c].verdicts
    ensures s <= c && p in past[s].verdicts && forall i :: 0 <= i < s ==> p !in past[i].verdicts
  {
    if k :| 0 <= k < c && p in past[k].verdicts {
      s := FirstSealed(past, p, k);
    } else {
      s := c;
    }
  }

  /** What an allowing check does not say, and exactly when it is so: the proposal it found was at some moment open for
      the hash if and only if it was still active and had not failed at the first moment at which it was sealed. */
  lemma AllowedWasOpenIff(es: seq<Event>, h: HashFunction, c: nat) returns (s: nat)
    requires PcOf(Run(es, h), c).Allowing? && PcOf(Run(es, h), c).current.Some?
    ensures var w := Run(es, h);
      var pc := w.clients[c];
      && s <= pc.c < |w.past| && pc.p in w.past[s].verdicts && (forall i :: 0 <= i < s ==> pc.p !in w.past[i].verdicts)
      && (WasOpenBy(w, pc.target, pc.current.value, pc.p)
          <==> IsActive(w.past[s].proposals, pc.target, pc.p) && pc.p !in w.past[s].failures)
  {
    RunKeepsInv(es, h);
    var w := Run(es, h);
    var pc := w.clients[c];
    assert GoodPc(w.past, pc);
    s := FirstSealed(w.past, pc.p, pc.c);
    PastInv(es, h, s);
    VerdictsHaveProposals(w.past[s], pc.p, h);
    hide Run, WasOpenBy, Grows, Inv;
    OpenSinceSealed(w, pc, s);
  }

  lemma OpenSinceSealed(w: World, pc: Pc, s: nat)
    requires Chain(w.past, w.now) && pc.Allowing? && pc.current.Some?
    requires Cleared(w.past, pc.target, pc.p, pc.current, pc.a, pc.b, pc.c)
    requires s <= pc.c && pc.p in w.past[s].verdicts && forall i :: 0 <= i < s ==> pc.p !in w.past[i].verdicts
    requires pc.p in w.past[s].proposals
    ensures WasOpenBy(w, pc.target, pc.current.value, pc.p)
       <==> IsActive(w.past[s].proposals, pc.target, pc.p) && pc.p !in w.past[s].failures
  {
    var hash := pc.current.value;
    assert Grows(w.past[s], w.past[pc.c]);
    assert IsActive(w.past[s].proposals, pc.target, pc.p) && pc.p !in w.past[s].failures ==>
        OpenBy(w.past[s], pc.target, hash, pc.p);
    forall i | 0 <= i < |w.past| && OpenBy(w.past[i], pc.target, hash, pc.p)
      ensures IsActive(w.past[s].proposals, pc.target, pc.p) && pc.p !in w.past[s].failures
    {
      assert s <= i;
      assert Grows(w.past[s], w.past[i]);
    }
    assert Grows(w.past[s], w.now);
  }

  /** After a fail has been stored, no check that starts afterwards allows, as long as no new proposal is stored for the
      target: whatever else is in flight. */
  lemma FailIsFinal(es: seq<Event>, h: HashFunction, c: nat, m: nat, p: string)
    requires PcOf(Run(es, h), c).Allowing?
    requires var w := Run(es, h);
      var pc := w.clients[c];
      && m <= pc.a && m < |w.past|
      && IsActive(w.past[m].proposals, pc.target, p) && p in w.past[m].failures
    ensures var w := Run(es, h);
      var pc := w.clients[c];
      pc.p != p && pc.p !in w.past[m].proposals && pc.a < |w.past| && IsActive(w.past[pc.a].proposals, pc.target, pc.p)
  {
    RunKeepsInv(es, h);
    var w := Run(es, h);
    var pc := w.clients[c];
    assert GoodPc(w.past, pc);
    PastInv(es, h, m);
    hide Run;
    assert Grows(w.past[m], w.past[pc.a]) && Grows(w.past[m], w.past[pc.b]);
    hide Inv, Grows, WorldInv;
    StaysFailed(w.past[m], w.past[pc.a], w.past[pc.b], pc.target, p, pc.p, h);
  }

  lemma StaysFailed(f: State, g: State, k: State, target: string, p: string, q: string, h: HashFunction)
    requires Inv(f, h) && IsActive(f.proposals, target, p) && p in f.failures
    requires Grows(f, g) && Grows(f, k) && IsActive(g.proposals, target, q) && q !in k.failures
    ensures q != p && q !in f.proposals
  {
    assert q in f.proposals ==> Later(f.proposals[q], g.proposals[q]);
    assert q in f.proposals ==> IsActive(f.proposals, target, q);
  }

  lemma {:induction false} PastInv(es: seq<Event>, h: HashFunction, m: nat)
    requires m < |Run(es, h).past|
    ensures Inv(Run(es, h).past[m], h)
  {
    hide Inv, Act, Do;
    if es != [] {
      var before := Run(es[..|es| - 1], h);
      if m < |before.past| {
        PastInv(es[..|es| - 1], h, m);
      } else {
        RunKeepsInv(es[..|es| - 1], h);
      }
    }
  }

  // A call that nothing interrupts.

  predicate Resting(pc: Pc) {
    pc.Idle? || pc.Denying? || pc.Allowing?
  }

  /** Up to `k` repository calls of a client, with nothing in between and without failures. */
  ghost function Alone(f: State, now: nat, pc: Pc, call: Call, k: nat, h: HashFunction): (State, Pc)
    decreases k
  {
    if k == 0 || Resting(pc) then (f, pc)
    else
      var (g, next) := Act(f, now, pc, Choice(call, false), h);
      Alone(g, now + 1, next, call, k - 1, h)
  }

  /** What the call does when it is one step. */
  ghost function Whole(f: State, call: Call, h: HashFunction): State {
    match call
    case CallFreeze(target, content, id) => Frozen(f, target, content, id, h)
    case CallSeal(target) => Sealed(f, target)
    case CallMarkFail(target, reason) => FailMarked(f, target, reason)
    case CallSnapshot(target, content, id) => Snapshotted(f, target, content, id, h)
    case CallCheck(_, _) => f
  }

  lemma AtRest(f: State, now: nat, pc: Pc, call: Call, k: nat, h: HashFunction)
    requires Resting(pc)
    ensures Alone(f, now, pc, call, k, h) == (f, pc)
  {
  }

  /** One repository call that leads to `g` and `next`. */
  lemma OneCall(f: State, now: nat, pc: Pc, call: Call, k: nat, h: HashFunction, g: State, next: Pc)
    requires !Resting(pc) && k > 0 && Act(f, now, pc, Choice(call, false), h) == (g, next)
    ensures Alone(f, now, pc, call, k, h) == Alone(g, now + 1, next, call, k - 1, h)
    ensures Resting(next) ==> Alone(f, now, pc, call, k, h) == (g, next)
  {
  }

  /** The split calls refine the whole ones: a call that nothing interrupts comes to rest after at most eight
      repository calls, has done to the repository what the whole call does, and a check allows exactly when the
      gate decides so. */
  lemma AloneIsWhole(f: State, now: nat, call: Call, h: HashFunction)
    requires Inv(f, h)
    ensures var (g, pc) := Alone(f, now, StartCall(call), call, 8, h);
      && Resting(pc) && g == Whole(f, call, h)
      && (call.CallCheck? ==> (pc.Allowing? <==> GateDecision(f, call.target, call.current).Allowed?))
      && (call.CallCheck? && pc.Allowing? ==> GateDecision(f, call.target, call.current) == Decision.Allowed(pc.p))
  {
    hide Alone, Act, Inv, GateDecision, Frozen, Sealed, Snapshotted, FailMarked;
    match call
    case CallFreeze(_, _, _) => FreezeAlone(f, now, call, false, 8, h);
    case CallSnapshot(_, _, _) => SnapshotAlone(f, now, call, h);
    case CallMarkFail(_, _) => MarkFailAlone(f, now, call, h);
    case CallSeal(_) => SealAlone(f, now, call, h);
    case CallCheck(_, _) => CheckAlone(f, now, call, h);
  }

  lemma FreezeAlone(f: State, now: nat, call: Call, legacy: bool, k: nat, h: HashFunction)
    requires Inv(f, h) && (call.CallFreeze? || call.CallSnapshot?) && k >= 2
    requires legacy ==> ActiveOf(f, call.target).None?
    ensures var (g, pc) := Alone(f, now, GettingAll(call.target, call.content, call.id, legacy), call, k, h);
      && pc.Idle?
      && g == if legacy then Snapshotted(f, call.target, call.content, call.id, h)
              else Frozen(f, call.target, call.content, call.id, h)
  {
    hide Alone;
    var ids := set q | q in f.proposals && IsActive(f.proposals, call.target, q);
    var saving := SavingFrozen(call.target, call.content, call.id, legacy, ids);
    SaveIsWhole(f, saving, h);
    hide SavedFrozen, Inv;
    OneCall(f, now, GettingAll(call.target, call.content, call.id, legacy), call, k, h, f, saving);
    OneCall(f, now + 1, saving, call, k - 1, h, SavedFrozen(f, saving, h), Idle);
  }

  lemma SaveIsWhole(f: State, pc: Pc, h: HashFunction)
    requires Inv(f, h) && pc.SavingFrozen? && (pc.legacy ==> ActiveOf(f, pc.target).None?)
    requires pc.supersede == set q | q in f.proposals && IsActive(f.proposals, pc.target, q)
    ensures SavedFrozen(f, pc, h) == if pc.legacy then Snapshotted(f, pc.target, pc.content, pc.id, h)
                                     else Frozen(f, pc.target, pc.content, pc.id, h)
  {
    assert SupersedeIds(f.proposals, pc.supersede) == Supersede(f.proposals, pc.target);
  }

  lemma SnapshotAlone(f: State, now: nat, call: Call, h: HashFunction)
    requires Inv(f, h) && call.CallSnapshot?
    ensures var (g, pc) := Alone(f, now, StartCall(call), call, 8, h); pc.Idle? && g == Whole(f, call, h)
  {
    hide Alone, Inv;
    var a := ActiveOf(f, call.target);
    OneCall(f, now, StartCall(call), call, 8, h, f, AfterActive(call, a, now));
    if a.None? {
      FreezeAlone(f, now + 1, call, true, 7, h);
    } else {
      OneCall(f, now + 1, AskingFailed(call, a.value, now), call, 7, h, f, AfterFailed(f, call, a.value, now, now + 1));
      if a.value !in f.failures {
        OneCall(f, now + 2, GettingVerdict(call, a.value, now, now + 1), call, 6, h, f, Idle);
      }
    }
  }

  lemma MarkFailAlone(f: State, now: nat, call: Call, h: HashFunction)
    requires call.CallMarkFail?
    ensures var (g, pc) := Alone(f, now, StartCall(call), call, 8, h); pc.Idle? && g == Whole(f, call, h)
  {
    hide Alone;
    var a := ActiveOf(f, call.target);
    OneCall(f, now, StartCall(call), call, 8, h, f, AfterActive(call, a, now));
    if a.Some? {
      OneCall(f, now + 1, SavingFail(a.value, call.reason), call, 7, h, SavedFail(f, a.value, call.reason), Idle);
    }
  }

  lemma CheckAlone(f: State, now: nat, call: Call, h: HashFunction)
    requires Inv(f, h) && call.CallCheck?
    ensures var (g, pc) := Alone(f, now, StartCall(call), call, 8, h);
      && Resting(pc) && g == f
      && (pc.Allowing? <==> GateDecision(f, call.target, call.current).Allowed?)
      && (pc.Allowing? ==> GateDecision(f, call.target, call.current) == Decision.Allowed(pc.p))
  {
    hide Alone, Inv;
    var a := ActiveOf(f, call.target);
    OneCall(f, now, StartCall(call), call, 8, h, f, AfterActive(call, a, now));
    if a.Some? {
      var p := a.value;
      OneCall(f, now + 1, AskingFailed(call, p, now), call, 7, h, f, AfterFailed(f, call, p, now, now + 1));
      if p !in f.failures {
        var next := AfterVerdict(f, call, p, now, now + 1, now + 2);
        OneCall(f, now + 2, GettingVerdict(call, p, now, now + 1), call, 6, h, f, next);
        if next.ComparingHash? {
          OneCall(f, now + 3, next, call, 5, h, f, Act(f, now + 3, next, Choice(call, false), h).1);
        }
      }
    }
  }

  lemma SealAlone(f: State, now: nat, call: Call, h: HashFunction)
    requires Inv(f, h) && call.CallSeal?
    ensures var (g, pc) := Alone(f, now, StartCall(call), call, 8, h); pc.Idle? && g == Whole(f, call, h)
  {
    hide Alone, Inv, AllPassed, AllReported, CheckersOf;
    var a := ActiveOf(f, call.target);
    OneCall(f, now, StartCall(call), call, 8, h, f, AfterActive(call, a, now));
    if a.Some? {
      var p := a.value;
      OneCall(f, now + 1, AskingFailed(call, p, now), call, 7, h, f, AfterFailed(f, call, p, now, now + 1));
      if p !in f.failures {
        var next := AfterVerdict(f, call, p, now, now + 1, now + 2);
        OneCall(f, now + 2, GettingVerdict(call, p, now, now + 1), call, 6, h, f, next);
        if p !in f.verdicts {
          SealRest(f, now, call, p, h);
        }
      }
    }
  }

  /** From the target's status on. */
  lemma SealRest(f: State, now: nat, call: Call, p: string, h: HashFunction)
    requires Inv(f, h) && call.CallSeal? && ActiveOf(f, call.target) == Some(p) && p !in f.failures && p !in f.verdicts
    ensures var (g, pc) := Alone(f, now + 3, GettingStatus(call.target, p, now, now + 1), call, 5, h);
      pc.Idle? && g == Sealed(f, call.target)
  {
    hide Alone, Inv, AllPassed, AllReported, CheckersOf;
    var t := call.target;
    var failed := t in f.status && f.status[t] == TerminalFail;
    var asking := GettingHash(t, p, now, now + 1, now + 3);
    OneCall(f, now + 3, GettingStatus(t, p, now, now + 1), call, 5, h, f, if failed then Idle else asking);
    if !failed {
      var listing := GettingCheckers(t, p, now, now + 1, now + 3, now + 4);
      OneCall(f, now + 4, asking, call, 4, h, f, if Drifted(f, t, p) then Idle else listing);
      if !Drifted(f, t, p) {
        var checkers := CheckersOf(f, t);
        var reading := GettingReports(t, p, now, now + 1, now + 3, now + 4, checkers, now + 5);
        OneCall(f, now + 5, listing, call, 3, h, f, reading);
        var saving := SavingVerdict(t, p, now, now + 1, now + 3, now + 4, checkers, now + 5, now + 6);
        OneCall(f, now + 6, reading, call, 2, h, f, if AllReported(f, p, checkers) then saving else Idle);
        ReportedIsPassed(f, t, p);
        if AllReported(f, p, checkers) {
          OneCall(f, now + 7, saving, call, 1, h, SavedVerdict(f, p), Idle);
        }
      }
    }
  }

  lemma ReportedIsPassed(f: State, target: string, p: string)
    ensures AllReported(f, p, CheckersOf(f, target)) <==> AllPassed(f, target, p)
  {
  }

  // The reads of a check are not one step.

  /** At no moment so far was the gate of `target` open for `hash`. */
  ghost predicate NeverOpen(w: World, target: string, hash: string) {
    !GateOpen(w.now, target, hash) && forall i :: 0 <= i < |w.past| ==> !GateOpen(w.past[i], target, hash)
  }

  const REGISTERED := EMPTY.(checkers := map["t" := ["k"]])

  function WithFirst(h: HashFunction): State {
    REGISTERED.(proposals := map["p" := Proposal("t", h("x"), "x", true)])
  }

  function WithReport(h: HashFunction): State {
    WithFirst(h).(reports := map["p" := map["k" := Pass]])
  }

  function WithSecond(h: HashFunction): State {
    WithReport(h).(proposals := map["p" := Proposal("t", h("x"), "x", false), "q" := Proposal("t", h("y"), "y", true)])
  }

  function WithVerdict(h: HashFunction): State {
    WithSecond(h).(verdicts := map["p" := Verdict(h("x"), false)])
  }

  /** One more step of a client, which leads to `f` and `pc`. */
  lemma Advance(es: seq<Event>, c: nat, ch: Choice, f: State, pc: Pc, h: HashFunction) returns (es': seq<Event>)
    requires NeverOpen(Run(es, h), "t", h("x"))
    requires var w := Run(es, h); Act(w.now, |w.past|, PcOf(w, c), ch, h) == (f, pc) && !GateOpen(f, "t", h("x"))
    ensures NeverOpen(Run(es', h), "t", h("x")) && Run(es', h).now == f
    ensures forall d :: PcOf(Run(es', h), d) == if d == c then pc else PcOf(Run(es, h), d)
  {
    hide Act, GateOpen;
    es' := es + [Turn(c, ch)];
    assert es'[..|es'| - 1] == es;
  }

  lemma OthersTurn(es: seq<Event>, op: Op, h: HashFunction) returns (es': seq<Event>)
    requires NeverOpen(Run(es, h), "t", h("x")) && ByOthers(op) && !GateOpen(Do(Run(es, h).now, op, h), "t", h("x"))
    ensures NeverOpen(Run(es', h), "t", h("x")) && Run(es', h).now == Do(Run(es, h).now, op, h)
    ensures forall d :: PcOf(Run(es', h), d) == PcOf(Run(es, h), d)
  {
    hide Act, GateOpen, Do;
    es' := es + [Other(op)];
    assert es'[..|es'| - 1] == es;
  }

  lemma StatesStayShut(h: HashFunction)
    ensures forall f :: f in {EMPTY, REGISTERED, WithFirst(h), WithReport(h), WithSecond(h), WithVerdict(h)} ==>
              !GateOpen(f, "t", h("x"))
  {
  }

  lemma NothingOpen(h: HashFunction)
    ensures NeverOpen(Run([], h), "t", h("x")) && Run([], h) == START
  {
  }

  /** A freeze by a client that is alone. */
  lemma FreezeOnce(es: seq<Event>, content: string, id: string, f: State, g: State, h: HashFunction)
    returns (es': seq<Event>)
    requires NeverOpen(Run(es, h), "t", h("x")) && Run(es, h).now == f && PcOf(Run(es, h), 0) == Idle
    requires !GateOpen(g, "t", h("x"))
    requires var ids := set q | q in f.proposals && IsActive(f.proposals, "t", q);
      SavedFrozen(f, SavingFrozen("t", content, id, false, ids), h) == g
    ensures NeverOpen(Run(es', h), "t", h("x")) && Run(es', h).now == g
    ensures forall d :: PcOf(Run(es', h), d) == if d == 0 then Idle else PcOf(Run(es, h), d)
  {
    hide Run, NeverOpen, GateOpen, SavedFrozen;
    StillShut(Run(es, h), "t", h("x"));
    var ch := Choice(CallFreeze("t", content, id), false);
    var ids := set q | q in f.proposals && IsActive(f.proposals, "t", q);
    es' := Advance(es, 0, ch, f, GettingAll("t", content, id, false), h);
    es' := Advance(es', 0, ch, f, SavingFrozen("t", content, id, false, ids), h);
    es' := Advance(es', 0, ch, g, Idle, h);
  }

  lemma StillShut(w: World, target: string, hash: string)
    requires NeverOpen(w, target, hash)
    ensures !GateOpen(w.now, target, hash)
  {
  }

  lemma Setup(h: HashFunction) returns (es: seq<Event>)
    ensures NeverOpen(Run(es, h), "t", h("x")) && Run(es, h).now == WithReport(h)
    ensures forall d :: PcOf(Run(es, h), d) == Idle
  {
    hide Run, NeverOpen, GateOpen, SavedFrozen;
    NothingOpen(h);
    StatesStayShut(h);
    es := OthersTurn([], Register("t", ["k"]), h);
    FirstSaved(h);
    es := FreezeOnce(es, "x", "p", REGISTERED, WithFirst(h), h);
    es := OthersTurn(es, Report("p", "k", Pass), h);
  }

  lemma FirstSaved(h: HashFunction)
    ensures var ids := set q | q in REGISTERED.proposals && IsActive(REGISTERED.proposals, "t", q);
      SavedFrozen(REGISTERED, SavingFrozen("t", "x", "p", false, ids), h) == WithFirst(h)
  {
  }

  lemma SecondSaved(h: HashFunction)
    ensures var f := WithReport(h);
      var ids := set q | q in f.proposals && IsActive(f.proposals, "t", q);
      SavedFrozen(f, SavingFrozen("t", "y", "q", false, ids), h) == WithSecond(h)
  {
    var f := WithReport(h);
    var ids := set q | q in f.proposals && IsActive(f.proposals, "t", q);
    assert ids == {"p"};
  }

  lemma FirstIsActive(h: HashFunction)
    ensures ActiveOf(WithReport(h), "t") == Some("p")
  {
    ActiveIsUnique(WithReport(h), "t", "p");
  }

  /** The seal of client 1, up to its save. */
  lemma SealReads(es: seq<Event>, h: HashFunction) returns (es': seq<Event>)
    requires NeverOpen(Run(es, h), "t", h("x")) && Run(es, h).now == WithReport(h)
    requires forall d :: PcOf(Run(es, h), d) == Idle
    ensures NeverOpen(Run(es', h), "t", h("x")) && Run(es', h).now == WithReport(h)
    ensures PcOf(Run(es', h), 1).SavingVerdict? && PcOf(Run(es', h), 1).p == "p"
    ensures forall d :: d != 1 ==> PcOf(Run(es', h), d) == Idle
  {
    hide Run, NeverOpen, GateOpen;
    StillShut(Run(es, h), "t", h("x"));
    FirstIsActive(h);
    hide ActiveOf;
    var f, call := WithReport(h), CallSeal("t");
    var ch := Choice(call, false);
    var a := |Run(es, h).past|;
    es' := Advance(es, 1, ch, f, GettingActive(call), h);
    a := |Run(es', h).past|;
    es' := Advance(es', 1, ch, f, AskingFailed(call, "p", a), h);
    var b := |Run(es', h).past|;
    es' := Advance(es', 1, ch, f, GettingVerdict(call, "p", a, b), h);
    es' := Advance(es', 1, ch, f, GettingStatus("t", "p", a, b), h);
    var s := |Run(es', h).past|;
    es' := Advance(es', 1, ch, f, GettingHash("t", "p", a, b, s), h);
    var e := |Run(es', h).past|;
    es' := Advance(es', 1, ch, f, GettingCheckers("t", "p", a, b, s, e), h);
    var c := |Run(es', h).past|;
    es' := Advance(es', 1, ch, f, GettingReports("t", "p", a, b, s, e, ["k"], c), h);
    var d := |Run(es', h).past|;
    es' := Advance(es', 1, ch, f, SavingVerdict("t", "p", a, b, s, e, ["k"], c, d), h);
  }

  /** A check allows, though at no moment was there a live seal of that hash: the check read the proposal as active,
      it was superseded, a seal that had begun earlier was stored, and the check read that. */
  lemma AllowedThoughNeverOpen(h: HashFunction) returns (es: seq<Event>)
    ensures PcOf(Run(es, h), 2).Allowing? && PcOf(Run(es, h), 2).current == Some(h("x"))
    ensures PcOf(Run(es, h), 2).target == "t" && NeverOpen(Run(es, h), "t", h("x"))
  {
    hide Run, NeverOpen, GateOpen, SavedFrozen;
    StatesStayShut(h);
    es := Setup(h);
    es := SealReads(es, h);
    FirstIsActive(h);
    SecondSaved(h);
    hide ActiveOf;
    var f, call := WithReport(h), CallCheck("t", Some(h("x")));
    var ch := Choice(call, false);
    es := Advance(es, 2, ch, f, GettingActive(call), h);
    var a := |Run(es, h).past|;
    es := Advance(es, 2, ch, f, AskingFailed(call, "p", a), h);
    es := FreezeOnce(es, "y", "q", f, WithSecond(h), h);
    assert SavedVerdict(WithSecond(h), "p") == WithVerdict(h);
    es := Advance(es, 1, ch, WithVerdict(h), Idle, h);
    var b := |Run(es, h).past|;
    es := Advance(es, 2, ch, WithVerdict(h), GettingVerdict(call, "p", a, b), h);
    var c := |Run(es, h).past|;
    es := Advance(es, 2, ch, WithVerdict(h), Allowing("t", "p", Some(h("x")), a, b, c), h);
  }
}
