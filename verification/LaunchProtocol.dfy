/** Any number of clients of one launch registry, each service call split at its registry calls. */
module LaunchProtocol {
  import opened Options
  import opened LaunchRegistry

  /** A call to the lifecycle service. The reconcilers come with the list their first registry call returned. */
  datatype Call =
    | Request(key: string, parent: Option<string>)
    | ConfirmSpawning(id: string)
    | ConfirmActive(id: string, handle: string)
    | MarkFailed(id: string)
    | BeginTermination(id: string)
    | ConfirmTerminated(id: string)
    | Quarantine(id: string)
    | Reconcile(ids: seq<string>)

  /** What follows a quarantine: nothing, the rest of a request, or the rest of a reconciliation. */
  datatype After = Return | Request(key: string, parent: Option<string>) | Next(ids: seq<string>)

  /** Where a client stands: what its next registry call is. */
  datatype Pc =
    | Idle
    | Finding(key: string, parent: Option<string>)
    | Validating(key: string, parent: Option<string>)
    | Walking(key: string, above: string, id: string, current: Option<string>, visited: set<string>, depth: nat)
    | Claiming(key: string, parent: Option<string>, id: string)
    | FindingWinner(key: string)
    | Reading(id: string, target: Status, after: After)
    | Setting(id: string, expected: Status, target: Status, handle: Option<string>, clearLease: bool, after: After)

  /** What the environment decides for one step: the call to start, the clock, a new id, which blocking launch
      the lookup returns, and whether the registry call fails (the client then gives up, as it does if it dies). */
  datatype Choice = Choice(call: Call, now: int, id: string, found: Option<string>, fails: bool)

  function Resume(after: After): Pc {
    match after
    case Return => Idle
    case Request(key, parent) => Validating(key, parent)
    case Next(ids) => if ids == [] then Idle else Reading(ids[0], Quarantined, Next(ids[1..]))
  }

  function StartCall(c: Call): Pc {
    match c
    case Request(key, parent) => Finding(key, parent)
    case ConfirmSpawning(id) => Setting(id, Reserved, Spawning, None, false, Return)
    case ConfirmActive(id, handle) => Setting(id, Spawning, Active, Some(handle), true, Return)
    case MarkFailed(id) => Reading(id, Failed, Return)
    case BeginTermination(id) => Reading(id, Terminating, Return)
    case ConfirmTerminated(id) => Setting(id, Terminating, Terminated, None, false, Return)
    case Quarantine(id) => Reading(id, Quarantined, Return)
    case Reconcile(ids) => Resume(Next(ids))
  }

  /** After the lookup of a blocking launch: suppressed, quarantine a stale launch that never became active,
      or go on. */
  function AfterFind(reg: Registry, key: string, parent: Option<string>, found: Option<string>, now: int): Pc {
    if found.None? || found.value !in reg then Validating(key, parent)
    else if reg[found.value].LeaseValid(now) then Idle
    else if reg[found.value].status in {Reserved, Spawning} then
      Reading(found.value, Quarantined, After.Request(key, parent))
    else Validating(key, parent)
  }

  function AfterValidate(reg: Registry, key: string, parent: Option<string>, id: string): Pc {
    if parent.None? then Claiming(key, None, id)
    else if parent.value == id || parent.value !in reg then Idle
    else Walking(key, parent.value, id, reg[parent.value].parent, {id, parent.value}, 1)
  }

  function AfterWalk(reg: Registry, pc: Pc): Pc
    requires pc.Walking?
  {
    if pc.current.None? then Claiming(pc.key, Some(pc.above), pc.id)
    else if pc.depth + 1 >= MAX_LINEAGE_DEPTH then Idle
    else if pc.current.value in pc.visited then Idle
    else if pc.current.value !in reg then Claiming(pc.key, Some(pc.above), pc.id)
    else pc.(current := reg[pc.current.value].parent, visited := pc.visited + {pc.current.value}, depth := pc.depth + 1)
  }

  function AfterRead(reg: Registry, id: string, target: Status, after: After): Pc {
    if id !in reg || Terminal(reg[id].status) || !Edge(reg[id].status, target) then Resume(after)
    else Setting(id, reg[id].status, target, None, false, after)
  }

  /** One registry call of one client. */
  ghost function Act(reg: Registry, pc: Pc, ch: Choice, indexed: set<Status>): (Registry, Pc) {
    if ch.fails then (reg, Idle)
    else
      match pc
      case Idle => (reg, StartCall(ch.call))
      case Finding(key, parent) => (reg, AfterFind(reg, key, parent, ch.found, ch.now))
      case Validating(key, parent) => (reg, AfterValidate(reg, key, parent, ch.id))
      case Walking(_, _, _, _, _, _) => (reg, AfterWalk(reg, pc))
      case Claiming(key, parent, id) =>
        var claimed := Claim(reg, id, key, ch.now + LEASE_MS, parent, indexed);
        if claimed.Some? then (claimed.value, Idle) else (reg, FindingWinner(key))
      case FindingWinner(_) => (reg, Idle)
      case Reading(id, target, after) => (reg, AfterRead(reg, id, target, after))
      case Setting(id, expected, target, handle, clearLease, after) =>
        (Cas(reg, id, expected, target, handle, clearLease), Resume(after))
  }

  datatype World = World(reg: Registry, clients: map<nat, Pc>)

  datatype Event = Event(client: nat, choice: Choice)

  function PcOf(w: World, c: nat): Pc {
    if c in w.clients then w.clients[c] else Idle
  }

  const EMPTY := World(map[], map[])

  ghost function Step(w: World, e: Event, indexed: set<Status>): World {
    var (reg, pc) := Act(w.reg, PcOf(w, e.client), e.choice, indexed);
    World(reg, w.clients[e.client := pc])
  }

  ghost function Run(es: seq<Event>, indexed: set<Status>): World {
    if es == [] then EMPTY else Step(Run(es[..|es| - 1], indexed), es[|es| - 1], indexed)
  }

  /** The lookup returns a blocking launch of the key, or nothing when there is none. */
  ghost predicate Legal(w: World, e: Event) {
    PcOf(w, e.client).Finding? ==>
      var key, found := PcOf(w, e.client).key, e.choice.found;
      if found.Some? then found.value in w.reg && w.reg[found.value].key == key && w.reg[found.value].status in BLOCKING
      else Free(w.reg, key, BLOCKING)
  }

  ghost predicate Possible(es: seq<Event>, indexed: set<Status>) {
    forall i {:trigger Run(es[..i], indexed)} :: 0 <= i < |es| ==> Legal(Run(es[..i], indexed), es[i])
  }

  // Invariants.

  /** A pending compare-and-set is along an edge, and is the one that makes a launch managed when it should be. */
  predicate GoodSetting(pc: Pc) {
    pc.Setting? ==>
      && Edge(pc.expected, pc.target)
      && (pc.target.Active? ==> pc.handle.Some?)
      && (pc.target.Terminated? ==> pc.expected.Terminating?)
      && (pc.clearLease <==> pc.target.Active?)
  }

  predicate GoodReading(pc: Pc) {
    pc.Reading? ==> pc.target in {Failed, Terminating, Quarantined}
  }

  /** A walk has come `depth` links up from the parent; a claim under a parent has validated it. */
  ghost predicate GoodLineage(reg: Registry, pc: Pc) {
    && (pc.Walking? ==> pc.above in reg && pc.depth < MAX_LINEAGE_DEPTH)
    && (pc.Walking? ==> pc.current == AncestorAt(reg, pc.above, pc.depth))
    && (pc.Claiming? && pc.parent.Some? ==> MayParent(reg, pc.parent.value))
  }

  ghost predicate GoodPc(reg: Registry, pc: Pc) {
    GoodSetting(pc) && GoodReading(pc) && GoodLineage(reg, pc)
  }

  ghost predicate Inv(w: World, indexed: set<Status>) {
    && Sound(w.reg, indexed)
    && forall c :: c in w.clients ==> GoodPc(w.reg, w.clients[c])
  }

  /** The changes one registry call may make: a new launch, or one status change along an edge. */
  ghost predicate GoodChange(reg: Registry, reg': Registry) {
    && KeepsParents(reg, reg')
    && (forall id :: id in reg ==> reg'[id].key == reg[id].key)
    && (forall id :: id in reg && reg'[id].status != reg[id].status ==> Edge(reg[id].status, reg'[id].status))
  }

  ghost predicate Sound(reg: Registry, indexed: set<Status>) {
    Exclusive(reg, indexed) && AllManaged(reg) && Forest(reg)
  }

  lemma ActIsGood(reg: Registry, pc: Pc, ch: Choice, indexed: set<Status>)
    requires IN_FLIGHT <= indexed <= BLOCKING
    requires Sound(reg, indexed) && GoodPc(reg, pc)
    ensures var (reg', pc') := Act(reg, pc, ch, indexed);
      Sound(reg', indexed) && GoodPc(reg', pc') && GoodChange(reg, reg')
  {
    hide Exclusive, AllManaged, Forest, MayParent, AncestorAt;
    if !ch.fails {
      if pc.Claiming? {
        ClaimIsGood(reg, pc, ch, indexed);
      } else if pc.Setting? {
        SetIsGood(reg, pc, ch, indexed);
      } else if pc.Walking? {
        WalkIsGood(reg, pc);
      } else if pc.Validating? {
        ValidateIsGood(reg, pc.key, pc.parent, ch.id);
      }
    }
  }

  lemma ClaimIsGood(reg: Registry, pc: Pc, ch: Choice, indexed: set<Status>)
    requires Sound(reg, indexed) && GoodPc(reg, pc) && pc.Claiming?
    ensures var (reg', pc') := Act(reg, pc, ch, indexed);
      Sound(reg', indexed) && GoodPc(reg', pc') && GoodChange(reg, reg')
  {
    hide Forest, MayParent, AncestorAt;
    var claimed := Claim(reg, pc.id, pc.key, ch.now + LEASE_MS, pc.parent, indexed);
    if !ch.fails && claimed.Some? {
      ClaimKeepsExclusive(reg, pc.id, pc.key, ch.now + LEASE_MS, pc.parent, indexed);
      ClaimKeepsForest(reg, claimed.value, pc.id, claimed.value[pc.id]);
    }
  }

  lemma ResumeIsGood(reg: Registry, after: After)
    ensures GoodPc(reg, Resume(after))
  {
  }

  lemma SetIsGood(reg: Registry, pc: Pc, ch: Choice, indexed: set<Status>)
    requires IN_FLIGHT <= indexed <= BLOCKING
    requires Sound(reg, indexed) && GoodPc(reg, pc) && pc.Setting?
    ensures var (reg', pc') := Act(reg, pc, ch, indexed);
      Sound(reg', indexed) && GoodPc(reg', pc') && GoodChange(reg, reg')
  {
    hide Exclusive, Forest, AncestorAt, MayParent, GoodReading;
    var reg' := Cas(reg, pc.id, pc.expected, pc.target, pc.handle, pc.clearLease);
    ResumeIsGood(reg', pc.after);
    IdleIsGood(reg);
    CasKeepsExclusive(reg, pc.id, pc.expected, pc.target, pc.handle, pc.clearLease, indexed);
    SameParentsKeepForest(reg, reg');
  }

  lemma ValidateIsGood(reg: Registry, key: string, parent: Option<string>, id: string)
    ensures GoodLineage(reg, AfterValidate(reg, key, parent, id))
  {
    if parent.Some? && parent.value in reg {
      assert AncestorAt(reg, parent.value, 0) == parent;
    }
  }

  lemma WalkIsGood(reg: Registry, pc: Pc)
    requires pc.Walking? && GoodLineage(reg, pc)
    ensures GoodLineage(reg, AfterWalk(reg, pc))
  {
    assert AncestorAt(reg, pc.above, pc.depth + 1)
      == if pc.current.Some? && pc.current.value in reg then reg[pc.current.value].parent else None;
    if pc.current.None? {
      AncestorsEnd(reg, pc.above, pc.depth, MAX_LINEAGE_DEPTH - 1);
    } else if pc.current.value !in reg && pc.depth + 1 < MAX_LINEAGE_DEPTH {
      AncestorsEnd(reg, pc.above, pc.depth + 1, MAX_LINEAGE_DEPTH - 1);
    }
  }

  /** What other clients know about lineage stays true: parents never change and launches never go away. */
  lemma OthersStayGood(reg: Registry, reg': Registry, pc: Pc)
    requires Forest(reg) && KeepsParents(reg, reg') && GoodPc(reg, pc)
    ensures GoodPc(reg', pc)
  {
    if pc.Walking? {
      AncestorsKept(reg, reg', pc.above, pc.depth);
    } else if pc.Claiming? && pc.parent.Some? {
      AncestorsKept(reg, reg', pc.parent.value, MAX_LINEAGE_DEPTH - 1);
    }
  }

  lemma StepKeepsInv(w: World, e: Event, indexed: set<Status>)
    requires IN_FLIGHT <= indexed <= BLOCKING && Inv(w, indexed)
    ensures Inv(Step(w, e, indexed), indexed) && GoodChange(w.reg, Step(w, e, indexed).reg)
  {
    hide Exclusive, AllManaged, GoodPc, Act;
    IdleIsGood(w.reg);
    ActIsGood(w.reg, PcOf(w, e.client), e.choice, indexed);
    var w' := Step(w, e, indexed);
    forall c | c in w'.clients ensures GoodPc(w'.reg, w'.clients[c]) {
      if c != e.client {
        OthersStayGood(w.reg, w'.reg, w.clients[c]);
      }
    }
  }

  lemma IdleIsGood(reg: Registry)
    ensures GoodPc(reg, Idle)
  {
  }

  lemma EmptyIsSound(indexed: set<Status>)
    ensures Inv(EMPTY, indexed)
  {
  }

  lemma {:induction false} RunKeepsInv(es: seq<Event>, indexed: set<Status>)
    requires IN_FLIGHT <= indexed <= BLOCKING
    ensures Inv(Run(es, indexed), indexed)
  {
    hide Inv, Step;
    EmptyIsSound(indexed);
    if es != [] {
      RunKeepsInv(es[..|es| - 1], indexed);
      StepKeepsInv(Run(es[..|es| - 1], indexed), es[|es| - 1], indexed);
    }
  }

  // Main results.

  /** In every interleaving at most one launch per key is in a blocking status, with the index the port promises. */
  lemma MutualExclusion(es: seq<Event>)
    ensures Exclusive(Run(es, BLOCKING).reg, BLOCKING)
  {
    RunKeepsInv(es, BLOCKING);
  }

  /** With any index over the four in-flight statuses, at most one launch per key is in flight. */
  lemma InFlightExclusion(es: seq<Event>, indexed: set<Status>)
    requires IN_FLIGHT <= indexed <= BLOCKING
    ensures Exclusive(Run(es, indexed).reg, IN_FLIGHT)
  {
    RunKeepsInv(es, indexed);
  }

  /** A claim that succeeds makes its launch the only one of the key whose status is indexed. */
  lemma ClaimedIsAlone(es: seq<Event>, e: Event, indexed: set<Status>)
    requires IN_FLIGHT <= indexed <= BLOCKING
    requires PcOf(Run(es, indexed), e.client).Claiming?
    requires Step(Run(es, indexed), e, indexed).reg != Run(es, indexed).reg
    ensures var (w, w') := (Run(es, indexed), Step(Run(es, indexed), e, indexed));
      var pc := PcOf(w, e.client);
      && pc.id !in w.reg && pc.id in w'.reg && w'.reg[pc.id].status == Reserved && w'.reg[pc.id].key == pc.key
      && forall id :: id in w'.reg && w'.reg[id].key == pc.key && w'.reg[id].status in indexed ==> id == pc.id
  {
  }

  /** In every interleaving every launch is managed as its status says, and lineage is an acyclic forest
      whose chains have at most 16 launches. */
  lemma LineageAndHandles(es: seq<Event>, indexed: set<Status>, id: string, k: nat)
    requires IN_FLIGHT <= indexed <= BLOCKING && id in Run(es, indexed).reg
    ensures Managed(Run(es, indexed).reg[id])
    ensures AncestorAt(Run(es, indexed).reg, id, MAX_LINEAGE_DEPTH).None?
    ensures k > 0 ==> AncestorAt(Run(es, indexed).reg, id, k) != Some(id)
  {
    RunKeepsInv(es, indexed);
    if k > 0 {
      ForestIsAcyclic(Run(es, indexed).reg, id, k);
    }
  }

  /** One step takes a launch along an edge or leaves its status alone. */
  lemma StatusMoves(w: World, e: Event, indexed: set<Status>, id: string)
    requires IN_FLIGHT <= indexed <= BLOCKING && Inv(w, indexed) && id in w.reg
    ensures id in Step(w, e, indexed).reg
    ensures var (before, after) := (w.reg[id].status, Step(w, e, indexed).reg[id].status);
      before != after ==> Edge(before, after) && Rank(after) < Rank(before)
  {
    hide Inv, Step;
    StepKeepsInv(w, e, indexed);
  }

  /** How often the status of `id` changed. */
  ghost function Changes(es: seq<Event>, indexed: set<Status>, id: string): nat {
    if es == [] then 0
    else
      var before, after := Run(es[..|es| - 1], indexed).reg, Run(es, indexed).reg;
      Changes(es[..|es| - 1], indexed, id)
      + if id in before && id in after && before[id].status != after[id].status then 1 else 0
  }

  /** Every status change is an edge of the table, terminal statuses never change, and one launch changes its
      status at most four times. */
  lemma {:induction false} AtMostFourChanges(es: seq<Event>, indexed: set<Status>, id: string)
    requires IN_FLIGHT <= indexed <= BLOCKING
    ensures id !in Run(es, indexed).reg ==> Changes(es, indexed, id) == 0
    ensures id in Run(es, indexed).reg ==> Changes(es, indexed, id) + Rank(Run(es, indexed).reg[id].status) <= 4
    ensures Changes(es, indexed, id) <= 4
  {
    if es != [] {
      hide Inv, Step, Edge;
      AtMostFourChanges(es[..|es| - 1], indexed, id);
      RunKeepsInv(es[..|es| - 1], indexed);
      if id in Run(es[..|es| - 1], indexed).reg {
        StatusMoves(Run(es[..|es| - 1], indexed), es[|es| - 1], indexed, id);
      }
    }
  }

  lemma {:induction false} TerminalIsFinal(es: seq<Event>, n: nat, indexed: set<Status>, id: string)
    requires IN_FLIGHT <= indexed <= BLOCKING && n <= |es|
    requires id in Run(es[..n], indexed).reg && Terminal(Run(es[..n], indexed).reg[id].status)
    ensures id in Run(es, indexed).reg && Run(es, indexed).reg[id].status == Run(es[..n], indexed).reg[id].status
    decreases |es|
  {
    if n < |es| {
      var p := es[..|es| - 1];
      hide Inv, Step;
      assert p[..n] == es[..n];
      TerminalIsFinal(p, n, indexed, id);
      RunKeepsInv(p, indexed);
      StatusMoves(Run(p, indexed), es[|es| - 1], indexed, id);
    } else {
      assert es[..n] == es;
    }
  }

  // The index decides.

  lemma RunSnoc(es: seq<Event>, e: Event, indexed: set<Status>)
    ensures Run(es + [e], indexed) == Step(Run(es, indexed), e, indexed)
  {
    assert (es + [e])[..|es + [e]| - 1] == es;
  }

  lemma PossibleSnoc(es: seq<Event>, e: Event, indexed: set<Status>)
    requires Possible(es, indexed) && Legal(Run(es, indexed), e)
    ensures Possible(es + [e], indexed)
  {
    var all := es + [e];
    forall i | 0 <= i < |all| ensures Legal(Run(all[..i], indexed), all[i]) {
      if i < |es| {
        assert all[..i] == es[..i] && all[i] == es[i];
        assert Legal(Run(es[..i], indexed), es[i]);
      } else {
        assert all[..i] == es;
      }
    }
  }

  /** One client, one step: the run reaches the world the client's step leads to. */
  lemma Advance(es: seq<Event>, ch: Choice, indexed: set<Status>, reg: Registry, pc: Pc) returns (es': seq<Event>)
    requires Possible(es, indexed) && Run(es, indexed) == World(reg, map[0 := pc])
    requires pc.Finding? ==> Legal(World(reg, map[0 := pc]), Event(0, ch))
    ensures Possible(es', indexed)
    ensures Run(es', indexed) == World(Act(reg, pc, ch, indexed).0, map[0 := Act(reg, pc, ch, indexed).1])
  {
    var e := Event(0, ch);
    PossibleSnoc(es, e, indexed);
    RunSnoc(es, e, indexed);
    es' := es + [e];
    assert map[0 := pc][0 := Act(reg, pc, ch, indexed).1] == map[0 := Act(reg, pc, ch, indexed).1];
  }

  /** A client with the registry to itself launches for a key with no in-flight launch. */
  lemma LaunchOnce(es: seq<Event>, indexed: set<Status>, reg: Registry, found: Option<string>, id: string, now: int)
    returns (es': seq<Event>)
    requires Possible(es, indexed) && Run(es, indexed) == World(reg, map[0 := Idle])
    requires id !in reg && Free(reg, "k", indexed)
    requires found.Some? ==> found.value in reg && reg[found.value].key == "k"
    requires found.Some? ==> reg[found.value].status.Quarantined? && !reg[found.value].LeaseValid(now)
    requires found.None? ==> Free(reg, "k", BLOCKING)
    ensures Possible(es', indexed)
    ensures Run(es', indexed)
         == World(reg[id := Launch("k", Reserved, Some(now + LEASE_MS), None, None)], map[0 := Idle])
  {
    var ch := Choice(Call.Request("k", None), now, id, found, false);
    es' := Advance(es, ch, indexed, reg, Idle);
    es' := Advance(es', ch, indexed, reg, Finding("k", None));
    es' := Advance(es', ch, indexed, reg, Validating("k", None));
    es' := Advance(es', ch, indexed, reg, Claiming("k", None, id));
  }

  /** It quarantines a launch it reserved. */
  lemma QuarantineOnce(es: seq<Event>, indexed: set<Status>, reg: Registry, id: string) returns (es': seq<Event>)
    requires Possible(es, indexed) && Run(es, indexed) == World(reg, map[0 := Idle])
    requires id in reg && reg[id].status.Reserved?
    ensures Possible(es', indexed)
    ensures Run(es', indexed) == World(reg[id := reg[id].(status := Quarantined)], map[0 := Idle])
  {
    var ch := Choice(Quarantine(id), 0, "", None, false);
    es' := Advance(es, ch, indexed, reg, Idle);
    es' := Advance(es', ch, indexed, reg, Reading(id, Quarantined, Return));
    es' := Advance(es', ch, indexed, reg, Setting(id, Reserved, Quarantined, None, false, Return));
  }

  /** A first client whose first registry call fails. */
  lemma FirstClient(indexed: set<Status>) returns (es: seq<Event>)
    ensures Possible(es, indexed) && Run(es, indexed) == World(map[], map[0 := Idle])
  {
    var e := Event(0, Choice(Quarantine(""), 0, "", None, true));
    PossibleSnoc([], e, indexed);
    RunSnoc([], e, indexed);
    es := [] + [e];
  }

  /** When the index leaves quarantined launches out, as the SQLite index does, one whose lease has run out does not
      keep a second launch of its key from starting. */
  lemma QuarantineDoesNotBlock(indexed: set<Status>) returns (es: seq<Event>)
    requires IN_FLIGHT <= indexed <= BLOCKING && Quarantined !in indexed
    ensures Possible(es, indexed) && !Exclusive(Run(es, indexed).reg, BLOCKING)
  {
    hide Run, Possible, Act;
    es := FirstClient(indexed);
    es := LaunchOnce(es, indexed, map[], None, "a", 0);
    var a := Launch("k", Reserved, Some(LEASE_MS), None, None);
    assert map[]["a" := a] == map["a" := a];
    es := QuarantineOnce(es, indexed, map["a" := a], "a");
    var q := a.(status := Quarantined);
    assert map["a" := a]["a" := q] == map["a" := q];
    es := LaunchOnce(es, indexed, map["a" := q], Some("a"), "b", LEASE_MS);
    assert Run(es, indexed).reg["a"].status.Quarantined? && Run(es, indexed).reg["b"].status.Reserved?;
  }

  /** At most one blocking launch per key in every possible run, exactly when the claim's index covers QUARANTINED. */
  lemma MutualExclusionIff(indexed: set<Status>)
    requires IN_FLIGHT <= indexed <= BLOCKING
    ensures (forall es :: Possible(es, indexed) ==> Exclusive(Run(es, indexed).reg, BLOCKING))
       <==> Quarantined in indexed
  {
    if Quarantined in indexed {
      assert indexed == BLOCKING;
      forall es | Possible(es, indexed) ensures Exclusive(Run(es, indexed).reg, BLOCKING) {
        MutualExclusion(es);
      }
    } else {
      var es := QuarantineDoesNotBlock(indexed);
    }
  }
}
