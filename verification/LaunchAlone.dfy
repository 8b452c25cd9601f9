/** A client of the launch registry that nothing interrupts: its split calls do what the whole calls do. */
module LaunchAlone {
  import opened Options
  import opened LaunchRegistry
  import opened P = LaunchProtocol
  import S = LaunchService

  /** Up to `k` registry calls of one client, with one clock value and no failures. */
  ghost function Alone(reg: Registry, pc: Pc, ch: Choice, k: nat, indexed: set<Status>): (Registry, Pc)
    decreases k
  {
    if k == 0 || pc.Idle? then (reg, pc)
    else
      var (reg', pc') := Act(reg, pc, ch, indexed);
      Alone(reg', pc', ch, k - 1, indexed)
  }

  lemma OneCall(reg: Registry, pc: Pc, ch: Choice, k: nat, indexed: set<Status>, reg': Registry, pc': Pc)
    requires !pc.Idle? && k > 0 && Act(reg, pc, ch, indexed) == (reg', pc')
    ensures Alone(reg, pc, ch, k, indexed) == Alone(reg', pc', ch, k - 1, indexed)
    ensures pc'.Idle? ==> Alone(reg, pc, ch, k, indexed) == (reg', Idle)
  {
  }

  /** The registry with launch `id` moved to `s`. */
  function Moved(reg: Registry, id: string, s: Status): Registry
    requires id in reg
  {
    reg[id := reg[id].(status := s)]
  }

  predicate Is(reg: Registry, id: string, s: set<Status>) {
    id in reg && reg[id].status in s
  }

  /** The calls that confirm a step move exactly the launch that is where the step starts. */
  lemma ConfirmsAlone(reg: Registry, id: string, handle: string, ch: Choice, indexed: set<Status>)
    requires !ch.fails
    ensures Alone(reg, StartCall(ConfirmSpawning(id)), ch, 2, indexed)
         == (if Is(reg, id, {Reserved}) then Moved(reg, id, Spawning) else reg, Idle)
    ensures Alone(reg, StartCall(ConfirmActive(id, handle)), ch, 2, indexed)
         == (if Is(reg, id, {Spawning})
             then reg[id := reg[id].(status := Active, handle := Some(handle), lease := None)]
             else reg, Idle)
    ensures Alone(reg, StartCall(ConfirmTerminated(id)), ch, 2, indexed)
         == (if Is(reg, id, {Terminating}) then Moved(reg, id, Terminated) else reg, Idle)
  {
    hide Alone;
    OneCall(reg, StartCall(ConfirmSpawning(id)), ch, 2, indexed, Cas(reg, id, Reserved, Spawning, None, false), Idle);
    OneCall(reg, StartCall(ConfirmActive(id, handle)), ch, 2, indexed,
            Cas(reg, id, Spawning, Active, Some(handle), true), Idle);
    OneCall(reg, StartCall(ConfirmTerminated(id)), ch, 2, indexed,
            Cas(reg, id, Terminating, Terminated, None, false), Idle);
  }

  /** Reading a launch and setting its status moves it when the table has the edge, and then the client goes on. */
  lemma ReadAndSet(reg: Registry, id: string, target: Status, after: After, ch: Choice, k: nat, indexed: set<Status>)
    returns (k': nat)
    requires !ch.fails && k >= 2 && target in {Failed, Terminating, Quarantined}
    ensures k - 2 <= k' <= k
    ensures var reg' := if id in reg && Edge(reg[id].status, target) then Moved(reg, id, target) else reg;
      Alone(reg, Reading(id, target, after), ch, k, indexed) == Alone(reg', Resume(after), ch, k', indexed)
  {
    hide Alone, Resume;
    var next := AfterRead(reg, id, target, after);
    OneCall(reg, Reading(id, target, after), ch, k, indexed, reg, next);
    k' := k - 1;
    if id in reg && Edge(reg[id].status, target) {
      EntersFrom(reg[id].status);
      OneCall(reg, next, ch, k - 1, indexed, Moved(reg, id, target), Resume(after));
      k' := k - 2;
    }
  }

  lemma IdleRests(reg: Registry, ch: Choice, k: nat, indexed: set<Status>)
    ensures Alone(reg, Idle, ch, k, indexed) == (reg, Idle)
  {
  }

  /** Failing takes every launch that is not terminal, terminating an active one, quarantining one that is reserved,
      spawning or active. */
  lemma MovesAlone(reg: Registry, id: string, ch: Choice, indexed: set<Status>)
    requires !ch.fails
    ensures Alone(reg, StartCall(MarkFailed(id)), ch, 3, indexed)
         == (if Is(reg, id, BLOCKING) then Moved(reg, id, Failed) else reg, Idle)
    ensures Alone(reg, StartCall(BeginTermination(id)), ch, 3, indexed)
         == (if Is(reg, id, {Active}) then Moved(reg, id, Terminating) else reg, Idle)
    ensures Alone(reg, StartCall(Call.Quarantine(id)), ch, 3, indexed)
         == (if Is(reg, id, {Reserved, Spawning, Active}) then Moved(reg, id, Quarantined) else reg, Idle)
  {
    hide Alone;
    if id in reg {
      EntersFrom(reg[id].status);
    }
    var k := ReadAndSet(reg, id, Failed, Return, ch, 3, indexed);
    IdleRests(if id in reg && Edge(reg[id].status, Failed) then Moved(reg, id, Failed) else reg, ch, k, indexed);
    k := ReadAndSet(reg, id, Terminating, Return, ch, 3, indexed);
    IdleRests(if id in reg && Edge(reg[id].status, Terminating) then Moved(reg, id, Terminating) else reg,
              ch, k, indexed);
    k := ReadAndSet(reg, id, Quarantined, Return, ch, 3, indexed);
    IdleRests(if id in reg && Edge(reg[id].status, Quarantined) then Moved(reg, id, Quarantined) else reg,
              ch, k, indexed);
  }

  // Reconciling.

  /** The listed launches that are reserved, spawning or active are quarantined. */
  function AllQuarantined(reg: Registry, ids: seq<string>): Registry {
    map id | id in reg ::
      if id in ids && reg[id].status in {Reserved, Spawning, Active} then reg[id].(status := Quarantined) else reg[id]
  }

  lemma {:induction false} NextAlone(reg: Registry, ids: seq<string>, ch: Choice, k: nat, indexed: set<Status>)
    requires !ch.fails && k >= 2 * |ids|
    ensures Alone(reg, Resume(Next(ids)), ch, k, indexed) == (AllQuarantined(reg, ids), Idle)
    decreases |ids|
  {
    hide Alone, AllQuarantined;
    if ids == [] {
      IdleRests(reg, ch, k, indexed);
      assert AllQuarantined(reg, ids) == reg by {
        NoneQuarantined(reg);
      }
    } else {
      var id, rest := ids[0], ids[1..];
      var k' := ReadAndSet(reg, id, Quarantined, Next(rest), ch, k, indexed);
      var mid := if id in reg && Edge(reg[id].status, Quarantined) then Moved(reg, id, Quarantined) else reg;
      NextAlone(mid, rest, ch, k', indexed);
      FirstQuarantined(reg, mid, ids);
    }
  }

  lemma NoneQuarantined(reg: Registry)
    ensures AllQuarantined(reg, []) == reg
  {
  }

  lemma FirstQuarantined(reg: Registry, mid: Registry, ids: seq<string>)
    requires ids != []
    requires mid ==
      if ids[0] in reg && Edge(reg[ids[0]].status, Quarantined) then Moved(reg, ids[0], Quarantined) else reg
    ensures AllQuarantined(mid, ids[1..]) == AllQuarantined(reg, ids)
  {
    assert ids == [ids[0]] + ids[1..];
    if ids[0] in reg {
      EntersFrom(reg[ids[0]].status);
    }
    hide Edge;
    assert forall id :: id in ids <==> id == ids[0] || id in ids[1..];
  }

  /** What the first registry call of a reconciliation returns: the blocking launches whose lease has run out. */
  ghost predicate Expired(reg: Registry, ids: seq<string>, now: int) {
    forall id :: id in ids <==> id in reg && reg[id].status in BLOCKING && !reg[id].LeaseValid(now)
  }

  /** An uninterrupted reconciliation quarantines exactly the stale launches. */
  lemma ReconcileAlone(reg: Registry, ids: seq<string>, ch: Choice, now: int, indexed: set<Status>)
    requires AllManaged(reg) && Expired(reg, ids, now) && !ch.fails
    ensures Alone(reg, StartCall(Reconcile(ids)), ch, 2 * |ids|, indexed) == (Reconciled(reg, now), Idle)
  {
    NextAlone(reg, ids, ch, 2 * |ids|, indexed);
    hide Alone, Resume;
    forall id | id in reg ensures AllQuarantined(reg, ids)[id] == Reconciled(reg, now)[id] {
      assert Managed(reg[id]);
      assert id in ids <==> reg[id].status in BLOCKING && !reg[id].LeaseValid(now);
    }
    assert AllQuarantined(reg, ids) == Reconciled(reg, now);
    assert StartCall(Reconcile(ids)) == Resume(Next(ids));
  }

  // Requests.

  /** The walk has come `depth` links up from the parent without meeting the new launch. */
  ghost predicate OnTheWay(reg: Registry, pc: Pc) {
    && pc.Walking? && pc.above in reg && pc.above != pc.id && 1 <= pc.depth < MAX_LINEAGE_DEPTH
    && pc.current == AncestorAt(reg, pc.above, pc.depth)
    && S.Seen(pc.visited, reg, pc.above, pc.id, pc.depth)
    && forall i {:trigger AncestorAt(reg, pc.above, i)} :: 1 <= i < pc.depth ==>
         AncestorAt(reg, pc.above, i) != Some(pc.id)
  }

  /** An uninterrupted walk ends in the claim exactly when the parent is acceptable. */
  lemma {:induction false} WalkAlone(reg: Registry, pc: Pc, ch: Choice, k: nat, indexed: set<Status>) returns (k': nat)
    requires OnTheWay(reg, pc) && !ch.fails && k > MAX_LINEAGE_DEPTH - pc.depth
    ensures k - (MAX_LINEAGE_DEPTH - pc.depth) <= k' < k
    ensures var end := if S.AcceptsParent(reg, pc.above, pc.id) then Claiming(pc.key, Some(pc.above), pc.id) else Idle;
      Alone(reg, pc, ch, k, indexed) == Alone(reg, end, ch, k', indexed)
    decreases MAX_LINEAGE_DEPTH - pc.depth
  {
    hide Alone, S.Seen, S.AcceptsParent, AncestorAt;
    var next := AfterWalk(reg, pc);
    OneCall(reg, pc, ch, k, indexed, reg, next);
    k' := k - 1;
    if pc.current.None? {
      WalkAccepts(reg, pc);
    } else if pc.depth + 1 >= MAX_LINEAGE_DEPTH {
      WalkTooDeep(reg, pc);
    } else if pc.current.value in pc.visited {
      WalkMeets(reg, pc);
    } else {
      WalkUp(reg, pc);
      if pc.current.value in reg {
        k' := WalkAlone(reg, next, ch, k - 1, indexed);
      } else {
        WalkAccepts(reg, pc.(current := None, depth := pc.depth + 1, visited := pc.visited + {pc.current.value}));
      }
    }
  }

  lemma WalkAccepts(reg: Registry, pc: Pc)
    requires OnTheWay(reg, pc) && pc.current.None?
    ensures S.AcceptsParent(reg, pc.above, pc.id)
  {
    AncestorsEnd(reg, pc.above, pc.depth, MAX_LINEAGE_DEPTH - 1);
    forall i | 1 <= i < MAX_LINEAGE_DEPTH - 1 ensures AncestorAt(reg, pc.above, i) != Some(pc.id) {
      if i >= pc.depth {
        AncestorsEnd(reg, pc.above, pc.depth, i);
      }
    }
  }

  lemma WalkTooDeep(reg: Registry, pc: Pc)
    requires OnTheWay(reg, pc) && pc.current.Some? && pc.depth + 1 >= MAX_LINEAGE_DEPTH
    ensures !S.AcceptsParent(reg, pc.above, pc.id)
  {
    hide AncestorAt;
  }

  lemma WalkMeets(reg: Registry, pc: Pc)
    requires OnTheWay(reg, pc) && pc.current.Some? && pc.current.value in pc.visited
    requires pc.depth + 1 < MAX_LINEAGE_DEPTH
    ensures !S.AcceptsParent(reg, pc.above, pc.id)
  {
    if pc.current.value != pc.id {
      var i: nat :| i < pc.depth && S.IsAncestor(reg, pc.above, i, pc.current.value);
      RevisitNeverEnds(reg, pc.above, i, pc.depth, MAX_LINEAGE_DEPTH - 1);
    }
  }

  lemma WalkUp(reg: Registry, pc: Pc)
    requires OnTheWay(reg, pc) && pc.current.Some? && pc.current.value !in pc.visited
    requires pc.depth + 1 < MAX_LINEAGE_DEPTH
    ensures var x := pc.current.value;
      OnTheWay(reg, pc.(current := if x in reg then reg[x].parent else None, depth := pc.depth + 1,
                        visited := pc.visited + {x}))
  {
    var x := pc.current.value;
    assert S.IsAncestor(reg, pc.above, pc.depth, x);
    S.SeeOneMore(pc.visited, reg, pc.above, pc.id, pc.depth, x);
    assert pc.id in pc.visited;
    assert AncestorAt(reg, pc.above, pc.depth + 1) == if x in reg then reg[x].parent else None;
  }

  /** From the validation on: the claim is made exactly when the parent is acceptable, and granted exactly when id and
      key are free. */
  lemma ValidateAlone(reg: Registry, key: string, parent: Option<string>, ch: Choice, k: nat, indexed: set<Status>)
    requires !ch.fails && k >= 20
    ensures var granted := (parent.Some? ==> S.AcceptsParent(reg, parent.value, ch.id))
                           && ch.id !in reg && Free(reg, key, indexed);
      Alone(reg, Validating(key, parent), ch, k, indexed)
      == (if granted then reg[ch.id := Launch(key, Reserved, Some(ch.now + LEASE_MS), None, parent)] else reg, Idle)
  {
    hide Alone, S.AcceptsParent, Free;
    var next := AfterValidate(reg, key, parent, ch.id);
    OneCall(reg, Validating(key, parent), ch, k, indexed, reg, next);
    if parent.None? {
      ClaimAlone(reg, key, parent, ch, k - 1, indexed);
    } else if next.Idle? {
      assert !S.AcceptsParent(reg, parent.value, ch.id) by {
        NotAccepted(reg, parent.value, ch.id);
      }
    } else {
      WalkStarts(reg, key, parent.value, ch.id);
      var k' := WalkAlone(reg, next, ch, k - 1, indexed);
      IdleRests(reg, ch, k', indexed);
      ClaimAlone(reg, key, parent, ch, k', indexed);
    }
  }

  lemma NotAccepted(reg: Registry, parent: string, id: string)
    requires parent == id || parent !in reg
    ensures !S.AcceptsParent(reg, parent, id)
  {
  }

  lemma WalkStarts(reg: Registry, key: string, parent: string, id: string)
    requires parent in reg && parent != id
    ensures OnTheWay(reg, Walking(key, parent, id, reg[parent].parent, {id, parent}, 1))
  {
    assert S.IsAncestor(reg, parent, 0, parent);
    assert AncestorAt(reg, parent, 1) == reg[parent].parent;
  }

  lemma ClaimAlone(reg: Registry, key: string, parent: Option<string>, ch: Choice, k: nat, indexed: set<Status>)
    requires !ch.fails && k >= 2
    ensures Alone(reg, Claiming(key, parent, ch.id), ch, k, indexed)
         == (if ch.id !in reg && Free(reg, key, indexed)
             then reg[ch.id := Launch(key, Reserved, Some(ch.now + LEASE_MS), None, parent)] else reg, Idle)
  {
    hide Alone, Free;
    var claimed := Claim(reg, ch.id, key, ch.now + LEASE_MS, parent, indexed);
    var reg' := if claimed.Some? then claimed.value else reg;
    OneCall(reg, Claiming(key, parent, ch.id), ch, k, indexed, reg',
            if claimed.Some? then Idle else FindingWinner(key));
    if claimed.None? {
      OneCall(reg, FindingWinner(key), ch, k - 1, indexed, reg, Idle);
    }
  }

  /** The registry once a stale launch that was found has been quarantined. */
  function WayMade(reg: Registry, found: Option<string>, now: int): Registry {
    if found.Some? && found.value in reg && Stale(reg[found.value], now) then Moved(reg, found.value, Quarantined)
    else reg
  }

  /** An uninterrupted request, on any sound registry: a stale launch that was found is quarantined, and the request is
      granted exactly when the id is new, the parent acceptable and the way clear. It ends after at most 24 calls. */
  lemma RequestAlone(reg: Registry, key: string, parent: Option<string>, ch: Choice, indexed: set<Status>)
    requires Forest(reg) && IN_FLIGHT <= indexed <= BLOCKING && S.IsFound(reg, key, ch.found) && !ch.fails
    ensures var granted := (parent.Some? ==> S.AcceptsParent(reg, parent.value, ch.id))
                           && ch.id !in reg && S.Cleared(reg, key, ch.found, indexed, ch.now);
      var way := WayMade(reg, ch.found, ch.now);
      Alone(reg, StartCall(Call.Request(key, parent)), ch, 24, indexed)
      == (if granted then way[ch.id := Launch(key, Reserved, Some(ch.now + LEASE_MS), None, parent)] else way, Idle)
  {
    hide Alone, S.AcceptsParent, Free, Forest;
    var found := ch.found;
    var next := AfterFind(reg, key, parent, found, ch.now);
    OneCall(reg, Finding(key, parent), ch, 24, indexed, reg, next);
    if found.None? {
      NothingFound(reg, key, indexed, ch.now);
      ValidateAlone(reg, key, parent, ch, 23, indexed);
    } else if !next.Idle? {
      var way := WayMade(reg, found, ch.now);
      FoundIsCleared(reg, key, found.value, indexed, ch.now);
      if parent.Some? {
        S.SameLineage(reg, way, parent.value, ch.id);
      }
      var k := 23;
      if next.Reading? {
        EntersFrom(reg[found.value].status);
        k := ReadAndSet(reg, found.value, Quarantined, After.Request(key, parent), ch, 23, indexed);
      }
      ValidateAlone(way, key, parent, ch, k, indexed);
    }
  }

  lemma NothingFound(reg: Registry, key: string, indexed: set<Status>, now: int)
    requires indexed <= BLOCKING && S.IsFound(reg, key, None)
    ensures Free(reg, key, indexed) && S.Cleared(reg, key, None, indexed, now)
  {
  }

  lemma FoundIsCleared(reg: Registry, key: string, found: string, indexed: set<Status>, now: int)
    requires IN_FLIGHT <= indexed && S.IsFound(reg, key, Some(found)) && !reg[found].LeaseValid(now)
    ensures Free(WayMade(reg, Some(found), now), key, indexed) <==> S.Cleared(reg, key, Some(found), indexed, now)
    ensures WayMade(reg, Some(found), now).Keys == reg.Keys && KeepsParents(reg, WayMade(reg, Some(found), now))
  {
    S.WayIsClear(reg, WayMade(reg, Some(found), now), key, found, indexed, now);
  }
}
