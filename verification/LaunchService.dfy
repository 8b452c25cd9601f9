/** The lifecycle service with whole calls, each running alone on the registry. */
module LaunchService {
  import opened Options
  import opened LaunchRegistry

  datatype Decision = Claimed | Suppressed | Error

  /** What the lineage walk decides, without the walk: the parent is registered, is not the new launch, does not
      descend from it, and its chain of ancestors ends within 14 links. */
  ghost predicate AcceptsParent(reg: Registry, parent: string, proposed: string) {
    && parent != proposed
    && parent in reg
    && AncestorAt(reg, parent, MAX_LINEAGE_DEPTH - 1).None?
    && forall i {:trigger AncestorAt(reg, parent, i)} :: 1 <= i < MAX_LINEAGE_DEPTH - 1 ==>
      AncestorAt(reg, parent, i) != Some(proposed)
  }

  /** On any registry an accepted parent is registered, and its chain of ancestors, itself included, ends without
      meeting the new launch: a claim under it closes no cycle. */
  lemma AcceptedIsAbove(reg: Registry, parent: string, proposed: string)
    requires AcceptsParent(reg, parent, proposed)
    ensures parent in reg && AncestorAt(reg, parent, 0) == Some(parent)
    ensures forall i: nat :: AncestorAt(reg, parent, i) != Some(proposed)
    ensures forall i: nat :: i >= MAX_LINEAGE_DEPTH - 1 ==> AncestorAt(reg, parent, i).None?
  {
    forall i: nat | i >= MAX_LINEAGE_DEPTH - 1 ensures AncestorAt(reg, parent, i).None? {
      AncestorsEnd(reg, parent, MAX_LINEAGE_DEPTH - 1, i);
    }
    forall i: nat ensures AncestorAt(reg, parent, i) != Some(proposed) {
      if i == 0 {
        assert AncestorAt(reg, parent, 0) == Some(parent);
      }
    }
  }

  /** In a forest a fresh launch may have any registered parent with at most 14 proper ancestors. */
  lemma AcceptsParentInForest(reg: Registry, parent: string, proposed: string)
    requires Forest(reg) && proposed !in reg
    ensures AcceptsParent(reg, parent, proposed) <==> MayParent(reg, parent)
  {
    if MayParent(reg, parent) {
      forall i | 1 <= i < MAX_LINEAGE_DEPTH - 1 ensures AncestorAt(reg, parent, i) != Some(proposed) {
        AncestorsKept(reg, reg, parent, i);
      }
    }
  }

  predicate IsAncestor(reg: Registry, id: string, i: nat, x: string) {
    AncestorAt(reg, id, i) == Some(x)
  }

  ghost predicate Seen(visited: set<string>, reg: Registry, parent: string, proposed: string, depth: nat) {
    forall x :: x in visited <==> x == proposed || exists i: nat :: i < depth && IsAncestor(reg, parent, i, x)
  }

  lemma SeeOneMore(visited: set<string>, reg: Registry, parent: string, proposed: string, depth: nat, x: string)
    requires Seen(visited, reg, parent, proposed, depth) && IsAncestor(reg, parent, depth, x)
    ensures Seen(visited + {x}, reg, parent, proposed, depth + 1)
  {
    hide IsAncestor;
    forall y | y in visited + {x} && y != proposed
      ensures exists i: nat :: i < depth + 1 && IsAncestor(reg, parent, i, y)
    {
      if y in visited {
        var i: nat :| i < depth && IsAncestor(reg, parent, i, y);
        assert i < depth + 1;
      }
    }
    forall i: nat, y | i < depth + 1 && IsAncestor(reg, parent, i, y) ensures y in visited + {x} {
      if i == depth {
        SameAncestor(reg, parent, i, x, y);
      }
    }
  }

  lemma SameAncestor(reg: Registry, id: string, i: nat, x: string, y: string)
    requires IsAncestor(reg, id, i, x) && IsAncestor(reg, id, i, y)
    ensures x == y
  {
  }

  method ValidateParent(reg: Registry, parent: string, proposed: string) returns (valid: bool)
    ensures valid <==> AcceptsParent(reg, parent, proposed)
  {
    if parent == proposed || parent !in reg {
      return false;
    }
    var visited := {proposed, parent};
    var current := reg[parent].parent;
    var depth := 1;
    assert IsAncestor(reg, parent, 0, parent);
    assert Seen(visited, reg, parent, proposed, 1);
    while current.Some?
      invariant 1 <= depth < MAX_LINEAGE_DEPTH && current == AncestorAt(reg, parent, depth)
      invariant Seen(visited, reg, parent, proposed, depth)
      invariant forall i {:trigger AncestorAt(reg, parent, i)} :: 1 <= i < depth ==>
                  AncestorAt(reg, parent, i) != Some(proposed)
      decreases MAX_LINEAGE_DEPTH - depth
    {
      if depth + 1 >= MAX_LINEAGE_DEPTH {
        return false;
      }
      if current.value in visited {
        if current.value != proposed {
          var i: nat :| i < depth && IsAncestor(reg, parent, i, current.value);
          RevisitNeverEnds(reg, parent, i, depth, MAX_LINEAGE_DEPTH - 1);
        }
        return false;
      }
      assert IsAncestor(reg, parent, depth, current.value);
      SeeOneMore(visited, reg, parent, proposed, depth, current.value);
      visited := visited + {current.value};
      depth := depth + 1;
      if current.value !in reg {
        assert AncestorAt(reg, parent, depth).None?;
        break;
      }
      current := reg[current.value].parent;
    }
    AncestorsEnd(reg, parent, depth, MAX_LINEAGE_DEPTH - 1);
    forall i | 1 <= i < MAX_LINEAGE_DEPTH - 1 ensures AncestorAt(reg, parent, i) != Some(proposed) {
      if i >= depth {
        AncestorsEnd(reg, parent, depth, i);
      }
    }
    return true;
  }

  /** The registry when the launches in `ids` were quarantined. */
  ghost predicate QuarantinedExactly(before: Registry, after: Registry, ids: set<string>) {
    && after.Keys == before.Keys
    && forall id :: id in before ==>
      after[id] == if id in ids then before[id].(status := Quarantined) else before[id]
  }

  /** A blocking launch of the key, if there is one: what the lookup at the start of a request returns. */
  ghost predicate IsFound(reg: Registry, key: string, found: Option<string>) {
    if found.Some? then found.value in reg && reg[found.value].key == key && reg[found.value].status in BLOCKING
    else Free(reg, key, BLOCKING)
  }

  /** The way is clear for a claim: no blocking launch was found, or the found one's lease has run out and no other
      launch of the key is indexed, and neither is the found one, or no more once it has been quarantined. */
  ghost predicate Cleared(reg: Registry, key: string, found: Option<string>, indexed: set<Status>, now: int)
    requires IsFound(reg, key, found)
  {
    found.Some? ==>
      && !reg[found.value].LeaseValid(now)
      && forall x :: x in reg && reg[x].key == key && reg[x].status in indexed ==>
                       x == found.value && reg[x].status in {Reserved, Spawning} && Quarantined !in indexed
  }

  class LifecycleService {
    const indexed: set<Status>
    var reg: Registry

    ghost predicate Valid()
      reads this
    {
      IN_FLIGHT <= indexed <= BLOCKING && Exclusive(reg, indexed) && AllManaged(reg) && Forest(reg)
    }

    constructor (indexed: set<Status>)
      requires IN_FLIGHT <= indexed <= BLOCKING
      ensures Valid() && reg == map[] && this.indexed == indexed
    {
      this.indexed := indexed;
      reg := map[];
    }

    /** The registry's own compare-and-set. */
    method CasUpdateStatus(id: string, expected: Status, target: Status, handle: Option<string>, clearLease: bool)
      returns (ok: bool)
      modifies this`reg
      ensures ok <==> CasHits(old(reg), id, expected)
      ensures reg == Cas(old(reg), id, expected, target, handle, clearLease)
    {
      ok := CasHits(reg, id, expected);
      reg := Cas(reg, id, expected, target, handle, clearLease);
    }

    /** The status moves along an edge and everything else about the registry stays. */
    twostate predicate Moved(id: string, ok: bool, target: Status)
      reads this
    {
      && (ok ==> id in old(reg) && Edge(old(reg)[id].status, target)
                 && reg == old(reg)[id := old(reg)[id].(status := target)])
      && (!ok ==> reg == old(reg))
    }

    method ConfirmSpawning(id: string) returns (ok: bool)
      requires Valid()
      modifies this`reg
      ensures Valid() && Moved(id, ok, Spawning)
      ensures ok <==> id in old(reg) && old(reg)[id].status == Reserved
    {
      ok := CasUpdateStatus(id, Reserved, Spawning, None, false);
      CasIsSound(old(reg), id, Reserved, Spawning, None, false, indexed);
    }

    method ConfirmActive(id: string, handle: string) returns (ok: bool)
      requires Valid()
      modifies this`reg
      ensures Valid()
      ensures ok <==> id in old(reg) && old(reg)[id].status == Spawning
      ensures ok ==> reg == old(reg)[id := old(reg)[id].(status := Active, handle := Some(handle), lease := None)]
      ensures !ok ==> reg == old(reg)
    {
      ok := CasUpdateStatus(id, Spawning, Active, Some(handle), true);
      CasIsSound(old(reg), id, Spawning, Active, Some(handle), true, indexed);
    }

    method MarkFailed(id: string) returns (ok: bool)
      requires Valid()
      modifies this`reg
      ensures Valid() && Moved(id, ok, Failed)
      ensures ok <==> id in old(reg) && !Terminal(old(reg)[id].status)
    {
      if id !in reg || Terminal(reg[id].status) || !Edge(reg[id].status, Failed) {
        return false;
      }
      CasIsSound(reg, id, reg[id].status, Failed, None, false, indexed);
      ok := CasUpdateStatus(id, reg[id].status, Failed, None, false);
    }

    method BeginTermination(id: string) returns (ok: bool)
      requires Valid()
      modifies this`reg
      ensures Valid() && Moved(id, ok, Terminating)
      ensures ok <==> id in old(reg) && old(reg)[id].status == Active
    {
      if id !in reg || !Edge(reg[id].status, Terminating) {
        return false;
      }
      CasIsSound(reg, id, reg[id].status, Terminating, None, false, indexed);
      ok := CasUpdateStatus(id, reg[id].status, Terminating, None, false);
    }

    method ConfirmTerminated(id: string) returns (ok: bool)
      requires Valid()
      modifies this`reg
      ensures Valid() && Moved(id, ok, Terminated)
      ensures ok <==> id in old(reg) && old(reg)[id].status == Terminating
    {
      ok := CasUpdateStatus(id, Terminating, Terminated, None, false);
      CasIsSound(old(reg), id, Terminating, Terminated, None, false, indexed);
    }

    method Quarantine(id: string) returns (ok: bool)
      requires Valid()
      modifies this`reg
      ensures Valid() && Moved(id, ok, Quarantined)
      ensures ok <==> id in old(reg) && old(reg)[id].status in {Reserved, Spawning, Active}
    {
      if id !in reg || Terminal(reg[id].status) || !Edge(reg[id].status, Quarantined) {
        return false;
      }
      CasIsSound(reg, id, reg[id].status, Quarantined, None, false, indexed);
      ok := CasUpdateStatus(id, reg[id].status, Quarantined, None, false);
    }

    /** The lookup of a blocking launch. */
    method FindActive(key: string) returns (found: Option<string>)
      ensures found.Some? ==> found.value in reg && reg[found.value].key == key && reg[found.value].status in BLOCKING
      ensures found.None? ==> Free(reg, key, BLOCKING)
    {
      if id :| id in reg && reg[id].key == key && reg[id].status in BLOCKING {
        return Some(id);
      }
      return None;
    }

    /** The first half of a request: suppressed by a blocking launch with a valid lease; a stale one is quarantined. */
    method MakeWay(key: string, now: int) returns (suppressed: bool, found: Option<string>, ghost stale: set<string>)
      requires Valid()
      modifies this`reg
      ensures Valid() && QuarantinedExactly(old(reg), reg, stale)
      ensures forall x :: x in stale ==> x in old(reg) && old(reg)[x].key == key && Stale(old(reg)[x], now)
      ensures IsFound(old(reg), key, found)
      ensures suppressed ==> stale == {} && found.Some? && old(reg)[found.value].LeaseValid(now)
      ensures !suppressed ==> (Free(reg, key, indexed) <==> Cleared(old(reg), key, found, indexed, now))
      ensures !suppressed && found.Some? ==> !old(reg)[found.value].LeaseValid(now)
    {
      hide AncestorAt, Forest, Exclusive, AllManaged;
      stale := {};
      found := FindActive(key);
      if found.None? {
        return false, None, {};
      }
      var l := reg[found.value];
      if l.LeaseValid(now) {
        return true, found, {};
      }
      if l.status in {Reserved, Spawning} {
        var ok := Quarantine(found.value);
        stale := {found.value};
        assert reg[found.value].status == Quarantined;
      }
      WayIsClear(old(reg), reg, key, found.value, indexed, now);
      return false, found, stale;
    }

    /** The second half: the atomic claim, after the parent was validated. */
    method TryClaim(key: string, parent: Option<string>, id: string, now: int) returns (claimed: bool)
      requires Valid() && (parent.Some? && id !in reg ==> MayParent(reg, parent.value))
      modifies this`reg
      ensures Valid()
      ensures claimed <==> id !in old(reg) && Free(old(reg), key, indexed)
      ensures claimed ==> reg == old(reg)[id := Launch(key, Reserved, Some(now + LEASE_MS), None, parent)]
      ensures !claimed ==> reg == old(reg)
    {
      hide AncestorAt, Forest, MayParent;
      var r := Claim(reg, id, key, now + LEASE_MS, parent, indexed);
      if r.None? {
        return false;
      }
      ClaimKeepsExclusive(reg, id, key, now + LEASE_MS, parent, indexed);
      ClaimKeepsForest(reg, r.value, id, r.value[id]);
      reg := r.value;
      return true;
    }

    /** Asks for a launch. Stale launches of the key are quarantined on the way. The request is granted exactly when
        the id is new, the parent is acceptable, and the way is clear of the blocking launch that was found, if any;
        with the index the port promises, only when there is none. */
    method RequestLaunch(key: string, parent: Option<string>, id: string, now: int)
      returns (d: Decision, found: Option<string>, ghost stale: set<string>)
      requires Valid()
      modifies this`reg
      ensures Valid() && IsFound(old(reg), key, found)
      ensures forall x :: x in stale ==> x in old(reg) && old(reg)[x].key == key && Stale(old(reg)[x], now)
      ensures d.Claimed? ==>
        && id !in old(reg)
        && id in reg
        && reg[id] == Launch(key, Reserved, Some(now + LEASE_MS), None, parent)
        && Free(reg - {id}, key, indexed)
        && QuarantinedExactly(old(reg), reg - {id}, stale)
      ensures !d.Claimed? ==> QuarantinedExactly(old(reg), reg, stale)
      ensures d.Claimed? <==> Cleared(old(reg), key, found, indexed, now) && id !in old(reg)
                              && (parent.Some? ==> AcceptsParent(old(reg), parent.value, id))
      ensures indexed == BLOCKING ==> (Cleared(old(reg), key, found, indexed, now) <==> Free(old(reg), key, BLOCKING))
    {
      hide AncestorAt, Exclusive, AllManaged, MayParent, AcceptsParent;
      var suppressed;
      suppressed, found, stale := MakeWay(key, now);
      if suppressed {
        return Suppressed, found, stale;
      }
      if parent.Some? {
        var valid := ValidateParent(reg, parent.value, id);
        assert Forest(old(reg));
        SameLineage(old(reg), reg, parent.value, id);
        if !valid {
          return Error, found, stale;
        }
        if id !in reg {
          AcceptsParentInForest(reg, parent.value, id);
        }
      }
      label Claim:
      var claimed := TryClaim(key, parent, id, now);
      if !claimed {
        var winner := FindActive(key);
        return Suppressed, found, stale;
      }
      assert reg - {id} == old@Claim(reg);
      return Claimed, found, stale;
    }

    /** Quarantines exactly the reserved and spawning launches whose lease has run out, though the list it works
        from may hold any blocking launch with an expired lease. */
    method ReconcileExpiredLeases(now: int) returns (quarantined: set<string>)
      requires Valid()
      modifies this`reg
      ensures Valid()
      ensures quarantined == set id | id in old(reg) && Stale(old(reg)[id], now)
      ensures QuarantinedExactly(old(reg), reg, quarantined) && reg == Reconciled(old(reg), now)
    {
      hide AncestorAt, Forest, Exclusive;
      var expired := set id | id in reg && reg[id].status in BLOCKING && !reg[id].LeaseValid(now);
      quarantined := {};
      var todo := expired;
      while todo != {}
        invariant Valid() && todo <= expired
        invariant forall id :: id in quarantined <==> id in expired && id !in todo && Stale(old(reg)[id], now)
        invariant QuarantinedExactly(old(reg), reg, quarantined)
        decreases todo
      {
        var id :| id in todo;
        assert Managed(reg[id]) && id !in quarantined;
        label Before:
        var ok := Quarantine(id);
        OneMoreQuarantined(old(reg), old@Before(reg), reg, quarantined, id, ok);
        if ok {
          quarantined := quarantined + {id};
        }
        todo := todo - {id};
      }
    }
  }

  lemma OneMoreQuarantined(before: Registry, mid: Registry, after: Registry, ids: set<string>, id: string, ok: bool)
    requires QuarantinedExactly(before, mid, ids) && id in before && id !in ids
    requires after == if ok then mid[id := mid[id].(status := Quarantined)] else mid
    ensures QuarantinedExactly(before, after, if ok then ids + {id} else ids)
  {
  }

  /** After the found launch was quarantined if it was stale, or left alone if it was not. */
  lemma WayIsClear(before: Registry, after: Registry, key: string, found: string, indexed: set<Status>, now: int)
    requires IN_FLIGHT <= indexed && IsFound(before, key, Some(found)) && !before[found].LeaseValid(now)
    requires QuarantinedExactly(before, after, if before[found].status in {Reserved, Spawning} then {found} else {})
    ensures Free(after, key, indexed) <==> Cleared(before, key, Some(found), indexed, now)
  {
    if Cleared(before, key, Some(found), indexed, now) {
      forall x | x in after && after[x].key == key ensures after[x].status !in indexed {
        assert before[x].key == key;
      }
    }
    if Free(after, key, indexed) {
      forall x | x in before && before[x].key == key && before[x].status in indexed
        ensures x == found && before[x].status in {Reserved, Spawning} && Quarantined !in indexed
      {
        assert after[x].key == key && after[x].status !in indexed;
      }
    }
  }

  /** A compare-and-set along an edge keeps the registry sound, if it carries a handle and clears the lease
      exactly when the launch becomes active. */
  lemma CasIsSound(reg: Registry, id: string, expected: Status, target: Status, handle: Option<string>,
                   clearLease: bool, indexed: set<Status>)
    requires IN_FLIGHT <= indexed <= BLOCKING && Exclusive(reg, indexed) && AllManaged(reg) && Forest(reg)
    requires Edge(expected, target) && (target.Active? ==> handle.Some?)
    requires target.Terminated? ==> expected.Terminating?
    requires clearLease <==> target.Active?
    ensures var reg' := Cas(reg, id, expected, target, handle, clearLease);
      Exclusive(reg', indexed) && AllManaged(reg') && Forest(reg')
  {
    hide Exclusive, Forest, AncestorAt;
    CasKeepsExclusive(reg, id, expected, target, handle, clearLease, indexed);
    SameParentsKeepForest(reg, Cas(reg, id, expected, target, handle, clearLease));
  }

  /** Quarantining does not change what the lineage walk decides. */
  lemma SameLineage(reg: Registry, reg': Registry, parent: string, proposed: string)
    requires Forest(reg) && KeepsParents(reg, reg') && reg'.Keys == reg.Keys
    ensures AcceptsParent(reg', parent, proposed) <==> AcceptsParent(reg, parent, proposed)
  {
    if parent in reg {
      forall i: nat ensures AncestorAt(reg', parent, i) == AncestorAt(reg, parent, i) {
        AncestorsKept(reg, reg', parent, i);
      }
    }
  }
}
