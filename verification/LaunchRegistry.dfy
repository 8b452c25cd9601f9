/** Launch records, their transition table, and the registry's atomic operations. */
module LaunchRegistry {
  import opened Options

  datatype Status =
    | Reserved | Spawning | Active | Terminating | Terminated | Failed | SuppressedDuplicate | Quarantined

  const LEASE_MS := 300_000

  const IN_FLIGHT := {Reserved, Spawning, Active, Terminating}
  const BLOCKING := {Reserved, Spawning, Active, Terminating, Quarantined}

  predicate Terminal(s: Status) {
    s.Terminated? || s.Failed? || s.SuppressedDuplicate?
  }

  /** The transition table. */
  predicate Edge(a: Status, b: Status) {
    match a
    case Reserved => b.Spawning? || b.Failed? || b.Quarantined?
    case Spawning => b.Active? || b.Failed? || b.Quarantined?
    case Active => b.Terminating? || b.Failed? || b.Quarantined?
    case Terminating => b.Terminated? || b.Failed?
    case Quarantined => b.Failed? || b.Terminated?
    case _ => false
  }

  /** The table, by the status that is entered: a launch goes forward only, can fail until it is terminal, and leaves
      quarantine only for a terminal status. A status is terminal exactly when no edge leaves it. */
  lemma EntersFrom(a: Status)
    ensures !Edge(a, Reserved) && !Edge(a, SuppressedDuplicate)
    ensures Edge(a, Spawning) <==> a.Reserved?
    ensures Edge(a, Active) <==> a.Spawning?
    ensures Edge(a, Terminating) <==> a.Active?
    ensures Edge(a, Terminated) <==> a.Terminating? || a.Quarantined?
    ensures Edge(a, Failed) <==> a in BLOCKING
    ensures Edge(a, Quarantined) <==> a.Reserved? || a.Spawning? || a.Active?
    ensures Terminal(a) <==> forall b :: !Edge(a, b)
    ensures Terminal(a) <==> a !in BLOCKING
  {
    assert a in BLOCKING ==> Edge(a, Failed);
  }

  datatype Launch = Launch(
    key: string, status: Status, lease: Option<int>, handle: Option<string>, parent: Option<string>)
  {
    predicate LeaseValid(now: int) {
      lease.None? || now < lease.value
    }
  }

  type Registry = map<string, Launch>

  /** No launch of this key has a status in `indexed`. */
  predicate Free(reg: Registry, key: string, indexed: set<Status>) {
    forall id :: id in reg && reg[id].key == key ==> reg[id].status !in indexed
  }

  /** The claim: an insert under the primary key and a unique index over the keys of launches whose status is
      in `indexed`. The port promises `indexed == BLOCKING`; the SQLite index lists IN_FLIGHT. */
  function Claim(reg: Registry, id: string, key: string, lease: int, parent: Option<string>,
                       indexed: set<Status>): Option<Registry> {
    if id in reg || !Free(reg, key, indexed) then None
    else Some(reg[id := Launch(key, Reserved, Some(lease), None, parent)])
  }

  /** The compare-and-set succeeds. */
  predicate CasHits(reg: Registry, id: string, expected: Status) {
    id in reg && reg[id].status == expected
  }

  /** The registry after a compare-and-set; a missing handle leaves the stored one. */
  function Cas(reg: Registry, id: string, expected: Status, target: Status, handle: Option<string>, clearLease: bool)
    : Registry
  {
    if CasHits(reg, id, expected) then
      var l := reg[id];
      reg[id := l.(status := target, handle := if handle.Some? then handle else l.handle,
                   lease := if clearLease then None else l.lease)]
    else reg
  }

  /** At most one launch per key has a status in `s`. */
  ghost predicate Exclusive(reg: Registry, s: set<Status>) {
    forall a, b :: a in reg && b in reg && reg[a].key == reg[b].key && reg[a].status in s && reg[b].status in s ==>
                     a == b
  }

  lemma ClaimKeepsExclusive(reg: Registry, id: string, key: string, lease: int, parent: Option<string>,
                            indexed: set<Status>)
    requires Exclusive(reg, indexed) && Claim(reg, id, key, lease, parent, indexed).Some?
    ensures Exclusive(Claim(reg, id, key, lease, parent, indexed).value, indexed)
  {
  }

  /** A compare-and-set along an edge never enters the index from outside it. */
  lemma CasKeepsExclusive(reg: Registry, id: string, expected: Status, target: Status, handle: Option<string>,
                          clearLease: bool, indexed: set<Status>)
    requires Exclusive(reg, indexed) && IN_FLIGHT <= indexed <= BLOCKING && Edge(expected, target)
    ensures Exclusive(Cas(reg, id, expected, target, handle, clearLease), indexed)
  {
    if CasHits(reg, id, expected) && target in indexed {
      assert expected in indexed;
    }
  }

  /** Strictly decreases along every edge. */
  function Rank(s: Status): nat {
    match s
    case Reserved => 4
    case Spawning => 3
    case Active => 2
    case Terminating => 1
    case Quarantined => 1
    case _ => 0
  }

  // Lineage.

  /** The id `i` parent links above `id`. */
  function AncestorAt(reg: Registry, id: string, i: nat): Option<string> {
    if i == 0 then Some(id)
    else
      var below := AncestorAt(reg, id, i - 1);
      if below.Some? && below.value in reg then reg[below.value].parent else None
  }

  const MAX_LINEAGE_DEPTH: nat := 16

  ghost predicate Closed(reg: Registry) {
    forall id :: id in reg && reg[id].parent.Some? ==> reg[id].parent.value in reg
  }

  /** Every parent is in the registry, and no launch has 16 proper ancestors. */
  ghost predicate Forest(reg: Registry) {
    && Closed(reg)
    && (forall id :: id in reg ==> AncestorAt(reg, id, MAX_LINEAGE_DEPTH).None?)
  }

  lemma {:induction false} AncestorsEnd(reg: Registry, id: string, i: nat, k: nat)
    requires i <= k && AncestorAt(reg, id, i).None?
    ensures AncestorAt(reg, id, k).None?
    decreases k
  {
    if i < k {
      AncestorsEnd(reg, id, i, k - 1);
    }
  }

  lemma {:induction false} AncestorsCompose(reg: Registry, id: string, i: nat, k: nat)
    requires AncestorAt(reg, id, i).Some?
    ensures AncestorAt(reg, id, i + k) == AncestorAt(reg, AncestorAt(reg, id, i).value, k)
  {
    if k > 0 {
      AncestorsCompose(reg, id, i, k - 1);
    }
  }

  /** A chain that meets the same id twice never ends. */
  lemma {:induction false} RevisitNeverEnds(reg: Registry, id: string, i: nat, k: nat, n: nat)
    requires i < k && AncestorAt(reg, id, i).Some? && AncestorAt(reg, id, i) == AncestorAt(reg, id, k)
    ensures AncestorAt(reg, id, n).Some?
    decreases n
  {
    if AncestorAt(reg, id, n).None? {
      if n <= k {
        AncestorsEnd(reg, id, n, k);
      } else {
        AncestorsCompose(reg, id, i, n - k);
        AncestorsCompose(reg, id, k, n - k);
        RevisitNeverEnds(reg, id, i, k, i + (n - k));
      }
    }
  }

  /** In a forest no launch is its own ancestor. */
  lemma ForestIsAcyclic(reg: Registry, id: string, k: nat)
    requires Forest(reg) && id in reg && k > 0
    ensures AncestorAt(reg, id, k) != Some(id)
  {
    if AncestorAt(reg, id, k) == Some(id) {
      RevisitNeverEnds(reg, id, 0, k, MAX_LINEAGE_DEPTH);
    }
  }

  /** `reg'` has every launch of `reg`, with the same parent. */
  ghost predicate KeepsParents(reg: Registry, reg': Registry) {
    forall id :: id in reg ==> id in reg' && reg'[id].parent == reg[id].parent
  }

  lemma {:induction false} AncestorsKept(reg: Registry, reg': Registry, id: string, i: nat)
    requires Closed(reg) && KeepsParents(reg, reg') && id in reg
    ensures AncestorAt(reg', id, i) == AncestorAt(reg, id, i)
    ensures AncestorAt(reg, id, i).Some? ==> AncestorAt(reg, id, i).value in reg
  {
    if i > 0 {
      AncestorsKept(reg, reg', id, i - 1);
      var below := AncestorAt(reg, id, i - 1);
      if below.Some? {
        assert reg'[below.value].parent == reg[below.value].parent;
      }
    }
  }

  /** The parent may have a child: it is registered and has at most 14 proper ancestors. */
  ghost predicate MayParent(reg: Registry, parent: string) {
    parent in reg && AncestorAt(reg, parent, MAX_LINEAGE_DEPTH - 1).None?
  }

  lemma ClaimKeepsForest(reg: Registry, reg': Registry, id: string, l: Launch)
    requires Forest(reg) && id !in reg && reg' == reg[id := l]
    requires l.parent.Some? ==> MayParent(reg, l.parent.value)
    ensures Forest(reg')
  {
    hide AncestorAt;
    FirstAncestors(reg', id);
    forall x | x in reg' ensures AncestorAt(reg', x, MAX_LINEAGE_DEPTH).None? {
      if x != id {
        AncestorsKept(reg, reg', x, MAX_LINEAGE_DEPTH);
      } else if l.parent.Some? {
        AncestorsCompose(reg', id, 1, MAX_LINEAGE_DEPTH - 1);
        AncestorsKept(reg, reg', l.parent.value, MAX_LINEAGE_DEPTH - 1);
      } else {
        AncestorsEnd(reg', id, 1, MAX_LINEAGE_DEPTH);
      }
    }
  }

  lemma FirstAncestors(reg: Registry, id: string)
    requires id in reg
    ensures AncestorAt(reg, id, 0) == Some(id) && AncestorAt(reg, id, 1) == reg[id].parent
  {
  }

  lemma SameParentsKeepForest(reg: Registry, reg': Registry)
    requires Forest(reg) && KeepsParents(reg, reg') && reg'.Keys == reg.Keys
    ensures Forest(reg')
  {
    hide AncestorAt;
    forall x | x in reg' ensures AncestorAt(reg', x, MAX_LINEAGE_DEPTH).None? {
      AncestorsKept(reg, reg', x, MAX_LINEAGE_DEPTH);
    }
  }

  // Handles and leases.

  // Stale launches.

  /** A launch that never became active and whose lease has run out. */
  predicate Stale(l: Launch, now: int) {
    l.status in {Reserved, Spawning} && !l.LeaseValid(now)
  }

  /** The registry after reconciling: stale launches are quarantined. */
  function Reconciled(reg: Registry, now: int): Registry {
    map id | id in reg :: if Stale(reg[id], now) then reg[id].(status := Quarantined) else reg[id]
  }

  /** Reconciling touches only launches that never became active, those whose lease time has come; afterwards none is
      left, so that doing it again changes nothing; and it frees no key. */
  lemma ReconciledMeans(reg: Registry, now: int, key: string)
    ensures Reconciled(reg, now).Keys == reg.Keys
    ensures forall id :: id in reg ==>
      var (a, b) := (reg[id], Reconciled(reg, now)[id]);
      && b == a.(status := b.status)
      && (b.status != a.status <==> (a.status.Reserved? || a.status.Spawning?) && a.lease.Some? && a.lease.value <= now)
      && (b.status != a.status ==> b.status.Quarantined?)
    ensures Reconciled(Reconciled(reg, now), now) == Reconciled(reg, now)
    ensures Free(Reconciled(reg, now), key, BLOCKING) <==> Free(reg, key, BLOCKING)
  {
    var after := Reconciled(reg, now);
    if Free(after, key, BLOCKING) {
      forall x | x in reg && reg[x].key == key ensures reg[x].status !in BLOCKING {
        assert after[x].key == key && after[x].status !in BLOCKING;
      }
    }
  }

  /** A launch that is or was active carries its termination handle; while managed it has no lease;
      before that it has one. */
  predicate Managed(l: Launch) {
    && (l.status in {Active, Terminating, Terminated} ==> l.handle.Some?)
    && (l.status in {Active, Terminating} ==> l.lease.None?)
    && (l.status in {Reserved, Spawning} ==> l.lease.Some?)
  }

  ghost predicate AllManaged(reg: Registry) {
    forall id :: id in reg ==> Managed(reg[id])
  }
}
