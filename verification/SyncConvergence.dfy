/** At-least-once delivery: when replaying an overlapping window of a well-formed journal does no harm, and when not. */
module SyncConvergence {
  import opened Options
  import opened SyncTypes

  /** `s` and `t` say the same about row `k`. */
  predicate SameAt(s: Store, t: Store, k: string) {
    (k in s <==> k in t) && (k in s ==> s[k] == t[k])
  }

  /** Every row of `r` is as in `s` or as in `t`. */
  ghost predicate Between(r: Store, s: Store, t: Store) {
    forall k :: SameAt(r, s, k) || SameAt(r, t, k)
  }

  lemma BetweenOne(r: Store, s: Store)
    requires Between(r, s, s)
    ensures r == s
  {
    forall k | k in r.Keys ensures k in s && r[k] == s[k] {
      assert SameAt(r, s, k);
    }
    forall k | k in s.Keys ensures k in r {
      assert SameAt(r, s, k);
    }
  }

  predicate Deletes(m: Mutation, k: string) {
    m.op.Delete? && m.payload.Some? && m.payload.value.id == Some(k)
  }

  /** Row `k` is deleted by one of the entries from `i` up to `m`. */
  ghost predicate Doomed(j: seq<Mutation>, i: nat, m: nat, k: string) {
    exists d {:trigger j[d]} :: i <= d < m <= |j| && Deletes(j[d], k)
  }

  /** Row `k` of `r`, a replica on its way to `t` for the second time, while the source was at `s` after `i` entries. */
  ghost predicate Close(j: seq<Mutation>, i: nat, m: nat, r: Store, s: Store, t: Store, k: string) {
    || SameAt(r, s, k)
    || SameAt(r, t, k)
    || (Doomed(j, i, m, k) && (k in r ==> k in s && Keeps(j, r[k], s[k])))
  }

  ghost predicate AllClose(j: seq<Mutation>, i: nat, m: nat, r: Store, s: Store, t: Store) {
    forall k :: Close(j, i, m, r, s, t, k)
  }

  /** A unique key that another row wants stays with its row until the row is deleted. */
  lemma {:induction false} KeyStays(j: seq<Mutation>, i: nat, n: nat, other: Mutation)
    requires WellFormed(j) && Kept(j) && i < n <= |j| && Stores(j[i])
    requires other in j && Stores(other) && Built(other).id != Built(j[i]).id && Clash(Built(other), Built(j[i]))
    requires !Doomed(j, i + 1, n, Built(j[i]).id)
    ensures Built(j[i]).id in Replay(j[..n]) && Clash(Built(other), Replay(j[..n])[Built(j[i]).id])
    decreases n
  {
    hide Clash, Taken;
    var id, s, m := Built(j[i]).id, Replay(j[..n - 1]), j[n - 1];
    assert j[..n][..n - 1] == j[..n - 1];
    assert Legal(s, m) && KeepsOn(j, s, m);
    ReplayedRowsFrom(j, n - 1);
    if n - 1 > i {
      KeyStays(j, i, n - 1, other);
      assert !Deletes(m, id);
    }
  }

  /** So if the final state gives one of the entry's unique keys to another row, the entry's row is deleted later. */
  lemma HeldIsDoomed(j: seq<Mutation>, i: nat, m: nat, x: string)
    requires WellFormed(j) && Kept(j) && i < m <= |j| && Stores(j[i])
    requires x in Replay(j[..m]) && x != Built(j[i]).id && Clash(Replay(j[..m])[x], Built(j[i]))
    ensures Doomed(j, i + 1, m, Built(j[i]).id)
  {
    hide Clash, Replay, Doomed, Kept, WellFormed;
    var t := Replay(j[..m]);
    ReplayedRowsFrom(j, m);
    ReplayUnclashed(j[..m]);
    var other :| other in j && Stores(other) && Built(other) == t[x];
    assert Built(j[i]).id in t ==> !Clash(t[x], t[Built(j[i]).id]);
    if !Doomed(j, i + 1, m, Built(j[i]).id) {
      KeyStays(j, i, m, other);
    }
  }

  /** The heart of convergence: while the entries (w, i] are delivered again to a replica that is already at `m`,
      each row is where the source had it after i entries, or where the replica had it all along, or it is deleted
      before `m` and meanwhile holds no key that another row wants and the source's row has not. */
  lemma {:induction false} RedeliveryStaysClose(j: seq<Mutation>, w: nat, i: nat, m: nat)
    requires WellFormed(j) && Kept(j) && w <= i <= m <= |j|
    ensures AllClose(j, i, m, ApplyAll(Replay(j[..m]), j[w..i]), Replay(j[..i]), Replay(j[..m]))
    decreases i
  {
    hide Kept, RowsFrom, Apply, AllClose, Legal, KeepsOn, Doomed, Clash;
    var t := Replay(j[..m]);
    if i == w {
      assert j[w..i] == [];
      CloseItself(j, i, m, t, Replay(j[..i]));
    } else {
      RedeliveryStaysClose(j, w, i - 1, m);
      assert j[w..i][..|j[w..i]| - 1] == j[w..i - 1] && j[w..i][|j[w..i]| - 1] == j[i - 1];
      assert j[..i][..i - 1] == j[..i - 1] && j[..i][i - 1] == j[i - 1];
      var r, s, e := ApplyAll(t, j[w..i - 1]), Replay(j[..i - 1]), j[i - 1];
      assert Legal(s, e);
      assert KeepsOn(j, s, e) by {
        KeptAt(j, i - 1);
      }
      ReplayedRowsFrom(j, i - 1);
      ReplayedRowsFrom(j, m);
      DeliveredRowsFrom(t, j[w..i - 1], j);
      forall x | Stores(e) && x in t && x != Built(e).id && Clash(t[x], Built(e))
        ensures Doomed(j, i, m, Built(e).id)
      {
        HeldIsDoomed(j, i - 1, m, x);
      }
      StepStaysClose(j, i - 1, m, r, s, t);
    }
  }

  lemma KeptAt(j: seq<Mutation>, i: nat)
    requires Kept(j) && i < |j|
    ensures KeepsOn(j, Replay(j[..i]), j[i])
  {
  }

  lemma CloseItself(j: seq<Mutation>, i: nat, m: nat, r: Store, s: Store)
    ensures AllClose(j, i, m, r, s, r)
  {
    forall k ensures Close(j, i, m, r, s, r, k) {
      assert SameAt(r, r, k);
    }
  }

  lemma StepStaysClose(j: seq<Mutation>, i: nat, m: nat, r: Store, s: Store, t: Store)
    requires i < m <= |j| && AllClose(j, i, m, r, s, t) && Legal(s, j[i]) && KeepsOn(j, s, j[i])
    requires RowsFrom(r, j) && RowsFrom(s, j) && RowsFrom(t, j)
    requires forall x :: Stores(j[i]) && x in t && x != Built(j[i]).id && Clash(t[x], Built(j[i])) ==>
               Doomed(j, i + 1, m, Built(j[i]).id)
    ensures AllClose(j, i + 1, m, Apply(r, j[i]), Apply(s, j[i]), t)
  {
    hide AllClose;
    var n := i + 1;
    forall k ensures Close(j, n, m, Apply(r, j[i]), Apply(s, j[i]), t, k) {
      assert Close(j, i, m, r, s, t, k) by {
        CloseAt(j, i, m, r, s, t, k);
      }
      if Stores(j[i]) && Taken(r, Built(j[i])) {
        TakenIsDoomed(j, i, m, r, s, t);
      }
      StepStaysCloseAt(j, i, m, r, s, t, k);
    }
    AllCloseFrom(j, n, m, Apply(r, j[i]), Apply(s, j[i]), t);
  }

  lemma CloseAt(j: seq<Mutation>, i: nat, m: nat, r: Store, s: Store, t: Store, k: string)
    requires AllClose(j, i, m, r, s, t)
    ensures Close(j, i, m, r, s, t, k)
  {
  }

  lemma AllCloseFrom(j: seq<Mutation>, i: nat, m: nat, r: Store, s: Store, t: Store)
    requires forall k :: Close(j, i, m, r, s, t, k)
    ensures AllClose(j, i, m, r, s, t)
  {
  }

  /** Only a row that is already where the replica had it can stand in the way of an entry delivered again. */
  lemma TakenIsDoomed(j: seq<Mutation>, i: nat, m: nat, r: Store, s: Store, t: Store)
    requires i < m <= |j| && AllClose(j, i, m, r, s, t) && Legal(s, j[i]) && RowsFrom(r, j) && RowsFrom(s, j)
    requires Stores(j[i]) && Taken(r, Built(j[i]))
    requires forall x :: x in t && x != Built(j[i]).id && Clash(t[x], Built(j[i])) ==>
               Doomed(j, i + 1, m, Built(j[i]).id)
    ensures Doomed(j, i + 1, m, Built(j[i]).id)
  {
    hide Clash, Doomed;
    var o := Built(j[i]);
    var x :| x in r && x != o.id && Clash(r[x], o);
    assert Close(j, i, m, r, s, t, x);
    assert x in s ==> !Clash(s[x], o);
    ClashIsSymmetric(r[x], o);
    if x in s {
      ClashIsSymmetric(s[x], o);
    }
  }

  lemma StepStaysCloseAt(j: seq<Mutation>, i: nat, m: nat, r: Store, s: Store, t: Store, k: string)
    requires i < m <= |j| && Close(j, i, m, r, s, t, k) && Legal(s, j[i]) && KeepsOn(j, s, j[i])
    requires RowsFrom(r, j) && RowsFrom(s, j)
    requires Stores(j[i]) && Taken(r, Built(j[i])) ==> Doomed(j, i + 1, m, Built(j[i]).id)
    ensures Close(j, i + 1, m, Apply(r, j[i]), Apply(s, j[i]), t, k)
  {
    hide Taken, Keeps, Apply, RowsFrom;
    var e := j[i];
    if Deletes(e, k) {
      DeletedAt(r, e, k);
      DeletedAt(s, e, k);
    } else {
      if Doomed(j, i, m, k) {
        LaterDoomed(j, i, m, k);
      }
      hide Doomed;
      if Stores(e) && Built(e).id == k {
        StoredAt(r, e);
        StoredAt(s, e);
        if k in r && k in s {
          RowsHaveIds(r, j, k);
          KeepsOnward(j, r[k], s[k], Built(e));
        }
      } else {
        UntouchedAt(r, e, k);
        UntouchedAt(s, e, k);
      }
    }
  }

  lemma LaterDoomed(j: seq<Mutation>, i: nat, m: nat, k: string)
    requires i < |j| && Doomed(j, i, m, k) && !Deletes(j[i], k)
    ensures Doomed(j, i + 1, m, k)
  {
    var d :| i <= d < m && Deletes(j[d], k);
    assert d >= i + 1;
  }

  lemma RowsHaveIds(s: Store, j: seq<Mutation>, k: string)
    requires RowsFrom(s, j) && k in s
    ensures s[k].id == k
  {
  }

  lemma DeletedAt(s: Store, m: Mutation, k: string)
    requires Deletes(m, k)
    ensures k !in Apply(s, m)
  {
  }

  lemma UntouchedAt(s: Store, m: Mutation, k: string)
    requires !Deletes(m, k) && !(Stores(m) && Built(m).id == k)
    ensures SameAt(Apply(s, m), s, k)
  {
    hide Taken;
  }

  lemma StoredAt(s: Store, m: Mutation)
    requires Stores(m) && !Raises(m)
    ensures var k := Built(m).id;
      if Taken(s, Built(m)) || (m.op.Insert? && k in s) then Apply(s, m) == s
      else k in Apply(s, m) && Apply(s, m)[k] == Built(m)
  {
    hide Taken;
  }

  lemma KeepsOnward(j: seq<Mutation>, a: Observation, b: Observation, c: Observation)
    requires Keeps(j, b, c)
    ensures Keeps(j, a, b) ==> Keeps(j, a, c)
  {
    hide Clash;
  }

  /** At the end nothing is left to be deleted. */
  lemma CloseToEnd(j: seq<Mutation>, m: nat, r: Store, s: Store)
    requires AllClose(j, m, m, r, s, s)
    ensures r == s
  {
    forall k ensures SameAt(r, s, k) {
      assert Close(j, m, m, r, s, s, k);
    }
    assert Between(r, s, s);
    BetweenOne(r, s);
  }

  /** Delivering (w, m2] to a replica that has already reached m1 leaves it exactly where the source is at m2, when
      no row gives up, otherwise than by its deletion, a unique key that another row ever wants. */
  lemma {:induction false} OverlapConverges(j: seq<Mutation>, w: nat, m1: nat, m2: nat)
    requires WellFormed(j) && Kept(j) && w <= m1 <= m2 <= |j|
    ensures ApplyAll(Replay(j[..m1]), j[w..m2]) == Replay(j[..m2])
  {
    hide Apply, ApplyAll, WellFormed, Kept;
    RedeliveryStaysClose(j, w, m1, m1);
    CloseToEnd(j, m1, ApplyAll(Replay(j[..m1]), j[w..m1]), Replay(j[..m1]));
    assert j[w..m2] == j[w..m1] + j[m1..m2];
    ApplyAllConcat(Replay(j[..m1]), j[w..m1], j[m1..m2]);
    assert j[..m2] == j[..m1] + j[m1..m2];
    ApplyAllConcat(map[], j[..m1], j[m1..m2]);
  }

  /** A window (from, to] of the journal, as one export delivers it. */
  datatype Window = Window(from: nat, to: nat)

  function Reach(ws: seq<Window>): nat {
    if ws == [] then 0 else ws[|ws| - 1].to
  }

  /** No window starts beyond what has been delivered, and none ends before it. */
  ghost predicate Schedule(ws: seq<Window>, n: nat) {
    forall i {:trigger ws[i]} :: 0 <= i < |ws| ==> ws[i].from <= Reach(ws[..i]) <= ws[i].to <= n
  }

  function Deliver(s: Store, j: seq<Mutation>, ws: seq<Window>): Store
    requires forall i {:trigger ws[i]} :: 0 <= i < |ws| ==> ws[i].from <= ws[i].to <= |j|
  {
    if ws == [] then s
    else
      var w := ws[|ws| - 1];
      ApplyAll(Deliver(s, j, ws[..|ws| - 1]), j[w.from..w.to])
  }

  /** Whatever overlapping windows are delivered, an empty replica ends at the source's state. */
  lemma {:induction false} ScheduleConverges(j: seq<Mutation>, ws: seq<Window>)
    requires WellFormed(j) && Kept(j) && Schedule(ws, |j|)
    ensures Reach(ws) <= |j| && Deliver(map[], j, ws) == Replay(j[..Reach(ws)])
  {
    hide Apply, WellFormed, Kept;
    if ws == [] {
      assert j[..0] == [];
    } else {
      var n := |ws| - 1;
      forall i | 0 <= i < n ensures ws[..n][i].from <= Reach(ws[..n][..i]) <= ws[..n][i].to <= |j| {
        assert ws[..n][..i] == ws[..i];
        assert ws[..n][i] == ws[i];
      }
      ScheduleConverges(j, ws[..n]);
      OverlapConverges(j, ws[n].from, Reach(ws[..n]), ws[n].to);
    }
  }

  /** A stale window that ends before what was delivered is different: it can bring a deleted row back.
      Chunk ids, recorded on import, are what keeps that from happening. */
  lemma StaleWindowResurrects(o: Observation)
    returns (j: seq<Mutation>)
    requires o.Constructible()
    ensures WellFormed(j) && Owned(j) && |j| == 2
    ensures o.id !in Replay(j) && o.id in ApplyAll(Replay(j), j[0..1])
  {
    var p := Payload(Some(o.id), Some(o.timestamp), Some(o.content), o.metadata, o.idempotencyKey, o.project, o.kind,
                     o.topicKey, Some(o.revisionCount), o.sessionId);
    var put := Mutation(1, o.id, Insert, Some(p), "", 0);
    var del := Mutation(2, o.id, Delete, Some(p), "", 0);
    assert Built(put) == o;
    hide WellFormed, Clash;
    WellFormedSnoc([], put);
    assert [] + [put] == [put];
    ApplyAllSnoc(map[], [], put);
    WellFormedSnoc([put], del);
    j := [put] + [del];
    ApplyAllSnoc(map[], [put], del);
    assert j[0..1] == [put];
    ApplyAllSnoc(Replay(j), [], put);
  }
}
