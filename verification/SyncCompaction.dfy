/** Compaction: rebuilding the observations changed since a watermark from the journal alone. */
module SyncCompaction {
  import opened Options
  import opened SyncTypes
  import opened SyncJournal
  import opened SyncConvergence
  import opened SyncRecorder

  /** Entry `m` decides the fate of key `k` for this project filter (an empty project means no filter). */
  predicate Touches(m: Mutation, k: string, project: string) {
    m.key == k && (project == "" || m.project == project) && (m.op.Delete? || m.payload.Some?)
  }

  /** `ms[i]` is the last entry that decides the fate of `k`. */
  predicate LastFor(ms: seq<Mutation>, i: nat, k: string, project: string) {
    i < |ms| && Touches(ms[i], k, project) && forall l :: i < l < |ms| ==> !Touches(ms[l], k, project)
  }

  /** The last entry for `k` is not a delete. */
  ghost predicate Survives(ms: seq<Mutation>, k: string, project: string) {
    exists i: nat :: LastFor(ms, i, k, project) && !ms[i].op.Delete?
  }

  /** The first half of the reconstruction: the last payload of every key not deleted after it. */
  method CollectPayloads(journal: seq<Mutation>, sinceSeq: nat, project: string)
    returns (data: map<string, Payload>, maxSeq: nat)
    ensures forall k :: k in data <==> Survives(Since(journal, sinceSeq), k, project)
    ensures forall i: nat, k {:trigger LastFor(Since(journal, sinceSeq), i, k, project)} ::
        LastFor(Since(journal, sinceSeq), i, k, project) && !Since(journal, sinceSeq)[i].op.Delete? ==>
          k in data && data[k] == Since(journal, sinceSeq)[i].payload.value
    ensures maxSeq == Max(sinceSeq, MaxSeq(Since(journal, sinceSeq)))
  {
    var mutations := Since(journal, sinceSeq);
    data, maxSeq := map[], sinceSeq;
    for n := 0 to |mutations|
      invariant Collected(data, mutations[..n], project)
      invariant maxSeq == Max(sinceSeq, MaxSeq(mutations[..n]))
    {
      var m := mutations[n];
      assert mutations[..n + 1] == mutations[..n] + [m];
      assert mutations[..n + 1][..n] == mutations[..n];
      CollectedSnoc(data, mutations[..n], m, project);
      maxSeq := Max(maxSeq, m.seqno);
      if project != "" && m.project != project {
        continue;
      }
      if m.op == Delete {
        data := data - {m.key};
      } else if m.payload.Some? {
        data := data[m.key := m.payload.value];
      }
    }
    assert mutations[..|mutations|] == mutations;
  }

  // The project filter.

  /** The entries recorded for one project. */
  function OfProject(ms: seq<Mutation>, project: string): seq<Mutation> {
    if ms == [] then []
    else
      var m := ms[|ms| - 1];
      OfProject(ms[..|ms| - 1], project) + if m.project == project then [m] else []
  }

  /** The last entry that decides the fate of `k`, if any. */
  function LastOf(ms: seq<Mutation>, k: string, project: string): Option<Mutation> {
    if ms == [] then None
    else if Touches(ms[|ms| - 1], k, project) then Some(ms[|ms| - 1])
    else LastOf(ms[..|ms| - 1], k, project)
  }

  lemma {:induction false} LastOfIs(ms: seq<Mutation>, k: string, project: string)
    ensures forall i: nat :: LastFor(ms, i, k, project) ==> LastOf(ms, k, project) == Some(ms[i])
    ensures LastOf(ms, k, project).Some? ==>
      exists i: nat :: LastFor(ms, i, k, project) && ms[i] == LastOf(ms, k, project).value
  {
    if ms != [] {
      hide Touches;
      var n := |ms| - 1;
      var p := ms[..n];
      if Touches(ms[n], k, project) {
        assert LastFor(ms, n, k, project);
      } else {
        LastOfIs(p, k, project);
        assert forall l :: 0 <= l < n ==> p[l] == ms[l];
        forall i: nat ensures LastFor(ms, i, k, project) <==> LastFor(p, i, k, project) {
          assert LastFor(p, i, k, project) ==> forall l :: i < l < n ==> !Touches(ms[l], k, project);
        }
      }
    }
  }

  lemma LastOfSnoc(ms: seq<Mutation>, m: Mutation, k: string)
    ensures LastOf(ms + [m], k, "") == if Touches(m, k, "") then Some(m) else LastOf(ms, k, "")
  {
    assert (ms + [m])[..|ms|] == ms;
  }

  /** With a project filter compaction is that of the entries recorded for the project. */
  lemma {:induction false} FilterIsProject(ms: seq<Mutation>, k: string, project: string)
    requires project != ""
    ensures LastOf(ms, k, project) == LastOf(OfProject(ms, project), k, "")
  {
    if ms != [] {
      var n := |ms| - 1;
      FilterIsProject(ms[..n], k, project);
      var kept := OfProject(ms[..n], project);
      if ms[n].project == project {
        LastOfSnoc(kept, ms[n], k);
      } else {
        assert OfProject(ms, project) == kept;
      }
    }
  }

  /** A deletion is recorded without the row's project, so that a filtered compaction overlooks it: any row of a project
      that was created and deleted survives there, though not without the filter. */
  lemma FilterResurrects(o: Observation, at: int)
    requires o.Constructible() && at >= 0 && o.project.Some?
    ensures var h := [Put(o, at), Remove(o.id, at)];
      var ms := Journal(h, RecordedPayload);
      && History(h) && RowsAfter(h) == map[]
      && Survives(ms, o.id, o.project.value) && !Survives(ms, o.id, "")
  {
    var h := [Put(o, at), Remove(o.id, at)];
    PutThenRemoved(o, at);
    NotEmpty(o);
    hide RowsAfter, Accepted, History, Journal;
    var ms := Journal(h, RecordedPayload);
    JournalPrefix(h, RecordedPayload, 0);
    JournalPrefix(h, RecordedPayload, 1);
    assert |ms| == 2 && ms[1].op.Delete? && ms[1].key == o.id && ms[1].project == "";
    assert LastFor(ms, 0, o.id, o.project.value);
    LastOfIs(ms, o.id, "");
    assert LastFor(ms, 1, o.id, "");
  }

  lemma PutThenRemoved(o: Observation, at: int)
    requires o.Constructible() && at >= 0
    ensures var h := [Put(o, at), Remove(o.id, at)]; History(h) && RowsAfter(h) == map[]
  {
    var h, one := [Put(o, at), Remove(o.id, at)], map[o.id := Row(o, at)];
    assert h[..0] == [] && h[..1] == [Put(o, at)] && [Put(o, at)][..0] == [];
    assert RowsAfter(h[..1]) == Changed(map[], h[0]) == one;
    assert RowsAfter(h) == Changed(one, h[1]) == map[];
    PutAccepted(map[], o, at);
    assert Accepted(one, h[1]);
    forall i | 0 <= i < |h| ensures Accepted(RowsAfter(h[..i]), h[i]) {
      assert i == 0 || i == 1;
    }
  }

  lemma NotEmpty(o: Observation)
    requires o.Constructible() && o.project.Some?
    ensures o.project.value != ""
  {
  }

  ghost predicate Collected(data: map<string, Payload>, ms: seq<Mutation>, project: string) {
    && (forall k :: k in data ==> Survives(ms, k, project))
    && (forall i: nat, k {:trigger LastFor(ms, i, k, project)} ::
          LastFor(ms, i, k, project) && !ms[i].op.Delete? ==> k in data && data[k] == ms[i].payload.value)
  }

  lemma CollectedSnoc(data: map<string, Payload>, ms: seq<Mutation>, m: Mutation, project: string)
    requires Collected(data, ms, project)
    ensures !Touches(m, m.key, project) ==> Collected(data, ms + [m], project)
    ensures Touches(m, m.key, project) && m.op.Delete? ==> Collected(data - {m.key}, ms + [m], project)
    ensures Touches(m, m.key, project) && !m.op.Delete? ==>
        Collected(data[m.key := m.payload.value], ms + [m], project)
  {
    var ms' := ms + [m];
    var data' :=
      if !Touches(m, m.key, project) then data
      else if m.op.Delete? then data - {m.key} else data[m.key := m.payload.value];
    forall k | k in data' ensures Survives(ms', k, project) {
      if Touches(m, k, project) {
        assert LastFor(ms', |ms|, k, project);
      } else {
        var i: nat :| LastFor(ms, i, k, project) && !ms[i].op.Delete?;
        assert LastFor(ms', i, k, project);
      }
    }
    forall i: nat, k | LastFor(ms', i, k, project) && !ms'[i].op.Delete?
      ensures k in data' && data'[k] == ms'[i].payload.value
    {
      if i < |ms| {
        assert !Touches(ms'[|ms|], k, project);
        assert LastFor(ms, i, k, project) by {
          forall l | i < l < |ms| ensures !Touches(ms[l], k, project) {
            assert ms'[l] == ms[l];
          }
        }
      }
    }
  }

  /** The observation the snapshot export builds from a payload: here a missing timestamp becomes 0. */
  function SnapshotRebuild(key: string, p: Payload): Observation {
    Observation(p.id.GetOr(key), p.timestamp.GetOr(0), p.content.GetOr(""), p.metadata, p.idempotencyKey, p.project,
                if p.kind.Some? && p.kind.value.Disallowed? then None else p.kind,
                p.topicKey, p.revisionCount.GetOr(1), p.sessionId)
  }

  /** The entity refuses the last payload of `k`. */
  predicate Refused(ms: seq<Mutation>, i: nat, k: string, project: string) {
    && LastFor(ms, i, k, project)
    && !ms[i].op.Delete?
    && !SnapshotRebuild(k, ms[i].payload.value).Constructible()
  }

  /** The whole reconstruction; None when a payload is one the entity refuses.
      The list the source returns is modelled by the key each observation was collected under. */
  method ReconstructFromMutations(journal: seq<Mutation>, sinceSeq: nat, project: string)
    returns (observations: Option<map<string, Observation>>, maxSeq: nat)
    ensures observations.Some? ==>
        forall k :: k in observations.value <==> Survives(Since(journal, sinceSeq), k, project)
    ensures observations.Some? ==>
        forall i: nat, k {:trigger LastFor(Since(journal, sinceSeq), i, k, project)} ::
          LastFor(Since(journal, sinceSeq), i, k, project) && !Since(journal, sinceSeq)[i].op.Delete? ==>
            k in observations.value
            && observations.value[k] == SnapshotRebuild(k, Since(journal, sinceSeq)[i].payload.value)
    ensures observations.None? <==>
        exists i: nat, k :: Refused(Since(journal, sinceSeq), i, k, project)
    ensures maxSeq == Max(sinceSeq, MaxSeq(Since(journal, sinceSeq)))
  {
    var data;
    data, maxSeq := CollectPayloads(journal, sinceSeq, project);
    ghost var ms := Since(journal, sinceSeq);
    var built: map<string, Observation>, todo := map[], data.Keys;
    while todo != {}
      invariant todo <= data.Keys && built.Keys == data.Keys - todo
      invariant forall k :: k in built ==> built[k] == SnapshotRebuild(k, data[k]) && built[k].Constructible()
      decreases todo
    {
      var k :| k in todo;
      var o := SnapshotRebuild(k, data[k]);
      if !o.Constructible() {
        ghost var i: nat :| LastFor(ms, i, k, project) && !ms[i].op.Delete?;
        assert Refused(ms, i, k, project);
        return None, maxSeq;
      }
      built, todo := built[k := o], todo - {k};
    }
    observations := Some(built);
  }

  // Compaction against replay.

  /** The last entry for each journal key. */
  function LastEntries(ms: seq<Mutation>): map<string, Mutation> {
    if ms == [] then map[] else LastEntries(ms[..|ms| - 1])[ms[|ms| - 1].key := ms[|ms| - 1]]
  }

  /** No payload of a well-formed journal is one that the entity refuses: its compaction never raises. */
  lemma NeverRefused(j: seq<Mutation>, w: nat, i: nat, k: string, project: string)
    requires WellFormed(j) && Increasing(j)
    ensures !Refused(Since(j, w), i, k, project)
  {
    hide LastFor, Replay;
    SinceIsSuffix(j, w);
    var c := Cut(j, w);
    if i < |Since(j, w)| {
      assert Since(j, w)[i] == j[c + i];
      assert Legal(Replay(j[..c + i]), j[c + i]);
      if !j[c + i].op.Delete? {
        assert Built(j[c + i]).Constructible();
      }
    } else {
      assert !LastFor(Since(j, w), i, k, project) by {
        PastTheEnd(Since(j, w), i, k, project);
      }
    }
  }

  lemma PastTheEnd(ms: seq<Mutation>, i: nat, k: string, project: string)
    requires i >= |ms|
    ensures !LastFor(ms, i, k, project)
  {
  }

  /** The last entry for each row id. */
  function LastById(ms: seq<Mutation>): map<string, Mutation>
    requires Identified(ms)
  {
    if ms == [] then map[]
    else LastById(ms[..|ms| - 1])[ms[|ms| - 1].payload.value.id.value := ms[|ms| - 1]]
  }

  /** Entries name the row they change. */
  predicate Identified(ms: seq<Mutation>) {
    forall i :: 0 <= i < |ms| ==> ms[i].payload.Some? && ms[i].payload.value.id.Some?
  }

  /** Entries carry the id of the row they change as their key. */
  predicate Keyed(ms: seq<Mutation>) {
    forall i :: 0 <= i < |ms| ==> ms[i].payload.Some? && ms[i].payload.value.id == Some(ms[i].key)
  }

  lemma {:induction false} KeyedIsById(ms: seq<Mutation>)
    requires Keyed(ms)
    ensures Identified(ms) && LastEntries(ms) == LastById(ms)
  {
    if ms != [] {
      KeyedIsById(ms[..|ms| - 1]);
    }
  }

  lemma WellFormedIdentified(j: seq<Mutation>, c: nat)
    requires WellFormed(j) && c <= |j|
    ensures Identified(j[c..])
  {
    forall i | c <= i < |j| ensures j[i].payload.Some? && j[i].payload.value.id.Some? {
      assert Legal(Replay(j[..i]), j[i]);
    }
  }

  lemma LastForSnoc(ms: seq<Mutation>, i: nat, k: string)
    requires ms != [] && Identified(ms)
    ensures LastFor(ms, i, k, "") <==>
            if ms[|ms| - 1].key == k then i == |ms| - 1 else LastFor(ms[..|ms| - 1], i, k, "")
  {
    var n := |ms| - 1;
    assert Touches(ms[n], k, "") <==> ms[n].key == k;
    hide Touches;
    assert forall l :: 0 <= l < n ==> ms[..n][l] == ms[l];
  }

  /** LastEntries and LastFor agree. */
  lemma {:induction false} LastEntriesAreLast(ms: seq<Mutation>, k: string)
    requires Identified(ms)
    ensures k in LastEntries(ms) <==> exists i: nat :: LastFor(ms, i, k, "")
    ensures forall i: nat :: LastFor(ms, i, k, "") ==> k in LastEntries(ms) && LastEntries(ms)[k] == ms[i]
  {
    if ms != [] {
      var n := |ms| - 1;
      LastEntriesAreLast(ms[..n], k);
      forall i: nat
        ensures LastFor(ms, i, k, "") <==> if ms[n].key == k then i == n else LastFor(ms[..n], i, k, "")
        ensures LastFor(ms[..n], i, k, "") ==> i < n
      {
        LastForSnoc(ms, i, k);
      }
      hide LastFor;
      if ms[n].key == k {
        assert LastFor(ms, n, k, "");
      } else if i: nat :| LastFor(ms[..n], i, k, "") {
        assert LastFor(ms, i, k, "");
      }
    }
  }

  /** Where replay leaves row `k`, given the state at the watermark and the last entry for it since. */
  predicate Settled(k: string, before: Store, last: map<string, Mutation>, after: Store) {
    if k !in last || last[k].payload.None? then SameAt(after, before, k)
    else if last[k].op.Delete? then k !in after
    else k in after && after[k] == Rebuild(last[k], last[k].payload.value)
  }

  /** Replaying a window leaves each row as the last entry for its id says. */
  lemma {:induction false} LastEntriesSettle(j: seq<Mutation>, c: nat, n: nat, k: string)
    requires WellFormed(j) && c <= n <= |j| && Identified(j[c..n])
    ensures Settled(k, Replay(j[..c]), LastById(j[c..n]), Replay(j[..n]))
    decreases n
  {
    hide Apply, Legal, Settled;
    if n == c {
      assert j[c..n] == [];
      NothingSettles(k, Replay(j[..c]));
    } else {
      assert j[c..n][..|j[c..n]| - 1] == j[c..n - 1] && j[c..n][|j[c..n]| - 1] == j[n - 1];
      LastEntriesSettle(j, c, n - 1, k);
      var s, m := Replay(j[..n - 1]), j[n - 1];
      assert j[..n][..n - 1] == j[..n - 1];
      assert Legal(s, m);
      OneMoreSettles(k, Replay(j[..c]), LastById(j[c..n - 1]), s, m);
    }
  }

  lemma NothingSettles(k: string, s: Store)
    ensures Settled(k, s, map[], s)
  {
  }

  lemma OneMoreSettles(k: string, before: Store, last: map<string, Mutation>, s: Store, m: Mutation)
    requires Settled(k, before, last, s) && Legal(s, m)
    ensures Settled(k, before, last[m.payload.value.id.value := m], Apply(s, m))
  {
    hide Taken;
  }

  /** The state at the watermark, without the rows last deleted since, overlaid with the rebuilt rows. */
  ghost function Overlay(before: Store, last: map<string, Mutation>): Store
    requires forall k :: k in last ==> last[k].payload.Some?
  {
    (before - set k | k in last && last[k].op.Delete?)
    + map k | k in last && !last[k].op.Delete? :: SnapshotRebuild(k, last[k].payload.value)
  }

  lemma {:induction false} LastEntriesComeFrom(ms: seq<Mutation>)
    requires Identified(ms)
    ensures forall k :: k in LastEntries(ms) ==>
              LastEntries(ms)[k] in ms && LastEntries(ms)[k].key == k && LastEntries(ms)[k].payload.Some?
              && LastEntries(ms)[k].payload.value.id.Some?
  {
    if ms != [] {
      LastEntriesComeFrom(ms[..|ms| - 1]);
    }
  }

  /** The snapshot export and the replica build the same observation from this entry. */
  predicate SameRebuild(m: Mutation) {
    m.payload.Some? ==> SnapshotRebuild(m.key, m.payload.value) == Rebuild(m, m.payload.value)
  }

  /** They do exactly when the payload has a timestamp or the entry was created at time 0, and the type is allowed.
      The recorder never writes a timestamp. */
  lemma SameRebuildIff(m: Mutation)
    requires m.payload.Some?
    ensures SameRebuild(m) <==>
      (m.payload.value.timestamp.Some? || m.createdAt == 0)
      && !(m.payload.value.kind.Some? && m.payload.value.kind.value.Disallowed?)
  {
    var p := m.payload.value;
    var a, b := SnapshotRebuild(m.key, p), Rebuild(m, p);
    assert a.timestamp == b.timestamp <==> p.timestamp.Some? || m.createdAt == 0;
    assert a.kind == b.kind <==> !(p.kind.Some? && p.kind.value.Disallowed?);
  }

  /** Row by row: the overlay is right exactly where the last entry, if it is not a delete, is rebuilt the same. */
  lemma OverlayAt(k: string, before: Store, last: map<string, Mutation>, after: Store)
    requires forall x :: x in last ==> last[x].payload.Some? && last[x].key == x
    requires Settled(k, before, last, after)
    ensures SameAt(Overlay(before, last), after, k) <==> (k in last && !last[k].op.Delete? ==> SameRebuild(last[k]))
    ensures k in Overlay(before, last) <==> k in after
  {
  }

  /** Compaction against replay, for every well-formed journal keyed by row id and every watermark: overlaying the
      compacted window on the state at the watermark gives the current state if and only if the last entry of every
      changed row that was not deleted is rebuilt by both in the same way. The ids agree in any case. */
  lemma OverlayIsCurrentIff(j: seq<Mutation>, w: nat)
    requires WellFormed(j) && Increasing(j) && Keyed(j)
    ensures var last := LastEntries(Since(j, w));
      && (forall k :: k in last ==> last[k].payload.Some?)
      && Overlay(Replay(j[..Cut(j, w)]), last).Keys == Replay(j).Keys
      && (Overlay(Replay(j[..Cut(j, w)]), last) == Replay(j)
          <==> forall k :: k in last && !last[k].op.Delete? ==> SameRebuild(last[k]))
  {
    hide Apply, ApplyAll, WellFormed, Since, Cut, Overlay, Settled, SameAt, SameRebuild, LastEntries, LastById;
    var c := Cut(j, w);
    SinceIsSuffix(j, w);
    var ms, s := j[c..], Replay(j[..c]);
    var last := LastEntries(ms);
    KeyedIsById(ms);
    LastEntriesComeFrom(ms);
    assert j[c..|j|] == ms && j[..|j|] == j;
    forall k
      ensures SameAt(Overlay(s, last), Replay(j), k) <==> (k in last && !last[k].op.Delete? ==> SameRebuild(last[k]))
      ensures k in Overlay(s, last) <==> k in Replay(j)
    {
      LastEntriesSettle(j, c, |j|, k);
      OverlayAt(k, s, last, Replay(j));
    }
    SameEverywhereIff(Overlay(s, last), Replay(j));
  }

  lemma SameEverywhereIff(a: Store, b: Store)
    ensures a == b <==> forall k :: SameAt(a, b, k)
  {
    if forall k :: SameAt(a, b, k) {
      assert Between(a, b, b);
      BetweenOne(a, b);
    }
  }

  // The recorded journal.

  lemma RecordedIsKeyed(h: seq<Change>)
    requires forall i :: 0 <= i < |h| ==> !h[i].Upsert?
    ensures Keyed(Journal(h, RecordedPayload))
  {
    hide Journal;
    JournalPrefix(h, RecordedPayload, |h|);
    forall i | 0 <= i < |h|
      ensures Journal(h, RecordedPayload)[i].payload.Some?
      ensures Journal(h, RecordedPayload)[i].payload.value.id == Some(Journal(h, RecordedPayload)[i].key)
    {
      JournalPrefix(h, RecordedPayload, i);
    }
  }

  /** For what the recorder writes without upserts: the compacted window has the right rows, and they are right up to
      the timestamp, which is 0 in every changed row. */
  lemma RecordedOverlay(h: seq<Change>, w: nat)
    requires WellFormed(Journal(h, RecordedPayload)) && Increasing(Journal(h, RecordedPayload))
    requires forall i :: 0 <= i < |h| ==> !h[i].Upsert?
    ensures var j := Journal(h, RecordedPayload);
      var last := LastEntries(Since(j, w));
      && (forall k :: k in last ==> last[k].payload.Some?)
      && var o := Overlay(Replay(j[..Cut(j, w)]), last);
      && o.Keys == Replay(j).Keys
      && forall k :: k in o ==> o[k] == if k in last then Replay(j)[k].(timestamp := 0) else Replay(j)[k]
  {
    hide WellFormed, Since, Cut, Overlay, Settled, Replay, LastEntries, LastById, Journal, Increasing;
    var j := Journal(h, RecordedPayload);
    JournalPrefix(h, RecordedPayload, |h|);
    RecordedIsKeyed(h);
    OverlayIsCurrentIff(j, w);
    var c := Cut(j, w);
    SinceIsSuffix(j, w);
    var ms, s := j[c..], Replay(j[..c]);
    var last := LastEntries(ms);
    KeyedIsById(ms);
    LastEntriesComeFrom(ms);
    assert j[c..|j|] == ms && j[..|j|] == j;
    forall k | k in Overlay(s, last)
      ensures Overlay(s, last)[k] == if k in last then Replay(j)[k].(timestamp := 0) else Replay(j)[k]
    {
      LastEntriesSettle(j, c, |j|, k);
      if k in last {
        var i :| 0 <= i < |ms| && ms[i] == last[k];
        assert last[k] == j[c + i];
        RecordedEntry(h, c + i);
      }
      RecordedOverlayAt(k, s, last, Replay(j));
    }
  }

  /** The fields of a recorded entry that stores a row. */
  predicate FromRecorder(m: Mutation) {
    Stores(m) ==>
      var p := m.payload.value;
      p.timestamp.None? && !(p.kind.Some? && p.kind.value.Disallowed?)
  }

  lemma RecordedEntry(h: seq<Change>, i: nat)
    requires i < |h| == |Journal(h, RecordedPayload)|
    requires WellFormed(Journal(h, RecordedPayload))
    ensures FromRecorder(Journal(h, RecordedPayload)[i])
  {
    JournalPrefix(h, RecordedPayload, i);
    assert Legal(Replay(Journal(h, RecordedPayload)[..i]), Journal(h, RecordedPayload)[i]);
  }

  lemma RecordedOverlayAt(k: string, before: Store, last: map<string, Mutation>, after: Store)
    requires forall x :: x in last ==> last[x].payload.Some? && last[x].key == x
    requires Settled(k, before, last, after) && k in Overlay(before, last) && k in after
    requires k in last ==> FromRecorder(last[k])
    ensures Overlay(before, last)[k] == if k in last then after[k].(timestamp := 0) else after[k]
  {
  }

  // Keys that are not row ids.

  /** The rows that compaction rebuilds are live rows exactly when no surviving entry is for a row whose own last
      entry is a delete. With keys that are row ids this is always so. */
  lemma SurvivorsLiveIff(j: seq<Mutation>, w: nat)
    requires WellFormed(j) && Increasing(j)
    ensures var ms := Since(j, w);
      && Identified(ms)
      && ((forall k :: k in LastEntries(ms) && !LastEntries(ms)[k].op.Delete? ==>
             IdOf(LastEntries(ms)[k]) in Replay(j))
          <==> forall k :: k in LastEntries(ms) && !LastEntries(ms)[k].op.Delete? ==>
             IdOf(LastEntries(ms)[k]) in LastById(ms) && !LastById(ms)[IdOf(LastEntries(ms)[k])].op.Delete?)
      && (Keyed(ms) ==> forall k :: k in LastEntries(ms) && !LastEntries(ms)[k].op.Delete? ==>
             IdOf(LastEntries(ms)[k]) in Replay(j))
  {
    hide WellFormed, Increasing, Since, Cut, Replay, LastEntries, LastById, Settled, IdOf;
    var c := Cut(j, w);
    SinceIsSuffix(j, w);
    WellFormedIdentified(j, c);
    var ms := j[c..];
    assert j[c..|j|] == ms && j[..|j|] == j;
    LastEntriesComeFrom(ms);
    if Keyed(ms) {
      KeyedIsById(ms);
    }
    forall k | k in LastEntries(ms)
      ensures IdOf(LastEntries(ms)[k]) in LastById(ms)
      ensures IdOf(LastEntries(ms)[k]) in Replay(j) <==> !LastById(ms)[IdOf(LastEntries(ms)[k])].op.Delete?
      ensures Keyed(ms) ==> IdOf(LastEntries(ms)[k]) == k
    {
      var m := LastEntries(ms)[k];
      LastByIdHas(ms, m);
      LastEntriesSettle(j, c, |j|, IdOf(m));
      SettledLive(IdOf(m), Replay(j[..c]), LastById(ms), Replay(j));
      if Keyed(ms) {
        var i :| 0 <= i < |ms| && ms[i] == m;
        IdOfKeyed(m);
      }
    }
  }

  function IdOf(m: Mutation): string {
    if m.payload.Some? then m.payload.value.id.GetOr("") else ""
  }

  lemma IdOfKeyed(m: Mutation)
    requires m.payload.Some? && m.payload.value.id == Some(m.key)
    ensures IdOf(m) == m.key
  {
  }

  lemma {:induction false} LastByIdHas(ms: seq<Mutation>, m: Mutation)
    requires Identified(ms) && m in ms
    ensures IdOf(m) in LastById(ms) && forall k :: k in LastById(ms) ==> LastById(ms)[k].payload.Some?
  {
    var n := |ms| - 1;
    if m in ms[..n] {
      LastByIdHas(ms[..n], m);
    } else if n > 0 {
      LastByIdHas(ms[..n], ms[n - 1]);
      assert ms[..n][n - 1] == ms[n - 1];
    }
  }

  lemma SettledLive(k: string, before: Store, last: map<string, Mutation>, after: Store)
    requires Settled(k, before, last, after) && k in last && last[k].payload.Some?
    ensures k in after <==> !last[k].op.Delete?
  {
  }

  /** A topic-key upsert is recorded under its topic. When its row is deleted after that, the entry survives the
      compaction, which so brings the deleted row back, as an observation the entity accepts. */
  lemma TopicKeyResurrects(o: Observation, u: Observation, topic: string, at: int)
    requires o.Constructible() && u.Constructible() && at >= 0
    requires u.id == o.id && u.topicKey == Some(topic) && topic != o.id
    ensures var h := [Put(o, at), Upsert(u, at), Remove(o.id, at)];
      var j := Journal(h, RecordedPayload);
      && History(h) && RowsAfter(h) == map[] && WellFormed(j) && Replay(j) == map[]
      && Since(j, 0) == j && Survives(Since(j, 0), topic, "") && LastFor(Since(j, 0), 1, topic, "")
      && SnapshotRebuild(topic, Since(j, 0)[1].payload.value).Constructible()
      && SnapshotRebuild(topic, Since(j, 0)[1].payload.value).id == o.id
      && o.id !in Replay(j)
  {
    var h := [Put(o, at), Upsert(u, at), Remove(o.id, at)];
    UpsertedThenRemoved(o, u, at);
    var j := Journal(h, RecordedPayload);
    hide History, WellFormed, Replay, RowsAfter, Journal;
    JournalPrefix(h, RecordedPayload, 0);
    JournalPrefix(h, RecordedPayload, 1);
    JournalPrefix(h, RecordedPayload, 2);
    assert j[0].seqno == 1 && j[1].seqno == 2 && j[2].seqno == 3;
    SinceStart(j);
    assert j[1].key == topic && j[2].key == o.id && Stores(j[1]);
    assert LastFor(j, 1, topic, "");
    assert j[1].payload.value == RecordedPayload(u);
  }

  lemma UpsertedThenRemoved(o: Observation, u: Observation, at: int)
    requires o.Constructible() && u.Constructible() && at >= 0 && u.id == o.id && u.topicKey.Some?
    ensures var h := [Put(o, at), Upsert(u, at), Remove(o.id, at)];
      && History(h) && RowsAfter(h) == map[]
      && WellFormed(Journal(h, RecordedPayload)) && Replay(Journal(h, RecordedPayload)) == map[]
  {
    var h, one, two := [Put(o, at), Upsert(u, at), Remove(o.id, at)], map[o.id := Row(o, at)], map[o.id := Row(u, at)];
    assert h[..0] == [] && h[..1] == [Put(o, at)] && h[..2] == [Put(o, at), Upsert(u, at)] && h[..3] == h;
    assert h[..1][..0] == [] && h[..2][..1] == h[..1] && h[..3][..2] == h[..2];
    assert RowsAfter(h[..1]) == Changed(map[], h[0]) == one;
    assert RowsAfter(h[..2]) == Changed(one, h[1]) == two;
    assert RowsAfter(h) == Changed(two, h[2]) == map[];
    PutAccepted(map[], o, at);
    assert Accepted(one, h[1]) && Accepted(two, h[2]) by {
      hide Clash;
    }
    forall i | 0 <= i < |h| ensures Accepted(RowsAfter(h[..i]), h[i]) {
      assert i == 0 || i == 1 || i == 2;
    }
    forall n | 0 <= n <= |h| ensures OneRowPerTopic(RowsAfter(h[..n])) {
      assert n == 0 || n == 1 || n == 2 || n == 3;
    }
    hide RowsAfter, Accepted, Journal, WellFormed, Replay, OneRowPerTopic;
    RecordedPayloadReplicatesIff(h);
    assert Replay(Journal(h, RecordedPayload)).Keys == {};
  }
}
