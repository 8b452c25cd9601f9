/** Chunk files are named by the millisecond of their export, so an export that shares a millisecond with an
    earlier one overwrites its files. This is exactly when entries below the watermark are lost. */
module SyncOverwrite {
  import opened Options
  import opened SyncTypes
  import opened SyncJournal
  import opened SyncProtocol

  /** The file of chunk `i` was not overwritten by a later chunk. */
  ghost predicate Live(cs: seq<Chunk>, i: nat) {
    i < |cs| && forall k :: i < k < |cs| ==> cs[k].id != cs[i].id
  }

  /** Every mutation ever written is still in some file. */
  ghost predicate Kept(cs: seq<Chunk>) {
    forall m :: m in Flatten(cs) ==> exists i: nat :: Live(cs, i) && m in cs[i].body
  }

  ghost predicate HasZero(cs: seq<Chunk>, t: nat) {
    exists k :: 0 <= k < |cs| && cs[k].id == ChunkId(t, 0)
  }

  /** No chunk is empty, and every export that wrote chunks wrote number 0. */
  ghost predicate Numbered(cs: seq<Chunk>) {
    && (forall i {:trigger cs[i]} :: 0 <= i < |cs| ==> cs[i].body != [])
    && (forall i {:trigger HasZero(cs, cs[i].id.timestamp)} :: 0 <= i < |cs| ==> HasZero(cs, cs[i].id.timestamp))
  }

  lemma {:induction false} InFlatten(cs: seq<Chunk>, m: Mutation)
    ensures m in Flatten(cs) <==> exists i :: 0 <= i < |cs| && m in cs[i].body
  {
    if cs != [] {
      var n := |cs| - 1;
      InFlatten(cs[..n], m);
      if m in Flatten(cs[..n]) {
        var i :| 0 <= i < n && m in cs[..n][i].body;
        assert m in cs[i].body;
      }
      forall i | 0 <= i < n && m in cs[i].body ensures m in Flatten(cs) {
        assert m in cs[..n][i].body;
      }
    }
  }

  lemma AppendNumbered(a: seq<Chunk>, b: seq<Chunk>, now: nat)
    requires Numbered(a) && b != []
    requires forall k {:trigger b[k]} :: 0 <= k < |b| ==> b[k].id == ChunkId(now, k) && b[k].body != []
    ensures Numbered(a + b)
  {
    var c := a + b;
    assert c[|a|].id == ChunkId(now, 0) by {
      assert c[|a|] == b[0];
    }
    forall i | 0 <= i < |c| ensures c[i].body != [] && HasZero(c, c[i].id.timestamp) {
      if i < |a| {
        assert c[i] == a[i];
        assert HasZero(a, a[i].id.timestamp);
        var k :| 0 <= k < |a| && a[k].id == ChunkId(a[i].id.timestamp, 0);
        assert c[k].id == ChunkId(c[i].id.timestamp, 0);
      } else {
        assert c[i] == b[i - |a|];
      }
    }
  }

  lemma UnusedKeeps(c: seq<Chunk>)
    requires DistinctIds(c)
    ensures Kept(c)
  {
    forall m | m in Flatten(c) ensures exists i: nat :: Live(c, i) && m in c[i].body {
      InFlatten(c, m);
      var i :| 0 <= i < |c| && m in c[i].body;
      assert Live(c, i);
    }
  }

  /** A mutation that is in one chunk only is lost when a later chunk takes that chunk's name. */
  lemma ReuseLoses(c: seq<Chunk>, k: nat, l: nat, m: Mutation)
    requires k < l < |c| && c[k].id == c[l].id && m in c[k].body
    requires forall i :: 0 <= i < |c| && i != k ==> m !in c[i].body
    ensures !Kept(c)
  {
    InFlatten(c, m);
    assert !Live(c, k);
  }

  /** The files after an export at `now`: all kept if and only if no file of this millisecond existed. */
  lemma AppendKeepsIff(a: seq<Chunk>, b: seq<Chunk>, now: nat)
    requires DistinctIds(a) && Numbered(a) && b != []
    requires forall k {:trigger b[k]} :: 0 <= k < |b| ==> b[k].id == ChunkId(now, k)
    requires forall i, k {:trigger (a + b)[i], (a + b)[k]} ::
      0 <= i < k < |a + b| ==> forall m :: m in (a + b)[i].body ==> m !in (a + b)[k].body
    ensures Kept(a + b) <==> Unused(a, now)
  {
    hide Kept, Flatten;
    var c := a + b;
    if Unused(a, now) {
      AppendDistinct(a, b, now);
      UnusedKeeps(c);
    } else {
      var i :| 0 <= i < |a| && a[i].id.timestamp == now;
      assert HasZero(a, a[i].id.timestamp);
      var k :| 0 <= k < |a| && a[k].id == ChunkId(now, 0);
      var m := a[k].body[0];
      assert c[k] == a[k] && c[|a|] == b[0];
      forall l | 0 <= l < |c| && l != k ensures m !in c[l].body {
        var p, q := Min(l, k), Max(l, k);
        assert m in c[p].body ==> m !in c[q].body;
      }
      ReuseLoses(c, k, |a|, m);
    }
  }

  /** Chunks whose bodies, read in order, have growing sequence numbers share no mutation. */
  lemma {:induction false} DisjointBodies(cs: seq<Chunk>)
    requires Increasing(Flatten(cs))
    ensures forall i, k {:trigger cs[i], cs[k]} ::
      0 <= i < k < |cs| ==> forall m :: m in cs[i].body ==> m !in cs[k].body
  {
    if cs != [] {
      var n := |cs| - 1;
      var f := Flatten(cs[..n]);
      IncreasingPrefix(Flatten(cs), |f|);
      assert Flatten(cs)[..|f|] == f;
      DisjointBodies(cs[..n]);
      forall i, k | 0 <= i < k < |cs| ensures forall m :: m in cs[i].body ==> m !in cs[k].body {
        if k < n {
          assert cs[i] == cs[..n][i] && cs[k] == cs[..n][k];
        } else {
          HalvesDisjoint(f, cs[n].body);
          forall m | m in cs[i].body ensures m !in cs[n].body {
            assert m in cs[..n][i].body;
            InFlatten(cs[..n], m);
          }
        }
      }
    }
  }

  lemma HalvesDisjoint(a: seq<Mutation>, b: seq<Mutation>)
    requires Increasing(a + b)
    ensures forall m :: m in a ==> m !in b
  {
    forall p, q | 0 <= p < |a| && 0 <= q < |b| ensures a[p] != b[q] {
      assert (a + b)[p].seqno < (a + b)[|a| + q].seqno;
    }
  }

  lemma {:induction false} RunKeepsNumbered(steps: seq<Step>)
    requires Possible(steps)
    ensures Numbered(Run(steps).source.written)
  {
    if steps != [] {
      hide Apply, ApplyAll, WellFormed, SourceInv, Imported, Since, ChunksFrom, Flatten, MaxSeq;
      var s, a := Run(steps[..|steps| - 1]), steps[|steps| - 1];
      PossiblePrefix(steps, |steps| - 1);
      RunKeepsNumbered(steps[..|steps| - 1]);
      if a.Export? && a.chunkSize > 0 {
        var pending := Since(s.source.journal, s.source.watermark);
        if pending != [] {
          ChunksPartition(pending, a.chunkSize, a.now, 0);
          AppendNumbered(s.source.written, ChunksFrom(pending, a.chunkSize, a.now, 0), a.now);
        }
      }
    }
  }

  lemma ExportFilesIff(e: Exporter, who: nat, chunkSize: int, commit: bool, now: nat)
    requires Increasing(e.journal) && DistinctIds(e.written) && ExactlyOnce(e) && Numbered(e.written)
    requires chunkSize > 0 && Since(e.journal, e.watermark) != []
    ensures Kept(Exported(e, who, chunkSize, commit, now).written) <==> Unused(e.written, now)
  {
    hide ChunksFrom, Flatten, Since, Kept, Numbered, Unused, MaxSeq, Cut, DistinctIds;
    var w, pending := Cut(e.journal, e.watermark), Since(e.journal, e.watermark);
    SinceIsSuffix(e.journal, e.watermark);
    var b := ChunksFrom(pending, chunkSize, now, 0);
    ChunksPartition(pending, chunkSize, now, 0);
    FlattenConcat(e.written, b);
    assert e.journal == Flatten(e.written + b);
    DisjointBodies(e.written + b);
    AppendKeepsIff(e.written, b, now);
  }

  /** After any run whose exports all committed at once, an export with something to write keeps every written
      mutation on disk if and only if no chunk file of its millisecond exists. */
  lemma ExportKeepsFilesIff(steps: seq<Step>, who: nat, chunkSize: int, commit: bool, now: nat)
    requires Possible(steps) && NeverBack(steps) && forall i :: 0 <= i < |steps| ==> CommitsAtOnce(steps[i])
    requires chunkSize > 0 && Since(Run(steps).source.journal, Run(steps).source.watermark) != []
    ensures Kept(Exported(Run(steps).source, who, chunkSize, commit, now).written)
      <==> Unused(Run(steps).source.written, now)
  {
    hide Apply, ApplyAll, WellFormed, Flatten, Kept, Numbered, Unused, ExactlyOnce, MaxSeq, Cut, Exported, Since;
    RunKeepsSourceInv(steps);
    CommittedRunsExportOnce(steps);
    RunKeepsNumbered(steps);
    ExportFilesIff(Run(steps).source, who, chunkSize, commit, now);
  }
}
