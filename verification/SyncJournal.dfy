/** The journal as the sync repository hands it out, cut into chunk files. */
module SyncJournal {
  import opened Options
  import opened SyncTypes
  import ChunkNames

  /** A chunk file name, `mutation_{timestamp}_{index}`. */
  datatype ChunkId = ChunkId(timestamp: nat, index: nat)

  datatype Chunk = Chunk(id: ChunkId, body: seq<Mutation>)

  function ChunkName(c: Chunk): string {
    ChunkNames.Name(ChunkNames.INCREMENTAL, c.id.timestamp, c.id.index)
  }

  ghost predicate Increasing(j: seq<Mutation>) {
    && (forall i {:trigger j[i]} :: 0 <= i < |j| ==> 0 < j[i].seqno)
    && (forall i, k {:trigger j[i], j[k]} :: 0 <= i < k < |j| ==> j[i].seqno < j[k].seqno)
  }

  /** The latest sequence number, or 0 when there is none. */
  function MaxSeq(ms: seq<Mutation>): nat {
    if ms == [] then 0 else Max(MaxSeq(ms[..|ms| - 1]), ms[|ms| - 1].seqno)
  }

  /** The entries after `w` (exclusive), in order. */
  function Since(j: seq<Mutation>, w: nat): seq<Mutation> {
    if j == [] then []
    else Since(j[..|j| - 1], w) + if j[|j| - 1].seqno > w then [j[|j| - 1]] else []
  }

  /** How many entries are at or below `w`. */
  function Cut(j: seq<Mutation>, w: nat): (n: nat)
    ensures n <= |j|
  {
    if j == [] then 0 else if j[|j| - 1].seqno <= w then |j| else Cut(j[..|j| - 1], w)
  }

  lemma IncreasingPrefix(j: seq<Mutation>, n: nat)
    requires Increasing(j) && n <= |j|
    ensures Increasing(j[..n])
  {
  }

  lemma {:induction false} MaxSeqIsLast(j: seq<Mutation>)
    requires Increasing(j) && j != []
    ensures MaxSeq(j) == j[|j| - 1].seqno
  {
    if |j| > 1 {
      IncreasingPrefix(j, |j| - 1);
      MaxSeqIsLast(j[..|j| - 1]);
    }
  }

  lemma {:induction false} CutSplits(j: seq<Mutation>, w: nat)
    requires Increasing(j)
    ensures forall i {:trigger j[i]} :: 0 <= i < |j| ==> (j[i].seqno <= w <==> i < Cut(j, w))
  {
    if j != [] {
      IncreasingPrefix(j, |j| - 1);
      CutSplits(j[..|j| - 1], w);
      forall i | 0 <= i < |j| ensures j[i].seqno <= w <==> i < Cut(j, w) {
        if i < |j| - 1 {
          assert j[i] == j[..|j| - 1][i];
        }
      }
    }
  }

  /** What the repository returns is the part of the journal past the cut. */
  lemma {:induction false} SinceIsSuffix(j: seq<Mutation>, w: nat)
    requires Increasing(j)
    ensures Since(j, w) == j[Cut(j, w)..]
  {
    if j != [] {
      var p, m := j[..|j| - 1], j[|j| - 1];
      IncreasingPrefix(j, |j| - 1);
      SinceIsSuffix(p, w);
      CutOneMore(j, w);
      hide Since, Cut, Increasing;
      assert p + [m] == j;
    }
  }

  lemma CutOneMore(j: seq<Mutation>, w: nat)
    requires Increasing(j) && j != []
    ensures var p, m := j[..|j| - 1], j[|j| - 1];
      if m.seqno <= w then Cut(p, w) == |p| && Cut(j, w) == |j| && Since(j, w) == Since(p, w)
      else Cut(j, w) == Cut(p, w) && Since(j, w) == Since(p, w) + [m]
  {
    var p := j[..|j| - 1];
    if p != [] {
      assert p[|p| - 1] == j[|p| - 1];
    }
  }

  /** After 0 there is everything. */
  lemma SinceStart(j: seq<Mutation>)
    requires Increasing(j)
    ensures Since(j, 0) == j
  {
    SinceIsSuffix(j, 0);
    CutSplits(j, 0);
    if j != [] {
      assert j[0].seqno > 0;
    }
  }

  lemma CutMonotone(j: seq<Mutation>, v: nat, w: nat)
    requires Increasing(j) && v <= w
    ensures Cut(j, v) <= Cut(j, w)
  {
    CutSplits(j, v);
    CutSplits(j, w);
  }

  lemma CutAtLatest(j: seq<Mutation>)
    requires Increasing(j)
    ensures Cut(j, MaxSeq(j)) == |j|
  {
    if j != [] {
      MaxSeqIsLast(j);
    }
  }

  /** A later entry does not move an earlier cut. */
  lemma CutSnoc(j: seq<Mutation>, m: Mutation, w: nat)
    requires w < m.seqno
    ensures Cut(j + [m], w) == Cut(j, w)
  {
    assert (j + [m])[..|j + [m]| - 1] == j;
  }

  lemma IncreasingSnoc(j: seq<Mutation>, m: Mutation)
    requires Increasing(j) && MaxSeq(j) < m.seqno
    ensures Increasing(j + [m]) && MaxSeq(j + [m]) == m.seqno
  {
    assert (j + [m])[..|j + [m]| - 1] == j && (j + [m])[|j|] == m;
    if j != [] {
      MaxSeqIsLast(j);
      hide MaxSeq;
      forall i | 0 <= i < |j| ensures (j + [m])[i].seqno < m.seqno {
        assert (j + [m])[i] == j[i] && (i < |j| - 1 ==> j[i].seqno < j[|j| - 1].seqno);
      }
    }
  }

  lemma {:induction false} MaxSeqConcat(a: seq<Mutation>, b: seq<Mutation>)
    ensures MaxSeq(a + b) == Max(MaxSeq(a), MaxSeq(b))
  {
    if b == [] {
      assert a + b == a;
    } else {
      MaxSeqConcat(a, b[..|b| - 1]);
      assert (a + b)[..|a + b| - 1] == a + b[..|b| - 1];
    }
  }

  // Chunk files.

  function Flatten(cs: seq<Chunk>): seq<Mutation> {
    if cs == [] then [] else Flatten(cs[..|cs| - 1]) + cs[|cs| - 1].body
  }

  lemma {:induction false} FlattenConcat(a: seq<Chunk>, b: seq<Chunk>)
    ensures Flatten(a + b) == Flatten(a) + Flatten(b)
  {
    if b == [] {
      assert a + b == a;
    } else {
      var b', c := b[..|b| - 1], b[|b| - 1];
      FlattenConcat(a, b');
      assert (a + b)[..|a + b| - 1] == a + b' && (a + b)[|a + b| - 1] == c;
      hide Flatten;
      assert Flatten(a) + (Flatten(b') + c.body) == (Flatten(a) + Flatten(b')) + c.body;
    }
  }

  /** The chunks of `ms`, `size` mutations each but for the last, numbered from `index`. */
  function ChunksFrom(ms: seq<Mutation>, size: nat, now: nat, index: nat): seq<Chunk>
    requires size > 0
    decreases |ms|
  {
    if ms == [] then []
    else
      var n := Min(size, |ms|);
      [Chunk(ChunkId(now, index), ms[..n])] + ChunksFrom(ms[n..], size, now, index + 1)
  }

  /** Chunks partition what they were cut from; none is empty, all but the last are full, and each has its own
      number. */
  lemma ChunksPartition(ms: seq<Mutation>, size: nat, now: nat, index: nat)
    requires size > 0
    ensures Flatten(ChunksFrom(ms, size, now, index)) == ms
    ensures ms != [] ==> ChunksFrom(ms, size, now, index) != []
    ensures forall k {:trigger ChunksFrom(ms, size, now, index)[k]} :: 0 <= k < |ChunksFrom(ms, size, now, index)| ==>
      && 1 <= |ChunksFrom(ms, size, now, index)[k].body| <= size
      && (k < |ChunksFrom(ms, size, now, index)| - 1 ==> |ChunksFrom(ms, size, now, index)[k].body| == size)
      && ChunksFrom(ms, size, now, index)[k].id == ChunkId(now, index + k)
  {
    hide Flatten;
    ChunksFlatten(ms, size, now, index);
    ChunksAreFull(ms, size, now, index);
  }

  lemma {:induction false} ChunksFlatten(ms: seq<Mutation>, size: nat, now: nat, index: nat)
    requires size > 0
    ensures Flatten(ChunksFrom(ms, size, now, index)) == ms
    decreases |ms|
  {
    if ms != [] {
      var n := Min(size, |ms|);
      var head := [Chunk(ChunkId(now, index), ms[..n])];
      var tail := ChunksFrom(ms[n..], size, now, index + 1);
      ChunksFlatten(ms[n..], size, now, index + 1);
      FlattenConcat(head, tail);
      assert Flatten(head) == ms[..n] by {
        assert head[..0] == [];
      }
      hide Flatten;
      assert ms[..n] + ms[n..] == ms;
    }
  }

  lemma {:induction false} ChunksAreFull(ms: seq<Mutation>, size: nat, now: nat, index: nat)
    requires size > 0
    ensures ms != [] <==> ChunksFrom(ms, size, now, index) != []
    ensures forall k {:trigger ChunksFrom(ms, size, now, index)[k]} :: 0 <= k < |ChunksFrom(ms, size, now, index)| ==>
      && 1 <= |ChunksFrom(ms, size, now, index)[k].body| <= size
      && (k < |ChunksFrom(ms, size, now, index)| - 1 ==> |ChunksFrom(ms, size, now, index)[k].body| == size)
      && ChunksFrom(ms, size, now, index)[k].id == ChunkId(now, index + k)
    decreases |ms|
  {
    if ms != [] {
      var n := Min(size, |ms|);
      ChunksAreFull(ms[n..], size, now, index + 1);
      var tail := ChunksFrom(ms[n..], size, now, index + 1);
      assert ChunksFrom(ms, size, now, index) == [Chunk(ChunkId(now, index), ms[..n])] + tail;
    }
  }

  /** How many chunks an export writes: at most `n` exactly when the mutations fit into n chunks. */
  lemma {:induction false} ChunkCountIff(ms: seq<Mutation>, size: nat, now: nat, index: nat, n: nat)
    requires size > 0
    ensures |ChunksFrom(ms, size, now, index)| <= n <==> |ms| <= n * size
    decreases |ms|
  {
    if ms != [] {
      var k := Min(size, |ms|);
      if n > 0 {
        ChunkCountIff(ms[k..], size, now, index + 1, n - 1);
        assert n * size == (n - 1) * size + size;
        if |ms| <= size && n > 1 {
          TimesAtLeast(n - 1, size);
        }
      }
    } else {
      TimesAtLeast(n, size);
    }
  }

  lemma TimesAtLeast(n: nat, size: nat)
    ensures n * size >= 0
  {
  }
}
