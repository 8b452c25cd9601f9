/** A pull takes the chunk files in name order. When that is the order in which they were written, and what happens
    when it is not. */
module SyncNames {
  import opened Options
  import opened SyncTypes
  import opened SyncJournal
  import opened SyncProtocol
  import opened ChunkNames

  /** An export that writes chunks writes at most 1000, and its timestamp sorts after those of all chunks so far. */
  predicate ExportsInOrder(e: Exporter, a: Step) {
    a.Export? && a.chunkSize > 0 && Since(e.journal, e.watermark) != [] ==>
      && |Since(e.journal, e.watermark)| <= 1000 * a.chunkSize
      && forall i :: 0 <= i < |e.written| ==> Earlier(e.written[i].id.timestamp, a.now)
  }

  ghost predicate AlwaysInOrder(steps: seq<Step>) {
    forall i {:trigger Run(steps[..i])} :: 0 <= i < |steps| ==> ExportsInOrder(Run(steps[..i]).source, steps[i])
  }

  /** Over every run, name order is written order if and only if every export that wrote chunks wrote at most 1000 and
      had a timestamp that sorts after the earlier ones. */
  lemma {:induction false} NamesOverRunsIff(steps: seq<Step>)
    requires Possible(steps)
    ensures InNameOrder(Run(steps).source.written) <==> AlwaysInOrder(steps)
  {
    hide Next, SyncProtocol.Allowed, ExportsInOrder, InNameOrder;
    if steps == [] {
      EmptyInNameOrder();
    } else {
      var n := |steps| - 1;
      PossiblePrefix(steps, n);
      NamesOverRunsIff(steps[..n]);
      StepInNameOrderIff(Run(steps[..n]), steps[n]);
      AlwaysInOrderGrows(steps);
    }
  }

  lemma EmptyInNameOrder()
    ensures InNameOrder(START.source.written)
  {
  }

  lemma AlwaysInOrderGrows(steps: seq<Step>)
    requires steps != []
    ensures AlwaysInOrder(steps) <==>
            AlwaysInOrder(steps[..|steps| - 1]) && ExportsInOrder(Run(steps[..|steps| - 1]).source, steps[|steps| - 1])
  {
    hide ExportsInOrder, Run;
    var n := |steps| - 1;
    forall i | 0 <= i < n ensures steps[..n][..i] == steps[..i] && steps[..n][i] == steps[i] {
    }
    if AlwaysInOrder(steps) {
      assert ExportsInOrder(Run(steps[..n]).source, steps[n]);
      forall i | 0 <= i < n ensures ExportsInOrder(Run(steps[..n][..i]).source, steps[..n][i]) {
        assert ExportsInOrder(Run(steps[..i]).source, steps[i]);
      }
    }
    if AlwaysInOrder(steps[..n]) && ExportsInOrder(Run(steps[..n]).source, steps[n]) {
      forall i | 0 <= i < |steps| ensures ExportsInOrder(Run(steps[..i]).source, steps[i]) {
        if i < n {
          assert ExportsInOrder(Run(steps[..n][..i]).source, steps[..n][i]);
        }
      }
    }
  }

  lemma StepInNameOrderIff(s: System, a: Step)
    requires SyncProtocol.Allowed(s, a)
    ensures InNameOrder(Next(s, a).source.written) <==> InNameOrder(s.source.written) && ExportsInOrder(s.source, a)
  {
    hide Since, ChunksFrom, InNameOrder, Imported, Pulled, MaxSeq, Legal, Replay, Earlier;
    if a.Export? && a.chunkSize > 0 && Since(s.source.journal, s.source.watermark) != [] {
      var ms := Since(s.source.journal, s.source.watermark);
      var b := ChunksFrom(ms, a.chunkSize, a.now, 0);
      ChunksPartition(ms, a.chunkSize, a.now, 0);
      forall k | 0 <= k < |b| ensures b[k].id == ChunkId(a.now, k) {
        assert b[k] == ChunksFrom(ms, a.chunkSize, a.now, 0)[k];
      }
      ChunkCountIff(ms, a.chunkSize, a.now, 0, 1000);
      AppendInNameOrderIff(s.source.written, b, a.now);
    }
  }

  lemma AppendInNameOrderIff(a: seq<Chunk>, b: seq<Chunk>, now: nat)
    requires Unused(a, now) && b != [] && forall k :: 0 <= k < |b| ==> b[k].id == ChunkId(now, k)
    ensures InNameOrder(a + b) <==>
            InNameOrder(a) && |b| <= 1000 && forall i :: 0 <= i < |a| ==> Earlier(a[i].id.timestamp, now)
  {
    hide Less, Name, Earlier;
    OneExportInNameOrderIff(b, now);
    forall i, k | 0 <= i < |a| && 0 <= k < |b|
      ensures Less(ChunkName(a[i]), ChunkName(b[k])) <==> Earlier(a[i].id.timestamp, now)
    {
      OtherExport(INCREMENTAL, a[i].id.timestamp, a[i].id.index, now, k);
    }
    hide ChunkName;
    var c := a + b;
    if InNameOrder(c) {
      InNameOrderPrefix(a, c);
      forall i, k | 0 <= i < k < |b| ensures Less(ChunkName(b[i]), ChunkName(b[k])) {
        assert c[|a| + i] == b[i] && c[|a| + k] == b[k];
      }
      forall i | 0 <= i < |a| ensures Earlier(a[i].id.timestamp, now) {
        assert c[i] == a[i] && c[|a|] == b[0];
      }
    }
    if InNameOrder(a) && InNameOrder(b) && forall i :: 0 <= i < |a| ==> Earlier(a[i].id.timestamp, now) {
      forall i, k | 0 <= i < k < |c| ensures Less(ChunkName(c[i]), ChunkName(c[k])) {
        assert c[i] == if i < |a| then a[i] else b[i - |a|];
        assert c[k] == if k < |a| then a[k] else b[k - |a|];
      }
    }
  }

  /** The chunks of one export are in name order exactly when there are at most 1000. */
  lemma OneExportInNameOrderIff(b: seq<Chunk>, now: nat)
    requires forall k :: 0 <= k < |b| ==> b[k].id == ChunkId(now, k)
    ensures InNameOrder(b) <==> |b| <= 1000
  {
    hide Less, Name;
    NamesAscendIff(INCREMENTAL, now, |b|);
    forall k | 0 <= k < |b| ensures ChunkName(b[k]) == Name(INCREMENTAL, now, k) {
    }
    if InNameOrder(b) {
      forall i: nat, k: nat | i < k < |b| ensures Less(Name(INCREMENTAL, now, i), Name(INCREMENTAL, now, k)) {
        assert Less(ChunkName(b[i]), ChunkName(b[k]));
      }
    }
  }

  // Any well-formed journal can be recorded.

  function Recording(j: seq<Mutation>): seq<Step> {
    if j == [] then [] else Recording(j[..|j| - 1]) + [Record(j[|j| - 1])]
  }

  lemma {:induction false} JournalRuns(j: seq<Mutation>)
    requires WellFormed(j) && Increasing(j)
    ensures Possible(Recording(j))
    ensures Run(Recording(j)) == System(Exporter(j, 0, map[], []), START.replica)
  {
    hide Legal, Replay, WellFormed, Run, Possible, MaxSeq, Increasing, Recording;
    if j == [] {
      NothingRecorded();
    } else {
      var p, m := j[..|j| - 1], j[|j| - 1];
      WellFormedPrefix(j, |j| - 1);
      IncreasingPrefix(j, |j| - 1);
      JournalRuns(p);
      TopBelow(j);
      assert p + [m] == j;
      RunsOneMore(p, m);
    }
  }

  lemma NothingRecorded()
    ensures Possible(Recording([])) && Run(Recording([])) == START
  {
  }

  lemma RunsOneMore(j: seq<Mutation>, m: Mutation)
    requires Possible(Recording(j)) && Run(Recording(j)) == System(Exporter(j, 0, map[], []), START.replica)
    requires Legal(Replay(j), m) && MaxSeq(j) < m.seqno
    ensures Possible(Recording(j + [m]))
    ensures Run(Recording(j + [m])) == System(Exporter(j + [m], 0, map[], []), START.replica)
  {
    hide Legal, Replay, Run, Possible, MaxSeq, Next, SyncProtocol.Allowed;
    assert (j + [m])[..|j|] == j;
    RecordOne(Run(Recording(j)), m);
    PossibleExtends(Recording(j), Record(m));
    RunSnoc(Recording(j), Record(m));
  }

  lemma RecordOne(s: System, m: Mutation)
    requires Legal(Replay(s.source.journal), m) && MaxSeq(s.source.journal) < m.seqno
    ensures SyncProtocol.Allowed(s, Record(m))
    ensures Next(s, Record(m)) == s.(source := s.source.(journal := s.source.journal + [m]))
  {
  }

  lemma WellFormedPrefix(j: seq<Mutation>, n: nat)
    requires WellFormed(j) && n <= |j|
    ensures WellFormed(j[..n]) && (n < |j| ==> Legal(Replay(j[..n]), j[n]))
  {
    hide Legal, Replay;
    forall i | 0 <= i < n ensures Legal(Replay(j[..n][..i]), j[..n][i]) {
      assert j[..n][..i] == j[..i] && j[..n][i] == j[i];
      assert Legal(Replay(j[..i]), j[i]);
    }
    if n < |j| {
      assert Legal(Replay(j[..n]), j[n]);
    }
  }

  lemma TopBelow(j: seq<Mutation>)
    requires Increasing(j) && j != []
    ensures MaxSeq(j[..|j| - 1]) < j[|j| - 1].seqno
  {
    var p := j[..|j| - 1];
    if p != [] {
      MaxSeqIsLast(p);
      assert p[|p| - 1] == j[|p| - 1];
    }
  }

  // More than a thousand chunks.

  /** A mutation of a row without unique keys. */
  function Plain(seqno: nat, op: Op, id: string): Mutation {
    Mutation(seqno, id, op, Some(Payload(Some(id), Some(0), Some("note"), None, None, None, None, None, None, None)),
             "", 0)
  }

  /** Entry 101 inserts x, entry 1000 deletes it, and the others work on another row. */
  function Item(i: nat): Mutation {
    if i == 101 then Plain(i + 1, Insert, "x")
    else if i == 1000 then Plain(i + 1, Delete, "x")
    else Plain(i + 1, if i == 0 then Insert else Update, "y")
  }

  function Items(n: nat): seq<Mutation> {
    seq(n, i requires 0 <= i < n => Item(i))
  }

  function Rows(i: nat): Store {
    var x, y := Built(Plain(0, Insert, "x")), Built(Plain(0, Insert, "y"));
    if i == 0 then map[] else if 101 < i <= 1000 then map["y" := y, "x" := x] else map["y" := y]
  }

  lemma ItemSteps(i: nat)
    ensures Legal(Rows(i), Item(i)) && Apply(Rows(i), Item(i)) == Rows(i + 1)
  {
    var m := Item(i);
    assert Stores(m) ==> Built(m).Constructible() && !Taken(Rows(i), Built(m));
    hide Taken;
    if i == 1000 {
      assert Rows(i) - {"x"} == Rows(i + 1);
    } else if i == 101 {
      assert Rows(i)["x" := Built(m)] == Rows(i + 1);
    } else {
      assert Rows(i)["y" := Built(m)] == Rows(i + 1);
    }
  }

  lemma {:induction false} ItemsReplay(n: nat, i: nat)
    requires i <= n
    ensures Replay(Items(n)[..i]) == Rows(i)
    decreases i
  {
    if i == 0 {
      assert Items(n)[..0] == [];
    } else {
      hide Item, Rows, Apply;
      ItemsReplay(n, i - 1);
      ItemSteps(i - 1);
      assert Items(n)[..i][..i - 1] == Items(n)[..i - 1] && Items(n)[..i][i - 1] == Item(i - 1);
    }
  }

  lemma ItemsAreJournal(n: nat)
    ensures WellFormed(Items(n)) && Increasing(Items(n))
    ensures Replay(Items(n)) == Rows(n)
  {
    hide Rows, Legal, Replay;
    forall i | 0 <= i < n ensures Legal(Replay(Items(n)[..i]), Items(n)[i]) {
      ItemsReplay(n, i);
      ItemSteps(i);
    }
    ItemsReplay(n, n);
    assert Items(n)[..n] == Items(n);
  }

  /** With chunk size 1 every mutation gets a chunk of its own. */
  lemma {:induction false} SingleChunks(ms: seq<Mutation>, now: nat, index: nat)
    ensures |ChunksFrom(ms, 1, now, index)| == |ms|
    ensures forall k :: 0 <= k < |ms| ==> ChunksFrom(ms, 1, now, index)[k] == Chunk(ChunkId(now, index + k), [ms[k]])
    decreases |ms|
  {
    if ms != [] {
      SingleChunks(ms[1..], now, index + 1);
      assert ms[..1] == [ms[0]];
    }
  }

  /** Files in name order that hold such a journal: the deletion comes before the insertion. */
  ghost predicate Swapped(cs: seq<Chunk>, n: nat, now: nat) {
    && (forall i :: 0 <= i < |cs| ==>
          cs[i].id.timestamp == now && cs[i].id.index < n && cs[i].body == [Item(cs[i].id.index)])
    && (forall i, k :: 0 <= i < |cs| && 0 <= k < |cs| && cs[i].id.index == 1000 && cs[k].id.index == 101 ==> i < k)
  }

  lemma PulledIsSwapped(n: nat, now: nat)
    requires n > 1000
    ensures Swapped(Pulled(ChunksFrom(Items(n), 1, now, 0)), n, now)
    ensures exists c :: c in Pulled(ChunksFrom(Items(n), 1, now, 0)) && c.id == ChunkId(now, 101)
  {
    hide Less, Name, Item, SortBy;
    var written := ChunksFrom(Items(n), 1, now, 0);
    var cs := Pulled(written);
    SingleChunks(Items(n), now, 0);
    SortIsAscending(ChunkName, written);
    forall i | 0 <= i < |cs|
      ensures cs[i].id.timestamp == now && cs[i].id.index < n && cs[i].body == [Item(cs[i].id.index)]
    {
      assert cs[i] in multiset(written);
      var k :| 0 <= k < |written| && written[k] == cs[i];
    }
    forall i, k | 0 <= i < |cs| && 0 <= k < |cs| && cs[i].id.index == 1000 && cs[k].id.index == 101 ensures i < k {
      ThousandDescends(INCREMENTAL, now);
      SmallerComesFirst(ChunkName, cs, i, k);
    }
    assert written[101] in multiset(cs);
    assert written[101] in cs && written[101].id == ChunkId(now, 101);
  }

  /** While such files are imported into a fresh replica, x is there from chunk 101 on. */
  lemma {:induction false} RowSurvives(cs: seq<Chunk>, n: nat, now: nat, k: nat)
    requires Swapped(cs, n, now) && k <= |cs|
    ensures var r := Imported(START.replica, cs[..k]);
      && !r.1
      && (ChunkId(now, 101) in r.0.seen ==> "x" in r.0.rows)
      && (forall id :: id in r.0.seen ==> exists i :: 0 <= i < k && cs[i].id == id)
  {
    if k == 0 {
      assert cs[..0] == [];
    } else {
      RowSurvives(cs, n, now, k - 1);
      var c, r := cs[k - 1], Imported(START.replica, cs[..k - 1]).0;
      assert cs[..k][..k - 1] == cs[..k - 1] && cs[..k][k - 1] == c;
      hide Swapped, Item, Apply, Imported;
      if c.id in r.seen {
        StepImports(r, cs, k);
      } else {
        SwappedOne(r, cs, n, now, k - 1);
        StepImports(r, cs, k);
      }
    }
  }

  lemma StepImports(r: Replica, cs: seq<Chunk>, k: nat)
    requires 0 < k <= |cs| && Imported(START.replica, cs[..k - 1]) == (r, false)
    ensures Imported(START.replica, cs[..k]) == (ImportChunk(r, cs[k - 1]), Stops(r, cs[k - 1]))
  {
    assert cs[..k][..k - 1] == cs[..k - 1] && cs[..k][k - 1] == cs[k - 1];
  }

  lemma SwappedOne(r: Replica, cs: seq<Chunk>, n: nat, now: nat, k: nat)
    requires Swapped(cs, n, now) && k < |cs| && cs[k].id !in r.seen
    requires ChunkId(now, 101) in r.seen ==> "x" in r.rows
    requires forall id :: id in r.seen ==> exists i :: 0 <= i < k && cs[i].id == id
    ensures !Stops(r, cs[k]) && ImportChunk(r, cs[k]).seen == r.seen + {cs[k].id}
    ensures ChunkId(now, 101) in r.seen + {cs[k].id} ==> "x" in ImportChunk(r, cs[k]).rows
  {
    var c := cs[k];
    var m := Item(c.id.index);
    assert c.body == [m] && [m][..0] == [];
    PlainIsGood(m);
    assert ApplyAll(r.rows, [m]) == Apply(r.rows, m) by {
      assert [m][..|[m]| - 1] == [];
    }
    NoClash(r.rows, m);
  }

  lemma PlainIsGood(m: Mutation)
    requires !Raises(m)
    ensures GoodPrefix([m]) == 1
  {
    assert [m][..0] == [];
  }

  lemma NoClash(s: Store, m: Mutation)
    requires Stores(m) ==> Built(m).topicKey.None? && Built(m).idempotencyKey.None?
    ensures Stores(m) ==> !Taken(s, Built(m))
  {
  }

  /** For every larger number of chunks there is a journal without unique keys whose single export, pulled once, leaves
      on the replica a row that the source has deleted. */
  lemma ThousandDiverges(n: nat, now: nat)
    requires n > 1000
    ensures var steps := Recording(Items(n)) + [Export(0, 1, true, now)] + [Pull];
      && Possible(steps) && Run(steps).source.journal == Items(n) && Owned(Items(n))
      && "x" in Run(steps).replica.rows && "x" !in Replay(Items(n))
  {
    hide Possible, Run, Replay, Item, Rows, Apply, Swapped, Imported, Pulled, WellFormed, Increasing, ChunksFrom, Since;
    hide MaxSeq, Legal;
    var j := Items(n);
    ItemsAreJournal(n);
    LastRows(n);
    ItemsOwned(n);
    JournalRuns(j);
    var recorded, push := Recording(j), Export(0, 1, true, now);
    PossibleExtends(recorded, push);
    RunSnoc(recorded, push);
    PossibleExtends(recorded + [push], Pull);
    RunSnoc(recorded + [push], Pull);
    SinceStart(j);
    var cs := Pulled(ChunksFrom(j, 1, now, 0));
    assert [] + ChunksFrom(j, 1, now, 0) == ChunksFrom(j, 1, now, 0);
    assert Run(recorded + [push]).source.written == ChunksFrom(j, 1, now, 0);
    PulledIsSwapped(n, now);
    RowSurvives(cs, n, now, |cs|);
    assert cs[..|cs|] == cs;
    ImportedAreSeen(START.replica, cs);
  }

  lemma LastRows(n: nat)
    requires n > 1000
    ensures "x" !in Rows(n) && Items(n) != []
  {
  }

  lemma ItemsOwned(n: nat)
    ensures Owned(Items(n))
  {
    forall a, b | a in Items(n) && b in Items(n) && Stores(a) && Stores(b) ensures !Clash(Built(a), Built(b)) {
      var i :| 0 <= i < n && Items(n)[i] == a;
      assert a == Item(i);
    }
  }

  // Timestamps.

  /** Two exports, the insertion of a row in the first and its deletion in the second, pulled together: the replica
      ends like the source if and only if the first timestamp sorts before the second. */
  lemma TimestampsDecide(t: nat, u: nat)
    requires t != u
    ensures var steps := [Record(Plain(1, Op.Insert, "x")), Export(0, 1, true, t), Record(Plain(2, Delete, "x")),
                          Export(0, 1, true, u), Pull];
      && Possible(steps)
      && Replay(Run(steps).source.journal) == map[]
      && (Run(steps).replica.rows == map[] <==> Earlier(t, u))
  {
    var m, n := Plain(1, Op.Insert, "x"), Plain(2, Delete, "x");
    assert m.seqno == 1 && n.seqno == 2;
    hide Possible, Run, Earlier, Plain, Imported, Pulled;
    InsertThenDelete();
    TwoExports(m, n, t, u);
    TwoChunksPulled(m, n, t, u);
  }

  lemma InsertThenDelete()
    ensures var m, n := Plain(1, Op.Insert, "x"), Plain(2, Delete, "x");
      && Legal(map[], m) && Legal(Replay([m]), n) && Replay([m, n]) == map[] == Apply(map[], n)
      && Replay([n, m]) != map[] && !Raises(m) && !Raises(n)
  {
    var m, n := Plain(1, Op.Insert, "x"), Plain(2, Delete, "x");
    assert Built(m).Constructible() && !Taken(map[], Built(m));
    assert Apply(map[], m) == map["x" := Built(m)] && Apply(map["x" := Built(m)], n) == map[] == Apply(map[], n);
    hide Apply, Taken, ApplyAll;
    NothingLeft();
    ApplyAllSnoc(map[], [], m);
    ApplyAllSnoc(map[], [m], n);
    ApplyAllSnoc(map[], [], n);
    ApplyAllSnoc(map[], [n], m);
    assert [] + [m] == [m] && [m] + [n] == [m, n] && [] + [n] == [n] && [n] + [m] == [n, m];
  }

  /** A run, and the source and the replica it leads to. */
  lemma FirstExport(m: Mutation, t: nat) returns (steps: seq<Step>)
    requires Legal(map[], m) && m.seqno == 1
    ensures steps == [Record(m), Export(0, 1, true, t)] && Possible(steps)
    ensures Run(steps) == System(Exporter([m], 1, map[0 := 1], [Chunk(ChunkId(t, 0), [m])]), START.replica)
  {
    hide Legal, Apply, Run, Possible, Imported, Pulled, Since, ChunksFrom, Flatten;
    NothingRun();
    NothingLeft();
    PossibleExtends([], Record(m));
    RunSnoc([], Record(m));
    var a := [] + [Record(m)];
    assert [] + [m] == [m];
    assert Run(a).source == Exporter([m], 0, map[], []);
    OneChunk(m, t);
    PossibleExtends(a, Export(0, 1, true, t));
    RunSnoc(a, Export(0, 1, true, t));
    var first := Chunk(ChunkId(t, 0), [m]);
    assert [] + [first] == [first];
    steps := a + [Export(0, 1, true, t)];
  }

  lemma NothingLeft()
    ensures Replay([]) == map[] && MaxSeq([]) == 0
  {
  }

  lemma TwoExports(m: Mutation, n: Mutation, t: nat, u: nat)
    requires t != u && Legal(map[], m) && Legal(Replay([m]), n) && m.seqno == 1 && n.seqno == 2
    ensures var steps := [Record(m), Export(0, 1, true, t), Record(n), Export(0, 1, true, u), Pull];
      && Possible(steps)
      && Run(steps).source.journal == [m, n]
      && Run(steps).replica
         == Imported(START.replica, Pulled([Chunk(ChunkId(t, 0), [m]), Chunk(ChunkId(u, 0), [n])])).0
  {
    hide Legal, Apply, Replay, Run, Possible, Imported, Pulled, Since, ChunksFrom, Flatten, MaxSeq;
    var b := FirstExport(m, t);
    var first, second := Chunk(ChunkId(t, 0), [m]), Chunk(ChunkId(u, 0), [n]);
    SecondChunk(m, n, u);
    PossibleExtends(b, Record(n));
    RunSnoc(b, Record(n));
    var c := b + [Record(n)];
    assert [m] + [n] == [m, n] && [first] + [second] == [first, second];
    assert Run(c) == System(Exporter([m, n], 1, map[0 := 1], [first]), START.replica);
    PossibleExtends(c, Export(0, 1, true, u));
    RunSnoc(c, Export(0, 1, true, u));
    var d := c + [Export(0, 1, true, u)];
    assert Run(d) == System(Exporter([m, n], 2, map[0 := 2], [first, second]), START.replica);
    PossibleExtends(d, Pull);
    RunSnoc(d, Pull);
    assert d + [Pull] == [Record(m), Export(0, 1, true, t), Record(n), Export(0, 1, true, u), Pull];
  }

  lemma SecondChunk(m: Mutation, n: Mutation, now: nat)
    requires m.seqno == 1 && n.seqno == 2
    ensures Since([m] + [n], 1) == [n] && MaxSeq([n]) == 2 && MaxSeq([m]) == 1
    ensures ChunksFrom([n], 1, now, 0) == [Chunk(ChunkId(now, 0), [n])]
  {
    SinceOne([m], n, 1);
    assert [m][..0] == [] && [n][..0] == [] && [n][..1] == [n] && [n][1..] == [];
    assert Since([m], 1) == [] && [] + [n] == [n];
  }

  lemma TwoChunksPulled(m: Mutation, n: Mutation, t: nat, u: nat)
    requires t != u && !Raises(m) && !Raises(n)
    requires Replay([m, n]) == map[] && Replay([n, m]) != map[]
    ensures Imported(START.replica, Pulled([Chunk(ChunkId(t, 0), [m]), Chunk(ChunkId(u, 0), [n])])).0.rows == map[]
       <==> Earlier(t, u)
  {
    hide Less, Name, Earlier, Apply, Raises;
    var c, d := Chunk(ChunkId(t, 0), [m]), Chunk(ChunkId(u, 0), [n]);
    OtherExport(INCREMENTAL, t, 0, u, 0);
    OtherExport(INCREMENTAL, u, 0, t, 0);
    EarlierTotal(t, u);
    assert [c, d][1..] == [d] && [d][1..] == [];
    assert SortBy(ChunkName, [d]) == InsertBy(ChunkName, d, []) == [d];
    assert SortBy(ChunkName, [c, d]) == InsertBy(ChunkName, c, [d]);
    assert InsertBy(ChunkName, c, []) == [c];
    LessTotal(ChunkName(c), ChunkName(d));
    assert Pulled([c, d]) == if Earlier(t, u) then [c, d] else [d, c];
    TwoImported(c, d, m, n);
    TwoImported(d, c, n, m);
  }

  lemma TwoImported(c: Chunk, d: Chunk, m: Mutation, n: Mutation)
    requires c.id != d.id && c.body == [m] && d.body == [n] && !Raises(m) && !Raises(n)
    ensures Imported(START.replica, [c, d]).0.rows == Replay([m, n])
  {
    hide Apply, Raises;
    PlainIsGood(m);
    PlainIsGood(n);
    assert [c, d][..1] == [c] && [c][..0] == [];
    assert [m, n][..1] == [m] && [m][..0] == [] && [n][..0] == [];
    var r := START.replica;
    assert Imported(r, [c]) == (ImportChunk(r, c), false);
    assert Imported(r, [c, d]) == (ImportChunk(ImportChunk(r, c), d), false);
    assert ImportChunk(r, c).rows == ApplyAll(map[], [m]);
    assert ApplyAll(ApplyAll(map[], [m]), [n]) == ApplyAll(map[], [m, n]) by {
      ApplyAllSnoc(ApplyAll(map[], [m]), [], n);
      assert [] + [n] == [n];
    }
  }
}
