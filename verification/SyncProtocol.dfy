/** One source and one replica as a state machine: what every run keeps, and where the replica ends. */
module SyncProtocol {
  import opened Options
  import opened SyncTypes
  import opened SyncJournal
  import ChunkNames
  import SyncConvergence

  /** The source: its journal, the stored export watermark, `_last_export_max_seq` of each service object that works on
      it (0 when absent), and the chunks written so far, in written order. */
  datatype Exporter = Exporter(journal: seq<Mutation>, watermark: nat, pending: map<nat, nat>, written: seq<Chunk>)

  const FRESH := Exporter([], 0, map[], [])

  function PendingOf(e: Exporter, who: nat): nat {
    if who in e.pending then e.pending[who] else 0
  }

  /** `export_incremental` when it does not raise: a chunk size of 0 is the only thing that makes it raise. */
  function Exported(e: Exporter, who: nat, chunkSize: int, commit: bool, now: nat): Exporter {
    var mutations := Since(e.journal, e.watermark);
    if mutations == [] then e.(pending := e.pending[who := 0])
    else if chunkSize == 0 then e
    else
      var top := if chunkSize < 0 then e.watermark else MaxSeq(mutations);
      var written := if chunkSize < 0 then e.written else e.written + ChunksFrom(mutations, chunkSize, now, 0);
      e.(written := written, pending := e.pending[who := top], watermark := if commit then top else e.watermark)
  }

  function Committed(e: Exporter, who: nat): Exporter {
    if PendingOf(e, who) == 0 then e else e.(watermark := PendingOf(e, who))
  }

  /** The replica: its rows and the ids of the chunks it has recorded as imported. */
  datatype Replica = Replica(rows: Store, seen: set<ChunkId>)

  /** How many mutations are applied before one makes the import raise. */
  function GoodPrefix(ms: seq<Mutation>): (n: nat)
    ensures n <= |ms|
  {
    if ms == [] then 0
    else
      var n := GoodPrefix(ms[..|ms| - 1]);
      if n < |ms| - 1 || Raises(ms[|ms| - 1]) then n else |ms|
  }

  function ImportChunk(r: Replica, c: Chunk): Replica {
    if c.id in r.seen then r
    else if GoodPrefix(c.body) < |c.body| then r.(rows := ApplyAll(r.rows, c.body[..GoodPrefix(c.body)]))
    else Replica(ApplyAll(r.rows, c.body), r.seen + {c.id})
  }

  /** A chunk whose import raises stops the import of the chunks after it. */
  predicate Stops(r: Replica, c: Chunk) {
    c.id !in r.seen && GoodPrefix(c.body) < |c.body|
  }

  /** The replica after importing `cs`, and whether the import raised. */
  function Imported(r: Replica, cs: seq<Chunk>): (Replica, bool) {
    if cs == [] then (r, false)
    else
      var before := Imported(r, cs[..|cs| - 1]);
      if before.1 then before
      else (ImportChunk(before.0, cs[|cs| - 1]), Stops(before.0, cs[|cs| - 1]))
  }

  /** The order in which a pull hands the chunk files over: by name. */
  function Pulled(written: seq<Chunk>): seq<Chunk> {
    ChunkNames.SortBy(ChunkName, written)
  }

  datatype System = System(source: Exporter, replica: Replica)

  const START := System(FRESH, Replica(map[], {}))

  /** Each export names the service object that makes it. */
  datatype Step =
    | Record(m: Mutation)
    | Export(who: nat, chunkSize: int, commit: bool, now: nat)
    | Commit(who: nat)
    | Restart(who: nat)  // a new service object in the place of the old one
    | Pull               // the replica imports the chunk files, in name order

  function Next(s: System, a: Step): System {
    match a
    case Record(m) => s.(source := s.source.(journal := s.source.journal + [m]))
    case Export(who, size, commit, now) => s.(source := Exported(s.source, who, size, commit, now))
    case Commit(who) => s.(source := Committed(s.source, who))
    case Restart(who) => s.(source := s.source.(pending := s.source.pending[who := 0]))
    case Pull => s.(replica := Imported(s.replica, Pulled(s.source.written)).0)
  }

  /** No chunk file of this millisecond exists yet. */
  predicate Unused(written: seq<Chunk>, now: nat) {
    forall i :: 0 <= i < |written| ==> written[i].id.timestamp != now
  }

  /** What the environment guarantees: entries are recorded for changes the source store accepted and get
      growing sequence numbers, and two exports that write chunks do not share a millisecond. */
  predicate Allowed(s: System, a: Step) {
    match a
    case Record(m) => Legal(Replay(s.source.journal), m) && MaxSeq(s.source.journal) < m.seqno
    case Export(_, _, _, now) => Unused(s.source.written, now)
    case _ => true
  }

  function Run(steps: seq<Step>): System {
    if steps == [] then START else Next(Run(steps[..|steps| - 1]), steps[|steps| - 1])
  }

  ghost predicate Possible(steps: seq<Step>) {
    forall i {:trigger Run(steps[..i])} :: 0 <= i < |steps| ==> Allowed(Run(steps[..i]), steps[i])
  }

  lemma PossiblePrefix(steps: seq<Step>, n: nat)
    requires Possible(steps) && n <= |steps|
    ensures Possible(steps[..n])
    ensures n < |steps| ==> Allowed(Run(steps[..n]), steps[n])
  {
    hide Allowed, Run;
    forall i | 0 <= i < n ensures Allowed(Run(steps[..n][..i]), steps[..n][i]) {
      assert steps[..n][..i] == steps[..i] && steps[..n][i] == steps[i];
      assert Allowed(Run(steps[..i]), steps[i]);
    }
    if n < |steps| {
      assert Allowed(Run(steps[..n]), steps[n]);
    }
  }

  lemma PossibleExtends(steps: seq<Step>, a: Step)
    requires Possible(steps) && Allowed(Run(steps), a)
    ensures Possible(steps + [a])
  {
    hide Allowed, Run;
    var all := steps + [a];
    forall i | 0 <= i < |all| ensures Allowed(Run(all[..i]), all[i]) {
      if i < |steps| {
        assert all[..i] == steps[..i] && all[i] == steps[i];
        assert Allowed(Run(steps[..i]), steps[i]);
      } else {
        assert all[..i] == steps;
      }
    }
  }

  lemma RunSnoc(steps: seq<Step>, a: Step)
    ensures Run(steps + [a]) == Next(Run(steps), a)
  {
    hide Next;
    assert (steps + [a])[..|steps + [a]| - 1] == steps;
  }

  // The source's invariant.

  /** The highest sequence number in any written chunk. */
  function Reached(e: Exporter): nat {
    MaxSeq(Flatten(e.written))
  }

  ghost predicate DistinctIds(cs: seq<Chunk>) {
    forall i, k {:trigger cs[i], cs[k]} :: 0 <= i < k < |cs| ==> cs[i].id != cs[k].id
  }

  ghost predicate PendingWithin(pending: map<nat, nat>, top: nat) {
    forall who :: who in pending ==> pending[who] <= top
  }

  /** What the chunks hold, applied in written order, is the source's state at the highest exported entry. */
  ghost predicate ChunksReplay(e: Exporter) {
    ApplyAll(map[], Flatten(e.written)) == Replay(e.journal[..Cut(e.journal, Reached(e))])
  }

  ghost predicate SourceInv(e: Exporter) {
    && WellFormed(e.journal)
    && Increasing(e.journal)
    && e.watermark <= Reached(e) <= MaxSeq(e.journal)
    && PendingWithin(e.pending, Reached(e))
    && DistinctIds(e.written)
    && (forall i :: 0 <= i < Cut(e.journal, Reached(e)) ==> e.journal[i] in Flatten(e.written))
    && (forall m :: m in Flatten(e.written) ==> m in e.journal)
    && (Kept(e.journal) ==> ChunksReplay(e))
  }

  lemma AppendDistinct(a: seq<Chunk>, b: seq<Chunk>, now: nat)
    requires DistinctIds(a) && Unused(a, now)
    requires forall k :: 0 <= k < |b| ==> b[k].id == ChunkId(now, k)
    ensures DistinctIds(a + b)
  {
    forall i, k | 0 <= i < k < |a + b| ensures (a + b)[i].id != (a + b)[k].id {
      if k >= |a| {
        assert (a + b)[k] == b[k - |a|];
        if i >= |a| {
          assert (a + b)[i] == b[i - |a|];
        }
      }
    }
  }

  /** What one export adds: exactly the pending window, under new names. */
  lemma ExportShape(e: Exporter, who: nat, chunkSize: nat, commit: bool, now: nat)
    requires Increasing(e.journal) && DistinctIds(e.written) && Unused(e.written, now) && chunkSize > 0
    requires Since(e.journal, e.watermark) != [] && Reached(e) <= MaxSeq(e.journal)
    ensures var e' := Exported(e, who, chunkSize, commit, now);
      && Flatten(e'.written) == Flatten(e.written) + e.journal[Cut(e.journal, e.watermark)..]
      && DistinctIds(e'.written)
      && Reached(e') == MaxSeq(e.journal) == PendingOf(e', who)
  {
    hide Flatten, MaxSeq, Cut, Since, ChunksFrom, Increasing, DistinctIds, Unused;
    var j, w := e.journal, Cut(e.journal, e.watermark);
    var mutations := j[w..];
    SinceIsSuffix(j, e.watermark);
    var chunks := ChunksFrom(mutations, chunkSize, now, 0);
    ChunksPartition(mutations, chunkSize, now, 0);
    forall k | 0 <= k < |chunks| ensures chunks[k].id == ChunkId(now, k) {
      assert chunks[k] == ChunksFrom(mutations, chunkSize, now, 0)[k];
    }
    AppendDistinct(e.written, chunks, now);
    FlattenConcat(e.written, chunks);
    MaxSeqConcat(Flatten(e.written), mutations);
    SuffixTop(j, w);
  }

  /** Everything up to the end of the journal is then in some chunk, and nothing else is. */
  lemma ExportCovers(e: Exporter, mutations: seq<Mutation>, w: nat)
    requires SourceInv(e) && w <= Cut(e.journal, Reached(e)) && mutations == e.journal[w..]
    ensures forall i :: 0 <= i < |e.journal| ==> e.journal[i] in Flatten(e.written) + mutations
    ensures forall m :: m in Flatten(e.written) + mutations ==> m in e.journal
  {
    hide Apply, ApplyAll, WellFormed, Flatten, MaxSeq, Cut, Kept, ChunksReplay;
    forall i | 0 <= i < |e.journal| ensures e.journal[i] in Flatten(e.written) + mutations {
      if i >= w {
        assert e.journal[i] == mutations[i - w];
      }
    }
  }

  /** Writing the pending window extends the chunks to the end of the journal. */
  lemma ExportKeepsInv(e: Exporter, who: nat, chunkSize: nat, commit: bool, now: nat)
    requires SourceInv(e) && Unused(e.written, now) && chunkSize > 0 && Since(e.journal, e.watermark) != []
    ensures SourceInv(Exported(e, who, chunkSize, commit, now))
    ensures Reached(Exported(e, who, chunkSize, commit, now)) == MaxSeq(e.journal)
  {
    hide Apply, ApplyAll, WellFormed, Flatten, MaxSeq, Cut, Since, Kept, Increasing, DistinctIds, Unused, ChunksFrom;
    var j, w, n := e.journal, Cut(e.journal, e.watermark), Cut(e.journal, Reached(e));
    ExportShape(e, who, chunkSize, commit, now);
    CutMonotone(j, e.watermark, Reached(e));
    CutAtLatest(j);
    ExportCovers(e, j[w..], w);
    if Kept(j) {
      ApplyAllConcat(map[], Flatten(e.written), j[w..]);
      SyncConvergence.OverlapConverges(j, w, n, |j|);
      assert j[w..|j|] == j[w..] && j[..|j|] == j;
    }
  }

  lemma SuffixTop(j: seq<Mutation>, w: nat)
    requires Increasing(j) && w < |j|
    ensures MaxSeq(j[w..]) == MaxSeq(j)
  {
    MaxSeqIsLast(j);
    MaxSeqIsLast(j[w..]);
  }

  lemma RecordKeepsInv(e: Exporter, m: Mutation)
    requires SourceInv(e) && Legal(Replay(e.journal), m) && MaxSeq(e.journal) < m.seqno
    ensures SourceInv(e.(journal := e.journal + [m]))
    ensures Cut(e.journal + [m], Reached(e)) == Cut(e.journal, Reached(e))
  {
    hide Apply, ApplyAll, WellFormed, Legal, Kept, Flatten, MaxSeq, Cut, Increasing;
    WellFormedSnoc(e.journal, m);
    IncreasingSnoc(e.journal, m);
    CutSnoc(e.journal, m, Reached(e));
    KeptPrefix(e.journal, m);
    var n := Cut(e.journal, Reached(e));
    assert (e.journal + [m])[..n] == e.journal[..n];
  }

  lemma StepKeepsSourceInv(s: System, a: Step)
    requires SourceInv(s.source) && Allowed(s, a)
    ensures SourceInv(Next(s, a).source)
    ensures s.source.written <= Next(s, a).source.written
  {
    hide Apply, ApplyAll, WellFormed, Since, Kept, Flatten, MaxSeq, Cut, Legal, Increasing, DistinctIds, ChunksFrom;
    match a
    case Record(m) => RecordKeepsInv(s.source, m);
    case Export(who, size, commit, now) =>
      if Since(s.source.journal, s.source.watermark) != [] && size > 0 {
        ExportKeepsInv(s.source, who, size, commit, now);
      }
    case _ =>
  }

  lemma FreshIsSound()
    ensures SourceInv(FRESH)
  {
  }

  /** Over every run of any number of services: what the chunks hold, applied in order, is the source's state at the
      highest exported entry, if no row gives up, otherwise than by its deletion,
      a unique key that another row wants. */
  lemma {:induction false} RunKeepsSourceInv(steps: seq<Step>)
    requires Possible(steps)
    ensures SourceInv(Run(steps).source)
  {
    hide Next, SourceInv, Allowed;
    FreshIsSound();
    if steps != [] {
      PossiblePrefix(steps, |steps| - 1);
      RunKeepsSourceInv(steps[..|steps| - 1]);
      StepKeepsSourceInv(Run(steps[..|steps| - 1]), steps[|steps| - 1]);
    }
  }

  // The watermark.

  /** What a push does in two steps: an export that leaves the watermark and then its commit are the same as an export
      that commits at once, and both move the watermark to the end of the journal. */
  lemma DeferredCommit(s: System, who: nat, chunkSize: nat, now: nat)
    requires SourceInv(s.source) && Unused(s.source.written, now) && chunkSize > 0
    ensures var once := Next(s, Export(who, chunkSize, true, now));
      && Next(Next(s, Export(who, chunkSize, false, now)), Commit(who)) == once
      && once.source.watermark == MaxSeq(s.source.journal)
      && Since(once.source.journal, once.source.watermark) == []
  {
    hide Apply, ApplyAll, WellFormed, Flatten, MaxSeq, Cut, Since, Kept, Increasing, DistinctIds, Unused, ChunksFrom;
    hide ChunksReplay;
    var e := s.source;
    var j := e.journal;
    SinceIsSuffix(j, e.watermark);
    SinceIsSuffix(j, MaxSeq(j));
    CutAtLatest(j);
    if Since(j, e.watermark) != [] {
      ExportShape(e, who, chunkSize, true, now);
      PositiveTop(j, e.watermark);
    } else {
      NothingSince(j, e.watermark);
    }
  }

  /** A service that was restarted between its export and its commit commits nothing, and loses nothing: its next export
      starts from the watermark again. */
  lemma RestartForgets(s: System, who: nat)
    ensures Next(Next(s, Restart(who)), Commit(who)).source.watermark == s.source.watermark
    ensures var e := Next(s, Restart(who)).source;
      e.journal == s.source.journal && e.written == s.source.written && PendingOf(e, who) == 0
      && forall other :: other != who ==> PendingOf(e, other) == PendingOf(s.source, other)
  {
  }

  lemma PositiveTop(j: seq<Mutation>, watermark: nat)
    requires Increasing(j) && Since(j, watermark) != []
    ensures MaxSeq(j) == MaxSeq(Since(j, watermark)) > watermark
  {
    hide Increasing;
    SinceIsSuffix(j, watermark);
    SuffixTop(j, Cut(j, watermark));
    MaxSeqIsLast(j);
    CutSplits(j, watermark);
  }

  lemma NothingSince(j: seq<Mutation>, watermark: nat)
    requires Increasing(j) && Since(j, watermark) == []
    ensures MaxSeq(j) <= watermark
  {
    hide Increasing;
    SinceIsSuffix(j, watermark);
    CutSplits(j, watermark);
    if j != [] {
      MaxSeqIsLast(j);
    }
  }

  /** The step commits what another service has already gone past. */
  predicate GoesBack(s: System, a: Step) {
    a.Commit? && 0 < PendingOf(s.source, a.who) < s.source.watermark
  }

  /** A step moves the watermark back exactly when it commits a pending export that lies behind it. */
  lemma GoesBackIff(s: System, a: Step)
    requires SourceInv(s.source) && Allowed(s, a)
    ensures Next(s, a).source.watermark < s.source.watermark <==> GoesBack(s, a)
  {
    hide Apply, ApplyAll, WellFormed, Since, Kept, Flatten, MaxSeq, Cut, Legal, Increasing, DistinctIds, ChunksFrom;
    if a.Export? && Since(s.source.journal, s.source.watermark) != [] && a.chunkSize > 0 {
      ExportShape(s.source, a.who, a.chunkSize, a.commit, a.now);
    }
  }

  ghost predicate NeverBack(steps: seq<Step>) {
    forall i {:trigger Run(steps[..i])} :: 0 <= i < |steps| ==> !GoesBack(Run(steps[..i]), steps[i])
  }

  lemma NeverBackPrefix(steps: seq<Step>, n: nat)
    requires NeverBack(steps) && n <= |steps|
    ensures NeverBack(steps[..n])
    ensures n < |steps| ==> !GoesBack(Run(steps[..n]), steps[n])
  {
    hide Run, GoesBack;
    forall i | 0 <= i < n ensures !GoesBack(Run(steps[..n][..i]), steps[..n][i]) {
      assert steps[..n][..i] == steps[..i] && steps[..n][i] == steps[i];
      assert !GoesBack(Run(steps[..i]), steps[i]);
    }
    if n < |steps| {
      assert !GoesBack(Run(steps[..n]), steps[n]);
    }
  }

  /** Over every run, every entry at or below the watermark is in a written chunk. */
  lemma WatermarkIsCovered(steps: seq<Step>)
    requires Possible(steps)
    ensures forall m :: m in Run(steps).source.journal && m.seqno <= Run(steps).source.watermark ==>
              m in Flatten(Run(steps).source.written)
  {
    var e := Run(steps).source;
    hide Apply, ApplyAll, WellFormed, Next, Kept, ChunksReplay, Run, Flatten, MaxSeq;
    RunKeepsSourceInv(steps);
    forall m | m in e.journal && m.seqno <= e.watermark ensures m in Flatten(e.written) {
      var i :| 0 <= i < |e.journal| && e.journal[i] == m;
      CutSplits(e.journal, Reached(e));
    }
  }

  /** Over every run in which no commit lies behind it, the watermark never goes back. */
  lemma {:induction false} WatermarkIsSafe(steps: seq<Step>, n: nat)
    requires Possible(steps) && NeverBack(steps) && n <= |steps|
    ensures Run(steps[..n]).source.watermark <= Run(steps).source.watermark
    decreases |steps|
  {
    hide Next, SourceInv, Allowed, GoesBack;
    if n < |steps| {
      var k := |steps| - 1;
      PossiblePrefix(steps, k);
      NeverBackPrefix(steps, k);
      assert steps[..k][..n] == steps[..n];
      WatermarkIsSafe(steps[..k], n);
      RunKeepsSourceInv(steps[..k]);
      GoesBackIff(Run(steps[..k]), steps[k]);
    } else {
      assert steps[..n] == steps;
    }
  }

  /** All exports, commits and restarts are of one service. */
  predicate By(a: Step, who: nat) {
    (a.Export? || a.Commit? || a.Restart?) ==> a.who == who
  }

  ghost predicate OnlyPending(pending: map<nat, nat>, who: nat) {
    forall x :: x in pending && x != who ==> pending[x] == 0
  }

  /** A service that is alone never moves the watermark back. */
  lemma {:induction false} OneServiceNeverBack(steps: seq<Step>, who: nat)
    requires Possible(steps) && forall i :: 0 <= i < |steps| ==> By(steps[i], who)
    ensures NeverBack(steps)
    ensures var e := Run(steps).source;
      (PendingOf(e, who) == 0 || e.watermark <= PendingOf(e, who)) && OnlyPending(e.pending, who)
  {
    if steps != [] {
      hide Next, SourceInv, Allowed, GoesBack, PendingOf, OnlyPending, NeverBack, Possible;
      var n := |steps| - 1;
      PossiblePrefix(steps, n);
      OneServiceNeverBack(steps[..n], who);
      RunKeepsSourceInv(steps[..n]);
      assert By(steps[n], who);
      AloneStaysAhead(Run(steps[..n]), steps[n], who);
      NeverBackGrows(steps);
    }
  }

  lemma NeverBackGrows(steps: seq<Step>)
    requires steps != [] && NeverBack(steps[..|steps| - 1])
    requires !GoesBack(Run(steps[..|steps| - 1]), steps[|steps| - 1])
    ensures NeverBack(steps)
  {
    hide Run, GoesBack;
    var n := |steps| - 1;
    forall i | 0 <= i < |steps| ensures !GoesBack(Run(steps[..i]), steps[i]) {
      if i < n {
        NeverBackPrefix(steps[..n], i);
        assert steps[..n][..i] == steps[..i] && steps[..n][i] == steps[i];
      }
    }
  }

  lemma AloneStaysAhead(s: System, a: Step, who: nat)
    requires SourceInv(s.source) && Allowed(s, a) && By(a, who)
    requires PendingOf(s.source, who) == 0 || s.source.watermark <= PendingOf(s.source, who)
    requires OnlyPending(s.source.pending, who)
    ensures !GoesBack(s, a)
    ensures var e := Next(s, a).source;
      (PendingOf(e, who) == 0 || e.watermark <= PendingOf(e, who)) && OnlyPending(e.pending, who)
  {
    hide Apply, ApplyAll, WellFormed, Since, Kept, Flatten, MaxSeq, Cut, Legal, Increasing, DistinctIds, ChunksFrom;
    if a.Export? && Since(s.source.journal, s.source.watermark) != [] && a.chunkSize > 0 {
      ExportShape(s.source, a.who, a.chunkSize, a.commit, a.now);
    }
  }

  /** Two overlapping pushes: the first service exports, the second exports more and commits, the first commits. */
  lemma OverlappingPushesGoBack(m: Mutation, n: Mutation)
    requires Legal(map[], m) && Legal(Replay([m]), n) && 0 < m.seqno < n.seqno
    ensures var steps := [Record(m), Export(0, 1, false, 1), Record(n), Export(1, 1, true, 2)];
      && Possible(steps + [Commit(0)])
      && Run(steps).source.watermark == n.seqno
      && Run(steps + [Commit(0)]).source.watermark == m.seqno
  {
    hide Legal, Apply, Run, Possible;
    assert Run([]) == START && Possible([]) by {
      NothingRun();
    }
    PossibleExtends([], Record(m));
    RunSnoc([], Record(m));
    var a := [] + [Record(m)];
    var e1 := Exporter([m], 0, map[], []);
    assert Run(a).source == e1;
    SinceOne([], m, 0);
    PossibleExtends(a, Export(0, 1, false, 1));
    RunSnoc(a, Export(0, 1, false, 1));
    var b := a + [Export(0, 1, false, 1)];
    OneChunk(m, 1);
    var e2 := Exporter([m], 0, map[0 := m.seqno], [Chunk(ChunkId(1, 0), [m])]);
    assert Run(b).source == e2;
    PossibleExtends(b, Record(n));
    RunSnoc(b, Record(n));
    var c := b + [Record(n)];
    var e3 := e2.(journal := [m] + [n]);
    assert Run(c).source == e3;
    SinceOne([m], n, 0);
    PossibleExtends(c, Export(1, 1, true, 2));
    RunSnoc(c, Export(1, 1, true, 2));
    var d := c + [Export(1, 1, true, 2)];
    TopOfTwo(m, n);
    assert Run(d).source.watermark == n.seqno && PendingOf(Run(d).source, 0) == m.seqno;
    PossibleExtends(d, Commit(0));
    RunSnoc(d, Commit(0));
    assert d == [Record(m), Export(0, 1, false, 1), Record(n), Export(1, 1, true, 2)];
  }

  lemma NothingRun()
    ensures Run([]) == START && Possible([])
  {
  }

  lemma SinceOne(j: seq<Mutation>, m: Mutation, w: nat)
    requires m.seqno > w
    ensures Since(j + [m], w) == Since(j, w) + [m]
  {
    assert (j + [m])[..|j|] == j;
  }

  lemma TopOfTwo(m: Mutation, n: Mutation)
    requires 0 < m.seqno < n.seqno
    ensures Since([m] + [n], 0) == [m, n] && MaxSeq([m, n]) == n.seqno
  {
    assert Since([m] + [n], 0) == [m, n] by {
      SinceOne([], m, 0);
      SinceOne([m], n, 0);
      assert [] + [m] == [m] && [m] + [n] == [m, n];
    }
    hide Since;
    assert [m, n][..1] == [m] && [m][..0] == [];
    assert MaxSeq([m]) == m.seqno && MaxSeq([m, n]) == Max(MaxSeq([m]), n.seqno);
  }

  lemma OneChunk(m: Mutation, now: nat)
    requires m.seqno > 0
    ensures ChunksFrom([m], 1, now, 0) == [Chunk(ChunkId(now, 0), [m])]
    ensures Since([m], 0) == [m] && MaxSeq([m]) == m.seqno
  {
    assert [m][..1] == [m] && [m][1..] == [] && [m][..0] == [];
  }

  // With every export committing at once.

  predicate CommitsAtOnce(a: Step) {
    a.Export? ==> a.commit
  }

  /** The chunks, read one after another, are exactly the journal up to the watermark. */
  ghost predicate ExactlyOnce(e: Exporter) {
    Flatten(e.written) == e.journal[..Cut(e.journal, e.watermark)] && PendingWithin(e.pending, e.watermark)
  }

  lemma {:induction false} CommittedRunsExportOnce(steps: seq<Step>)
    requires Possible(steps) && NeverBack(steps) && forall i :: 0 <= i < |steps| ==> CommitsAtOnce(steps[i])
    ensures ExactlyOnce(Run(steps).source)
  {
    if steps != [] {
      hide Next, SourceInv, Allowed, ExactlyOnce, GoesBack;
      var n := |steps| - 1;
      PossiblePrefix(steps, n);
      NeverBackPrefix(steps, n);
      CommittedRunsExportOnce(steps[..n]);
      RunKeepsSourceInv(steps[..n]);
      assert CommitsAtOnce(steps[n]);
      StepExportsOnce(Run(steps[..n]), steps[n]);
    }
  }

  lemma StepExportsOnce(s: System, a: Step)
    requires SourceInv(s.source) && ExactlyOnce(s.source) && Allowed(s, a) && CommitsAtOnce(a) && !GoesBack(s, a)
    ensures ExactlyOnce(Next(s, a).source)
  {
    hide Apply, ApplyAll, WellFormed, Flatten, MaxSeq, Cut, Since, Kept, ChunksReplay, Legal, Increasing, DistinctIds;
    var e := s.source;
    match a
    case Record(m) =>
      CutSnoc(e.journal, m, e.watermark);
      assert (e.journal + [m])[..Cut(e.journal, e.watermark)] == e.journal[..Cut(e.journal, e.watermark)];
    case Export(who, size, commit, now) =>
      ExportsOnce(e, who, size, now);
    case _ =>
  }

  lemma ExportsOnce(e: Exporter, who: nat, size: int, now: nat)
    requires SourceInv(e) && ExactlyOnce(e) && Unused(e.written, now)
    ensures ExactlyOnce(Exported(e, who, size, true, now))
  {
    hide Apply, ApplyAll, WellFormed, Flatten, MaxSeq, Cut, Since, Kept, ChunksReplay, Increasing, DistinctIds, Unused;
    hide ChunksFrom;
    if Since(e.journal, e.watermark) != [] && size > 0 {
      var w := Cut(e.journal, e.watermark);
      ExportShape(e, who, size, true, now);
      CutAtLatest(e.journal);
      assert e.journal[..w] + e.journal[w..] == e.journal[..|e.journal|];
    }
  }

  // The replica.

  function Ids(cs: seq<Chunk>): set<ChunkId> {
    set c | c in cs :: c.id
  }

  /** The replica has imported the first `p` chunks and nothing else. */
  ghost predicate CaughtUp(r: Replica, written: seq<Chunk>, p: nat) {
    && p <= |written|
    && r.seen == Ids(written[..p])
    && r.rows == ApplyAll(map[], Flatten(written[..p]))
  }

  lemma {:induction false} NothingRaises(ms: seq<Mutation>)
    requires forall m :: m in ms ==> !Raises(m)
    ensures GoodPrefix(ms) == |ms|
  {
    if ms != [] {
      NothingRaises(ms[..|ms| - 1]);
    }
  }

  lemma {:induction false} JournalNeverRaises(j: seq<Mutation>, m: Mutation)
    requires WellFormed(j) && m in j
    ensures !Raises(m)
  {
    var i :| 0 <= i < |j| && j[i] == m;
    assert Legal(Replay(j[..i]), j[i]);
  }

  lemma {:induction false} BodyInFlatten(cs: seq<Chunk>, c: Chunk)
    requires c in cs
    ensures forall m :: m in c.body ==> m in Flatten(cs)
  {
    if c != cs[|cs| - 1] {
      BodyInFlatten(cs[..|cs| - 1], c);
    }
  }

  /** No chunk of the source makes an import raise. */
  lemma ChunksAreGood(e: Exporter, c: Chunk)
    requires SourceInv(e) && c in e.written
    ensures GoodPrefix(c.body) == |c.body|
  {
    hide Apply, ApplyAll, WellFormed, Flatten, Kept, ChunksReplay, MaxSeq, Cut, Raises;
    BodyInFlatten(e.written, c);
    forall m | m in c.body ensures !Raises(m) {
      JournalNeverRaises(e.journal, m);
    }
    NothingRaises(c.body);
  }

  /** Importing a prefix of the chunks in written order: the ones already recorded are skipped, the others applied. */
  lemma {:induction false} ImportCatchesUp(e: Exporter, r: Replica, p: nat, n: nat)
    requires SourceInv(e) && CaughtUp(r, e.written, p) && n <= |e.written|
    ensures !Imported(r, e.written[..n]).1
    ensures CaughtUp(Imported(r, e.written[..n]).0, e.written, if n < p then p else n)
    decreases n
  {
    hide Apply, ApplyAll, WellFormed, Flatten, Kept, ChunksReplay, MaxSeq, Cut, GoodPrefix;
    if n > 0 {
      var cs, c := e.written[..n - 1], e.written[n - 1];
      ImportCatchesUp(e, r, p, n - 1);
      assert e.written[..n][..n - 1] == cs && e.written[..n][n - 1] == c;
      var r' := Imported(r, cs).0;
      ChunksAreGood(e, c);
      if n <= p {
        assert c == e.written[..p][n - 1];
        assert c.id in r'.seen;
      } else {
        assert c.id !in Ids(cs) by {
          forall i | 0 <= i < n - 1 ensures cs[i].id != c.id {
            assert e.written[i].id != e.written[n - 1].id;
          }
        }
        ImportOne(e.written, n, r');
      }
    } else {
      assert e.written[..n] == [];
    }
  }

  lemma ImportOne(written: seq<Chunk>, n: nat, r: Replica)
    requires 0 < n <= |written| && CaughtUp(r, written, n - 1)
    requires written[n - 1].id !in r.seen && GoodPrefix(written[n - 1].body) == |written[n - 1].body|
    ensures CaughtUp(ImportChunk(r, written[n - 1]), written, n)
  {
    var cs, c := written[..n - 1], written[n - 1];
    assert written[..n] == cs + [c];
    assert Ids(cs + [c]) == Ids(cs) + {c.id};
    assert (cs + [c])[..|cs + [c]| - 1] == cs;
    assert Flatten(cs + [c]) == Flatten(cs) + c.body;
    ApplyAllConcat(map[], Flatten(cs), c.body);
  }

  /** Chunks written later do not change what a replica has caught up with. */
  lemma CaughtUpGrows(r: Replica, written: seq<Chunk>, more: seq<Chunk>, p: nat)
    requires CaughtUp(r, written, p) && written <= more
    ensures CaughtUp(r, more, p)
  {
    assert written[..p] == more[..p];
  }

  lemma StartIsCaughtUp()
    ensures CaughtUp(START.replica, START.source.written, 0)
  {
  }

  /** Name order is written order. */
  ghost predicate InNameOrder(written: seq<Chunk>) {
    ChunkNames.StrictlyAscending(ChunkName, written)
  }

  lemma InNameOrderPrefix(a: seq<Chunk>, b: seq<Chunk>)
    requires InNameOrder(b) && a <= b
    ensures InNameOrder(a)
  {
    forall i, k | 0 <= i < k < |a| ensures ChunkNames.Less(ChunkName(a[i]), ChunkName(a[k])) {
      assert a[i] == b[i] && a[k] == b[k];
    }
  }

  lemma {:induction false} RunKeepsReplica(steps: seq<Step>) returns (p: nat)
    requires Possible(steps) && InNameOrder(Run(steps).source.written)
    ensures CaughtUp(Run(steps).replica, Run(steps).source.written, p)
    ensures steps != [] && steps[|steps| - 1].Pull? ==> p == |Run(steps).source.written|
  {
    hide Apply, ApplyAll, WellFormed, SourceInv, Allowed, Imported, CaughtUp, InNameOrder, Exported;
    StartIsCaughtUp();
    if steps == [] {
      p := 0;
    } else {
      var s, a := Run(steps[..|steps| - 1]), steps[|steps| - 1];
      PossiblePrefix(steps, |steps| - 1);
      RunKeepsSourceInv(steps[..|steps| - 1]);
      StepKeepsSourceInv(s, a);
      InNameOrderPrefix(s.source.written, Next(s, a).source.written);
      p := RunKeepsReplica(steps[..|steps| - 1]);
      CaughtUpGrows(s.replica, s.source.written, Next(s, a).source.written, p);
      if a.Pull? {
        PullCatchesUp(s.source, s.replica, p);
        p := |s.source.written|;
      }
    }
  }

  lemma PullCatchesUp(e: Exporter, r: Replica, p: nat)
    requires SourceInv(e) && InNameOrder(e.written) && CaughtUp(r, e.written, p)
    ensures CaughtUp(Imported(r, Pulled(e.written)).0, e.written, |e.written|)
  {
    hide SourceInv, CaughtUp, Imported;
    ChunkNames.SortKeepsAscending(ChunkName, e.written);
    ImportCatchesUp(e, r, p, |e.written|);
    assert e.written[..|e.written|] == e.written;
    CaughtUpBound(r, e.written, p);
  }

  lemma CaughtUpBound(r: Replica, written: seq<Chunk>, p: nat)
    requires CaughtUp(r, written, p)
    ensures p <= |written|
  {
  }

  /** Replication: whatever was exported, re-exported and committed by any number of services, and whenever the replica
      pulled before, after a pull its rows are exactly the source's rows as of the last exported entry: if chunk names
      are in written order and no row gives up, otherwise than by its deletion, a unique key that another wants. */
  lemma PullReplicates(steps: seq<Step>)
    requires Possible(steps) && steps != [] && steps[|steps| - 1].Pull?
    requires InNameOrder(Run(steps).source.written) && Kept(Run(steps).source.journal)
    ensures var s := Run(steps);
      s.replica.rows == Replay(s.source.journal[..Cut(s.source.journal, Reached(s.source))])
  {
    var e := Run(steps).source;
    hide Run, Kept, Apply, ApplyAll, WellFormed, Flatten, MaxSeq, Cut, InNameOrder;
    var p := RunKeepsReplica(steps);
    RunKeepsSourceInv(steps);
    assert e.written[..p] == e.written;
  }

  /** When every export commits at once nothing is delivered twice, and unique keys may change hands anyhow. */
  lemma PullReplicatesOnce(steps: seq<Step>)
    requires Possible(steps) && steps != [] && steps[|steps| - 1].Pull? && InNameOrder(Run(steps).source.written)
    requires NeverBack(steps) && forall i :: 0 <= i < |steps| ==> CommitsAtOnce(steps[i])
    ensures var s := Run(steps); s.replica.rows == Replay(s.source.journal[..Cut(s.source.journal, s.source.watermark)])
  {
    var e := Run(steps).source;
    hide Run, Apply, ApplyAll, WellFormed, Flatten, MaxSeq, Cut, InNameOrder, NeverBack;
    var p := RunKeepsReplica(steps);
    CommittedRunsExportOnce(steps);
    assert e.written[..p] == e.written;
  }

  /** An export with a positive chunk size, then a pull: the replica equals the source. */
  lemma ExportThenPullReplicates(steps: seq<Step>, who: nat, chunkSize: int, commit: bool, now: nat)
    requires Possible(steps + [Export(who, chunkSize, commit, now)]) && chunkSize > 0
    requires InNameOrder(Run(steps + [Export(who, chunkSize, commit, now)]).source.written)
    requires Kept(Run(steps).source.journal)
    ensures Run(steps + [Export(who, chunkSize, commit, now)] + [Pull]).replica.rows
         == Replay(Run(steps).source.journal)
  {
    hide Apply, ApplyAll, WellFormed, Flatten, MaxSeq, Cut, Since, Kept, InNameOrder, Run, Possible, Imported, Pulled;
    hide ChunksFrom, Legal, Unused;
    var push := Export(who, chunkSize, commit, now);
    var exported := steps + [push];
    PossiblePrefix(exported, |steps|);
    assert exported[..|steps|] == steps;
    RunKeepsSourceInv(steps);
    RunSnoc(steps, push);
    RunSnoc(exported, Pull);
    PossibleExtends(exported, Pull);
    assert Run(exported).source.journal == Run(steps).source.journal;
    PullReplicates(exported + [Pull]);
    ExportReachesAll(Run(steps).source, who, chunkSize, commit, now);
  }

  /** After an export with a positive chunk size every entry has been exported. */
  lemma ExportReachesAll(e: Exporter, who: nat, chunkSize: nat, commit: bool, now: nat)
    requires SourceInv(e) && Unused(e.written, now) && chunkSize > 0
    ensures var e' := Exported(e, who, chunkSize, commit, now);
      e'.journal[..Cut(e'.journal, Reached(e'))] == e.journal
  {
    hide Apply, ApplyAll, WellFormed, Flatten, MaxSeq, Cut, Since, Kept, ChunksReplay, Increasing, DistinctIds, Unused;
    CutAtLatest(e.journal);
    assert e.journal[..|e.journal|] == e.journal;
    if Since(e.journal, e.watermark) != [] {
      ExportKeepsInv(e, who, chunkSize, commit, now);
    } else {
      SinceIsSuffix(e.journal, e.watermark);
      CutMonotone(e.journal, e.watermark, Reached(e));
    }
  }

  lemma {:induction false} GoodUntilRaise(ms: seq<Mutation>)
    ensures forall i :: 0 <= i < GoodPrefix(ms) ==> !Raises(ms[i])
    ensures GoodPrefix(ms) < |ms| ==> Raises(ms[GoodPrefix(ms)])
  {
    if ms != [] {
      hide Raises;
      var p := ms[..|ms| - 1];
      GoodUntilRaise(p);
      assert forall i :: 0 <= i < |p| ==> p[i] == ms[i];
    }
  }

  /** An import that raises in the middle of a chunk has applied its lines before that one, has not recorded the chunk,
      and leaves the chunks after it alone. */
  lemma {:induction false} RaisingImport(r: Replica, a: seq<Chunk>, c: Chunk, b: seq<Chunk>, k: nat)
    requires !Imported(r, a).1 && c.id !in Imported(r, a).0.seen
    requires k < |c.body| && Raises(c.body[k]) && forall i :: 0 <= i < k ==> !Raises(c.body[i])
    ensures var before := Imported(r, a).0;
      Imported(r, a + [c] + b) == (before.(rows := ApplyAll(before.rows, c.body[..k])), true)
    decreases |b|
  {
    hide ApplyAll, Raises;
    if b == [] {
      GoodUntilRaise(c.body);
      assert a + [c] + b == a + [c] && (a + [c])[..|a|] == a && (a + [c])[|a|] == c;
    } else {
      var all := a + [c] + b;
      assert all[..|all| - 1] == a + [c] + b[..|b| - 1];
      RaisingImport(r, a, c, b[..|b| - 1], k);
    }
  }

  /** Importing the same chunks once more changes nothing, whatever they hold and in whatever order they came. */
  lemma SecondImportIsIdle(r: Replica, cs: seq<Chunk>, again: seq<Chunk>)
    requires !Imported(r, cs).1 && forall c :: c in again ==> c in cs
    ensures Imported(Imported(r, cs).0, again) == (Imported(r, cs).0, false)
  {
    hide Imported;
    ImportedAreSeen(r, cs);
    SeenAreSkipped(Imported(r, cs).0, again);
  }

  lemma {:induction false} ImportedAreSeen(r: Replica, cs: seq<Chunk>)
    requires !Imported(r, cs).1
    ensures forall c :: c in cs ==> c.id in Imported(r, cs).0.seen
  {
    if cs != [] {
      hide ApplyAll, GoodPrefix;
      ImportedAreSeen(r, cs[..|cs| - 1]);
    }
  }

  lemma {:induction false} SeenAreSkipped(r: Replica, cs: seq<Chunk>)
    requires forall c :: c in cs ==> c.id in r.seen
    ensures Imported(r, cs) == (r, false)
  {
    if cs != [] {
      SeenAreSkipped(r, cs[..|cs| - 1]);
    }
  }
}
