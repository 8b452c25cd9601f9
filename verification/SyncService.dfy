/** The sync service and the observation repository it writes to, step by step,
    proved against the state machine of SyncProtocol. */
module SyncServiceModel {
  import opened Options
  import opened SyncTypes
  import opened SyncJournal
  import opened SyncProtocol

  /** `AlreadyExists` is what any broken unique index is reported as on insertion, `Refused` on update. */
  datatype RepoAnswer = Done | AlreadyExists | NotFound | Refused

  class ObservationRepository {
    var rows: Store

    constructor ()
      ensures rows == map[]
    {
      rows := map[];
    }

    method Create(o: Observation) returns (r: RepoAnswer)
      modifies this
      ensures r == if o.id in old(rows) || Taken(old(rows), o) then AlreadyExists else Done
      ensures rows == if r == Done then old(rows)[o.id := o] else old(rows)
      ensures Unclashed(old(rows)) ==> Unclashed(rows)
    {
      hide Clash;
      if o.id in rows || Taken(rows, o) {
        return AlreadyExists;
      }
      StoringKeepsUnclashed(rows, o);
      rows := rows[o.id := o];
      return Done;
    }

    method Update(o: Observation) returns (r: RepoAnswer)
      modifies this
      ensures r == if o.id !in old(rows) then NotFound else if Taken(old(rows), o) then Refused else Done
      ensures rows == if r == Done then old(rows)[o.id := o] else old(rows)
      ensures Unclashed(old(rows)) ==> Unclashed(rows)
    {
      hide Clash;
      if o.id !in rows {
        return NotFound;
      }
      if Taken(rows, o) {
        return Refused;
      }
      StoringKeepsUnclashed(rows, o);
      rows := rows[o.id := o];
      return Done;
    }

    method Delete(id: string) returns (r: RepoAnswer)
      modifies this
      ensures r == if id in old(rows) then Done else NotFound
      ensures rows == old(rows) - {id}
    {
      if id !in rows {
        return NotFound;
      }
      rows := rows - {id};
      return Done;
    }
  }

  datatype Applied = Inserted | Updated | Deleted | Skipped | Raised

  datatype Counts = Counts(inserted: nat, updated: nat, deleted: nat, skipped: nat) {
    function Total(): nat {
      inserted + updated + deleted + skipped
    }
  }

  datatype ExportAnswer = Paths(ids: seq<ChunkId>) | ZeroChunkSize

  class SyncService {
    const repo: ObservationRepository
    /** Which service object this is, and what the others have pending. */
    const who: nat
    ghost var others: map<nat, nat>
    var journal: seq<Mutation>
    var watermark: nat
    var lastExportMaxSeq: nat
    var files: seq<Chunk>
    var imported: set<ChunkId>

    ghost predicate Valid()
      reads this
    {
      Increasing(journal)
    }

    ghost function Source(): Exporter
      reads this
    {
      Exporter(journal, watermark, others[who := lastExportMaxSeq], files)
    }

    ghost function Target(): Replica
      reads this, repo
    {
      Replica(repo.rows, imported)
    }

    constructor (repo: ObservationRepository, who: nat)
      ensures this.repo == repo && this.who == who && Valid() && imported == {}
      ensures Source() == FRESH.(pending := map[who := 0])
    {
      this.repo, this.who, others := repo, who, map[];
      journal, watermark, lastExportMaxSeq, files, imported := [], 0, 0, [], {};
    }

    /** One delivered mutation: what happens to the rows, and what the caller counts it as. */
    method ApplyMutation(m: Mutation) returns (r: Applied)
      modifies repo
      ensures repo.rows == Apply(old(repo.rows), m)
      ensures r == Raised <==> Raises(m)
      ensures r == Inserted <==> |repo.rows| == |old(repo.rows)| + 1
      ensures r == Deleted <==> |repo.rows| == |old(repo.rows)| - 1
      ensures r == Updated ==> repo.rows.Keys == old(repo.rows).Keys && |repo.rows| == |old(repo.rows)|
      ensures r == Skipped || r == Raised ==> repo.rows == old(repo.rows)
    {
      hide Taken, Clash, Unclashed;
      if m.payload.None? {
        return Skipped;
      }
      var payload := m.payload.value;
      if m.op == Delete {
        if payload.id.None? {
          return Skipped;
        }
        var answer := repo.Delete(payload.id.value);
        RemoveSize(old(repo.rows), payload.id.value);
        return if answer == Done then Deleted else Skipped;
      }
      var observation := Rebuild(m, payload);
      if !observation.Constructible() {
        return Raised;
      }
      if m.op == Insert {
        var answer := repo.Create(observation);
        return if answer == Done then Inserted else Skipped;
      }
      var answer := repo.Update(observation);
      if answer == Done {
        UpdateSize(old(repo.rows), observation);
        return Updated;
      }
      if answer == Refused {
        return Skipped;
      }
      answer := repo.Create(observation);
      return if answer == Done then Inserted else Skipped;
    }

    /** The lines of one chunk, up to one that raises. The counts account for every line applied. */
    method ImportLines(body: seq<Mutation>, counts0: Counts) returns (counts: Counts, raised: bool)
      modifies repo
      ensures repo.rows == ApplyAll(old(repo.rows), body[..GoodPrefix(body)])
      ensures raised <==> GoodPrefix(body) < |body|
      ensures |repo.rows| - |old(repo.rows)|
        == (counts.inserted - counts0.inserted) - (counts.deleted - counts0.deleted)
      ensures counts.Total() == counts0.Total() + GoodPrefix(body)
    {
      hide Apply;
      counts, raised := counts0, false;
      for k := 0 to |body|
        invariant repo.rows == ApplyAll(old(repo.rows), body[..k]) && GoodPrefix(body[..k]) == k
        invariant |repo.rows| - |old(repo.rows)|
          == (counts.inserted - counts0.inserted) - (counts.deleted - counts0.deleted)
        invariant counts.Total() == counts0.Total() + k
      {
        assert body[..k + 1][..k] == body[..k] && body[..k + 1][k] == body[k];
        var applied := ApplyMutation(body[k]);
        match applied
        case Inserted => counts := counts.(inserted := counts.inserted + 1);
        case Updated => counts := counts.(updated := counts.updated + 1);
        case Deleted => counts := counts.(deleted := counts.deleted + 1);
        case Skipped => counts := counts.(skipped := counts.skipped + 1);
        case Raised =>
          StopsAt(body, k);
          return counts, true;
      }
      assert body[..|body|] == body;
    }

    /** One chunk file: nothing if it was imported before, else its lines, and its id once they are all applied. */
    method ImportChunkFile(c: Chunk, counts0: Counts) returns (counts: Counts, raised: bool)
      modifies this`imported, repo
      ensures Target() == ImportChunk(old(Target()), c) && (raised <==> Stops(old(Target()), c))
      ensures |repo.rows| - |old(repo.rows)|
           == (counts.inserted - counts0.inserted) - (counts.deleted - counts0.deleted)
      ensures imported >= old(imported)
    {
      hide ApplyAll, GoodPrefix;
      counts, raised := counts0, false;
      if c.id in imported {
        return;
      }
      counts, raised := ImportLines(c.body, counts);
      if !raised {
        assert c.body[..|c.body|] == c.body;
        imported := imported + {c.id};
      }
    }

    /** Imports chunks in the given order, skipping those already imported and those whose file cannot be opened, until
        one raises. The counts account for the change in the number of rows. */
    method ImportMutations(chunks: seq<Chunk>, unreadable: set<ChunkId>) returns (counts: Counts, raised: bool)
      modifies this`imported, repo
      ensures (Target(), raised) == Imported(old(Target()), Readable(chunks, unreadable))
      ensures |repo.rows| == |old(repo.rows)| + counts.inserted - counts.deleted
      ensures imported >= old(imported)
    {
      hide ImportChunk, Stops, Imported, Readable;
      counts, raised := Counts(0, 0, 0, 0), false;
      ghost var start := Target();
      NothingImported(start, unreadable);
      assert chunks[..0] == [];
      for i := 0 to |chunks|
        invariant (Target(), false) == Imported(start, Readable(chunks[..i], unreadable))
        invariant |repo.rows| == |old(repo.rows)| + counts.inserted - counts.deleted
        invariant imported >= old(imported)
      {
        var c := chunks[i];
        ReadableSnoc(chunks, unreadable, i);
        if c.id in unreadable {
          continue;
        }
        ImportedSnoc(start, Readable(chunks[..i], unreadable), c);
        counts, raised := ImportChunkFile(c, counts);
        if raised {
          ReadablePrefix(chunks, unreadable, i + 1);
          ImportedPrefixStops(start, Readable(chunks[..i + 1], unreadable), Readable(chunks, unreadable));
          return;
        }
      }
      assert chunks[..|chunks|] == chunks;
      return counts, false;
    }

    /** The writing loop of an export: chunk `i / chunkSize` holds the mutations from `i` on. */
    method WriteChunks(mutations: seq<Mutation>, chunkSize: nat, now: nat) returns (paths: seq<ChunkId>, maxSeq: nat)
      requires chunkSize > 0 && mutations != [] && Increasing(mutations)
      modifies this`files
      ensures files == old(files) + ChunksFrom(mutations, chunkSize, now, 0)
      ensures |files| == |old(files)| + |paths|
      ensures forall k :: 0 <= k < |paths| ==> files[|old(files)| + k].id == paths[k]
      ensures maxSeq == MaxSeq(mutations)
    {
      hide MaxSeq, ChunksFrom;
      var i := 0;
      paths, maxSeq := [], 0;
      assert mutations[0..] == mutations;
      while i < |mutations|
        invariant 0 <= i && i == |paths| * chunkSize
        invariant |files| == |old(files)| + |paths|
        invariant forall k :: 0 <= k < |paths| ==> files[|old(files)| + k].id == paths[k]
        invariant files + ChunksFrom(mutations[Min(i, |mutations|)..], chunkSize, now, |paths|)
          == old(files) + ChunksFrom(mutations, chunkSize, now, 0)
        invariant i >= |mutations| ==> maxSeq == mutations[|mutations| - 1].seqno
        decreases |mutations| - i
      {
        var stop := Min(i + chunkSize, |mutations|);
        var batch := mutations[i..stop];
        Quotient(i, chunkSize, |paths|);
        var id := ChunkId(now, i / chunkSize);
        NextChunk(mutations, files, i, chunkSize, now, |paths|);
        files := files + [Chunk(id, batch)];
        paths := paths + [id];
        BatchTop(mutations, i, stop);
        maxSeq := MaxSeq(batch);
        NextMultiple(|paths| - 1, chunkSize);
        i := i + chunkSize;
      }
      NoChunks(mutations[|mutations|..], files, chunkSize, now, |paths|);
      MaxSeqIsLast(mutations);
    }

    /** Writes everything after the watermark as chunks, and moves the watermark now or leaves that to
        CommitExportWatermark. */
    method ExportIncremental(chunkSize: int, commitWatermark: bool, now: nat) returns (r: ExportAnswer)
      requires Valid()
      modifies this`files, this`lastExportMaxSeq, this`watermark
      ensures Valid() && Source() == Exported(old(Source()), who, chunkSize, commitWatermark, now)
      ensures r.ZeroChunkSize? <==> chunkSize == 0 && Since(journal, old(watermark)) != []
      ensures r.Paths? ==> |files| == |old(files)| + |r.ids|
      ensures r.Paths? ==> forall k :: 0 <= k < |r.ids| ==> files[|old(files)| + k].id == r.ids[k]
    {
      hide MaxSeq, ChunksFrom, Since;
      var lastSeq := watermark;
      var mutations := Since(journal, lastSeq);
      SinceIsSuffix(journal, lastSeq);
      if mutations == [] {
        lastExportMaxSeq := 0;
        return Paths([]);
      }
      if chunkSize == 0 {
        return ZeroChunkSize;
      }
      var paths: seq<ChunkId>, maxSeq := [], lastSeq;
      // a negative chunk size makes the range of the writing loop empty
      if chunkSize > 0 {
        paths, maxSeq := WriteChunks(mutations, chunkSize, now);
      }
      lastExportMaxSeq := maxSeq;
      if commitWatermark {
        watermark := maxSeq;
      }
      return Paths(paths);
    }

    method CommitExportWatermark()
      modifies this`watermark
      ensures Source() == Committed(old(Source()), who)
    {
      if lastExportMaxSeq == 0 {
        return;
      }
      watermark := lastExportMaxSeq;
    }
  }

  lemma RemoveSize(s: Store, id: string)
    ensures |s - {id}| == if id in s then |s| - 1 else |s|
  {
    assert (s - {id}).Keys == s.Keys - {id};
    assert |s.Keys| == |s| && |(s - {id}).Keys| == |s - {id}|;
  }

  lemma UpdateSize(s: Store, o: Observation)
    requires o.id in s
    ensures |s[o.id := o]| == |s|
  {
    assert s[o.id := o].Keys == s.Keys;
    assert |s[o.id := o].Keys| == |s[o.id := o]| && |s.Keys| == |s|;
  }

  lemma {:induction false} StopsAt(ms: seq<Mutation>, k: nat)
    requires k < |ms| && GoodPrefix(ms[..k]) == k && Raises(ms[k])
    ensures GoodPrefix(ms) == k
  {
    var p := ms[..|ms| - 1];
    if k < |p| {
      assert p[..k] == ms[..k];
      StopsAt(p, k);
    }
  }

  /** Once an import has stopped, the chunks after that one do not matter. */
  lemma {:induction false} ImportedPrefixStops(r: Replica, a: seq<Chunk>, b: seq<Chunk>)
    requires a <= b && Imported(r, a).1
    ensures Imported(r, b) == Imported(r, a)
    decreases |b|
  {
    if |a| == |b| {
      assert a == b;
    } else {
      assert a <= b[..|b| - 1];
      ImportedPrefixStops(r, a, b[..|b| - 1]);
    }
  }

  lemma NothingImported(r: Replica, unreadable: set<ChunkId>)
    ensures Imported(r, Readable([], unreadable)) == (r, false)
  {
  }

  lemma ImportedSnoc(r: Replica, cs: seq<Chunk>, c: Chunk)
    requires !Imported(r, cs).1
    ensures Imported(r, cs + [c]) == (ImportChunk(Imported(r, cs).0, c), Stops(Imported(r, cs).0, c))
  {
    assert (cs + [c])[..|cs|] == cs;
  }

  /** The chunks whose files can be opened. */
  function Readable(cs: seq<Chunk>, unreadable: set<ChunkId>): seq<Chunk> {
    if cs == [] then []
    else if cs[|cs| - 1].id in unreadable then Readable(cs[..|cs| - 1], unreadable)
    else Readable(cs[..|cs| - 1], unreadable) + [cs[|cs| - 1]]
  }

  lemma ReadableSnoc(cs: seq<Chunk>, unreadable: set<ChunkId>, i: nat)
    requires i < |cs|
    ensures Readable(cs[..i + 1], unreadable) ==
      if cs[i].id in unreadable then Readable(cs[..i], unreadable) else Readable(cs[..i], unreadable) + [cs[i]]
  {
    assert cs[..i + 1][..i] == cs[..i] && cs[..i + 1][i] == cs[i];
  }

  lemma {:induction false} ReadablePrefix(cs: seq<Chunk>, unreadable: set<ChunkId>, n: nat)
    requires n <= |cs|
    ensures Readable(cs[..n], unreadable) <= Readable(cs, unreadable)
    decreases |cs|
  {
    if n == |cs| {
      assert cs[..n] == cs;
    } else {
      assert cs[..|cs| - 1][..n] == cs[..n];
      ReadablePrefix(cs[..|cs| - 1], unreadable, n);
    }
  }

  lemma StoringKeepsUnclashed(s: Store, o: Observation)
    requires !Taken(s, o)
    ensures Unclashed(s) ==> Unclashed(s[o.id := o])
  {
    hide Clash;
    var t := s[o.id := o];
    if Unclashed(s) {
      forall a, b | a in t && b in t && a != b ensures !Clash(t[a], t[b]) {
        if a == o.id || b == o.id {
          var other := if a == o.id then b else a;
          assert !Clash(s[other], o);
          ClashIsSymmetric(s[other], o);
        }
      }
    }
  }

  /** Writing the next chunk leaves what has been written plus what is to be written unchanged. */
  lemma NextChunk(ms: seq<Mutation>, files: seq<Chunk>, i: nat, size: nat, now: nat, index: nat)
    requires size > 0 && i < |ms|
    ensures var stop := Min(i + size, |ms|);
      files + ChunksFrom(ms[i..], size, now, index)
      == files + [Chunk(ChunkId(now, index), ms[i..stop])] + ChunksFrom(ms[stop..], size, now, index + 1)
  {
    var stop := Min(i + size, |ms|);
    assert ms[i..][..stop - i] == ms[i..stop] && ms[i..][stop - i..] == ms[stop..];
  }

  lemma BatchTop(ms: seq<Mutation>, i: nat, stop: nat)
    requires Increasing(ms) && i < stop <= |ms|
    ensures MaxSeq(ms[i..stop]) == ms[stop - 1].seqno
  {
    MaxSeqIsLast(ms[i..stop]);
  }

  lemma NoChunks(ms: seq<Mutation>, files: seq<Chunk>, size: nat, now: nat, index: nat)
    requires size > 0 && ms == []
    ensures files + ChunksFrom(ms, size, now, index) == files
  {
  }

  lemma NextMultiple(n: nat, size: nat)
    ensures (n + 1) * size == n * size + size
  {
  }

  lemma MulAtLeast(q: int, size: int)
    requires size > 0 && q >= 1
    ensures q * size >= size
  {
  }

  lemma Quotient(i: int, size: int, n: int)
    requires size > 0 && i == n * size
    ensures i / size == n
  {
    var q, r := i / size, i % size;
    assert q * size + r == i && 0 <= r < size;
    assert (q - n) * size == -r;
    if q > n {
      MulAtLeast(q - n, size);
    } else if q < n {
      MulAtLeast(n - q, size);
    }
  }
}
