/** What a pull presents: git fetches the chunk files, and only those that are new in the directory are imported.
    When the process ends in between, no later pull presents them again. */
module SyncFetch {
  import opened Options
  import opened SyncTypes
  import opened SyncJournal
  import opened SyncProtocol

  /** The replica and the ids of the chunk files in its directory. */
  datatype Downloads = Downloads(replica: Replica, dir: set<ChunkId>)

  /** The chunks whose files are not in the directory yet. */
  function New(cs: seq<Chunk>, dir: set<ChunkId>): seq<Chunk> {
    if cs == [] then []
    else if cs[|cs| - 1].id in dir then New(cs[..|cs| - 1], dir)
    else New(cs[..|cs| - 1], dir) + [cs[|cs| - 1]]
  }

  function Offered(d: Downloads, written: seq<Chunk>): seq<Chunk> {
    New(Pulled(written), d.dir)
  }

  /** How a pull ends: as it should, or with the process, after some chunks and some lines of the next one. */
  datatype End = Regular | Dies(chunks: nat, lines: nat)

  datatype Fetch = Fetch(written: seq<Chunk>, end: End)

  /** The import of `cs`, cut short. */
  function CutShort(r: Replica, cs: seq<Chunk>, chunks: nat, lines: nat): Replica {
    var n := Min(chunks, |cs|);
    var (r', raised) := Imported(r, cs[..n]);
    if raised || n == |cs| || cs[n].id in r'.seen then r'
    else r'.(rows := ApplyAll(r'.rows, cs[n].body[..Min(lines, GoodPrefix(cs[n].body))]))
  }

  function Pull(d: Downloads, f: Fetch): Downloads {
    var cs := Offered(d, f.written);
    Downloads(if f.end.Regular? then Imported(d.replica, cs).0 else CutShort(d.replica, cs, f.end.chunks, f.end.lines),
              d.dir + Ids(f.written))
  }

  const NOTHING := Downloads(START.replica, {})

  function Pulls(fs: seq<Fetch>): Downloads {
    if fs == [] then NOTHING else Pull(Pulls(fs[..|fs| - 1]), fs[|fs| - 1])
  }

  /** Every file in the directory has been recorded as imported. */
  predicate AllRecorded(d: Downloads) {
    d.dir <= d.replica.seen
  }

  /** The chunks that this pull presented were all recorded when it ended. */
  predicate Completes(d: Downloads, f: Fetch) {
    forall c :: c in Offered(d, f.written) ==> c.id in Pull(d, f).replica.seen
  }

  lemma {:induction false} NewIsNew(cs: seq<Chunk>, dir: set<ChunkId>)
    ensures forall c :: c in New(cs, dir) <==> c in cs && c.id !in dir
  {
    if cs != [] {
      NewIsNew(cs[..|cs| - 1], dir);
      assert forall c :: c in cs <==> c in cs[..|cs| - 1] || c == cs[|cs| - 1];
    }
  }

  lemma PulledIsAll(written: seq<Chunk>)
    ensures forall c :: c in Pulled(written) <==> c in written
  {
    ChunkNames.SortIsAscending(ChunkName, written);
    forall c ensures c in Pulled(written) <==> c in written {
      assert c in multiset(Pulled(written)) <==> c in multiset(written);
    }
  }

  lemma OfferedIsNew(d: Downloads, written: seq<Chunk>)
    ensures forall c :: c in Offered(d, written) <==> c in written && c.id !in d.dir
  {
    PulledIsAll(written);
    NewIsNew(Pulled(written), d.dir);
  }

  /** An import records only what it is given, and forgets nothing. */
  lemma {:induction false} ImportRecords(r: Replica, cs: seq<Chunk>)
    ensures r.seen <= Imported(r, cs).0.seen <= r.seen + Ids(cs)
  {
    if cs != [] {
      hide ApplyAll, GoodPrefix;
      ImportRecords(r, cs[..|cs| - 1]);
      assert cs[|cs| - 1] in cs && Ids(cs[..|cs| - 1]) <= Ids(cs);
    }
  }

  lemma PullRecords(d: Downloads, f: Fetch)
    ensures var cs := Offered(d, f.written); d.replica.seen <= Pull(d, f).replica.seen <= d.replica.seen + Ids(cs)
  {
    hide Imported;
    var cs := Offered(d, f.written);
    ImportRecords(d.replica, cs);
    if f.end.Dies? {
      var n := Min(f.end.chunks, |cs|);
      ImportRecords(d.replica, cs[..n]);
      assert Ids(cs[..n]) <= Ids(cs);
    }
  }

  /** What is left when the process dies in a chunk: the chunks before it are imported and recorded, of that one
      some lines have been applied, and it is not recorded. */
  lemma DyingInChunk(r: Replica, cs: seq<Chunk>, n: nat, lines: nat)
    requires n < |cs| && !Imported(r, cs[..n]).1 && cs[n].id !in Imported(r, cs[..n]).0.seen
    requires lines <= |cs[n].body| && forall i :: 0 <= i < lines ==> !Raises(cs[n].body[i])
    ensures var before := Imported(r, cs[..n]).0;
      CutShort(r, cs, n, lines) == before.(rows := ApplyAll(before.rows, cs[n].body[..lines]))
  {
    hide Raises, ApplyAll, Imported;
    GoodUntilRaise(cs[n].body);
  }

  /** A file that was fetched and not recorded is lost: no later pull records it. */
  lemma {:induction false} LostStaysLost(fs: seq<Fetch>, n: nat, id: ChunkId)
    requires n <= |fs| && id in Pulls(fs[..n]).dir && id !in Pulls(fs[..n]).replica.seen
    ensures id in Pulls(fs).dir && id !in Pulls(fs).replica.seen
    decreases |fs|
  {
    hide Pull;
    if n == |fs| {
      assert fs[..n] == fs;
    } else {
      var k := |fs| - 1;
      assert fs[..k][..n] == fs[..n];
      LostStaysLost(fs[..k], n, id);
      LostOnce(Pulls(fs[..k]), fs[k], id);
    }
  }

  lemma LostOnce(d: Downloads, f: Fetch, id: ChunkId)
    requires id in d.dir && id !in d.replica.seen
    ensures id in Pull(d, f).dir && id !in Pull(d, f).replica.seen
  {
    hide Offered, Imported, CutShort;
    PullRecords(d, f);
    OfferedIsNew(d, f.written);
  }

  lemma OnePullIff(d: Downloads, f: Fetch)
    ensures AllRecorded(Pull(d, f)) <==> AllRecorded(d) && Completes(d, f)
  {
    hide Offered, Imported, CutShort;
    PullRecords(d, f);
    OfferedIsNew(d, f.written);
    if !AllRecorded(d) {
      var id :| id in d.dir && id !in d.replica.seen;
      LostOnce(d, f, id);
    }
    if AllRecorded(Pull(d, f)) {
      forall c | c in Offered(d, f.written) ensures c.id in Pull(d, f).replica.seen {
        assert c.id in Ids(f.written);
      }
    }
  }

  ghost predicate AlwaysCompletes(fs: seq<Fetch>) {
    forall i {:trigger Pulls(fs[..i])} :: 0 <= i < |fs| ==> Completes(Pulls(fs[..i]), fs[i])
  }

  /** Over every run of pulls: nothing that was fetched is lost if and only if each pull recorded every file it
      presented before its process ended. */
  lemma {:induction false} NothingLostIff(fs: seq<Fetch>)
    ensures AllRecorded(Pulls(fs)) <==> AlwaysCompletes(fs)
  {
    hide Pull, Completes;
    if fs != [] {
      hide AllRecorded;
      var n := |fs| - 1;
      NothingLostIff(fs[..n]);
      OnePullIff(Pulls(fs[..n]), fs[n]);
      assert AlwaysCompletes(fs) <==> AlwaysCompletes(fs[..n]) && Completes(Pulls(fs[..n]), fs[n]) by {
        CompletesGrows(fs);
      }
    }
  }

  lemma CompletesGrows(fs: seq<Fetch>)
    requires fs != []
    ensures AlwaysCompletes(fs) <==>
            AlwaysCompletes(fs[..|fs| - 1]) && Completes(Pulls(fs[..|fs| - 1]), fs[|fs| - 1])
  {
    hide Pulls, Completes;
    var n := |fs| - 1;
    forall i | 0 <= i < n ensures fs[..n][..i] == fs[..i] && fs[..n][i] == fs[i] {
    }
    if AlwaysCompletes(fs) {
      assert Completes(Pulls(fs[..n]), fs[n]);
      forall i | 0 <= i < n ensures Completes(Pulls(fs[..n][..i]), fs[..n][i]) {
        assert Completes(Pulls(fs[..i]), fs[i]);
      }
    }
    if AlwaysCompletes(fs[..n]) && Completes(Pulls(fs[..n]), fs[n]) {
      forall i | 0 <= i < |fs| ensures Completes(Pulls(fs[..i]), fs[i]) {
        if i < n {
          assert Completes(Pulls(fs[..n][..i]), fs[..n][i]);
        }
      }
    }
  }

  /** A pull that ends regularly without raising records all it presents. */
  lemma RegularCompletes(d: Downloads, written: seq<Chunk>)
    requires !Imported(d.replica, Offered(d, written)).1
    ensures Completes(d, Fetch(written, Regular))
  {
    hide Imported, Offered;
    ImportedAreSeen(d.replica, Offered(d, written));
  }

  /** As long as nothing is lost, presenting the new files is as good as presenting them all, which is how the machine
      of SyncProtocol pulls. */
  lemma RegularIsPull(d: Downloads, written: seq<Chunk>)
    requires AllRecorded(d)
    ensures Pull(d, Fetch(written, Regular)).replica == Imported(d.replica, Pulled(written)).0
  {
    hide Imported, Pulled;
    SkippingIsSame(d.replica, Pulled(written), d.dir);
  }

  lemma {:induction false} SkippingIsSame(r: Replica, cs: seq<Chunk>, dir: set<ChunkId>)
    requires dir <= r.seen
    ensures Imported(r, New(cs, dir)) == Imported(r, cs)
  {
    if cs != [] {
      hide ApplyAll, GoodPrefix;
      var p, c := cs[..|cs| - 1], cs[|cs| - 1];
      SkippingIsSame(r, p, dir);
      if c.id in dir {
        ImportRecords(r, p);
      } else {
        assert (New(p, dir) + [c])[..|New(p, dir)|] == New(p, dir);
      }
    }
  }

  /** A process that dies right after git has fetched loses every file that was new. */
  lemma DyingLoses(d: Downloads, written: seq<Chunk>, c: Chunk, more: seq<Fetch>, before: seq<Fetch>)
    requires d == Pulls(before) && c in written && c.id !in d.dir && c.id !in d.replica.seen
    ensures c.id !in Pulls(before + [Fetch(written, Dies(0, 0))] + more).replica.seen
  {
    var f := Fetch(written, Dies(0, 0));
    var fs := before + [f] + more;
    assert fs[..|before| + 1] == before + [f] && (before + [f])[..|before|] == before;
    var cs := Offered(d, written);
    assert cs[..0] == [];
    assert Pulls(before + [f]) == Pull(d, f);
    assert Pull(d, f).replica.seen == d.replica.seen;
    assert c.id in Ids(written);
    LostStaysLost(fs, |before| + 1, c.id);
  }
}
