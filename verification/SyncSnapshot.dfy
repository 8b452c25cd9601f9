/** The full snapshot: dump every observation into chunk files, import them elsewhere. */
module SyncSnapshot {
  import opened Options
  import opened SyncTypes
  import opened ChunkNames
  import opened SyncServiceModel

  /** Python's floor division. */
  function FloorDiv(a: int, b: int): int
    requires b != 0
  {
    if b > 0 then a / b else (-a) / (-b)
  }

  /** Python's `s[i:j]` for a nonnegative start: a negative end counts from the back, and both are clamped. */
  function Slice<T>(s: seq<T>, i: nat, j: int): seq<T> {
    var stop := Max(0, Min(if j < 0 then |s| + j else j, |s|));
    if i <= stop then s[i..stop] else []
  }

  // Sorting by timestamp: stable insertion.

  function InsertByTime(o: Observation, s: seq<Observation>): seq<Observation> {
    if s == [] || o.timestamp <= s[0].timestamp then [o] + s else [s[0]] + InsertByTime(o, s[1..])
  }

  function ByTime(s: seq<Observation>): seq<Observation> {
    if s == [] then [] else InsertByTime(s[0], ByTime(s[1..]))
  }

  lemma {:induction false} InsertKeepsAll(o: Observation, s: seq<Observation>)
    ensures multiset(InsertByTime(o, s)) == multiset{o} + multiset(s)
  {
    if s != [] && o.timestamp > s[0].timestamp {
      InsertKeepsAll(o, s[1..]);
      assert s == [s[0]] + s[1..];
    }
  }

  lemma {:induction false} ByTimeKeepsAll(s: seq<Observation>)
    ensures multiset(ByTime(s)) == multiset(s)
  {
    if s != [] {
      ByTimeKeepsAll(s[1..]);
      InsertKeepsAll(s[0], ByTime(s[1..]));
      assert s == [s[0]] + s[1..];
    }
  }

  ghost predicate Ordered(s: seq<Observation>) {
    forall i, k :: 0 <= i <= k < |s| ==> s[i].timestamp <= s[k].timestamp
  }

  /** The observations of one timestamp. */
  function OfTime(s: seq<Observation>, t: int): seq<Observation> {
    if s == [] then [] else (if s[0].timestamp == t then [s[0]] else []) + OfTime(s[1..], t)
  }

  lemma {:induction false} InsertSorts(o: Observation, s: seq<Observation>)
    requires Ordered(s)
    ensures Ordered(InsertByTime(o, s))
  {
    if s != [] && o.timestamp > s[0].timestamp {
      InsertSorts(o, s[1..]);
      InsertKeepsAll(o, s[1..]);
      var r := InsertByTime(o, s[1..]);
      forall k | 0 <= k < |r| ensures s[0].timestamp <= r[k].timestamp {
        assert r[k] in multiset(r);
        assert r[k] == o || r[k] in s[1..];
      }
    }
  }

  lemma OfTimeCons(o: Observation, s: seq<Observation>, t: int)
    ensures OfTime([o] + s, t) == (if o.timestamp == t then [o] else []) + OfTime(s, t)
  {
    assert ([o] + s)[1..] == s;
  }

  lemma {:induction false} InsertIsStable(o: Observation, s: seq<Observation>, t: int)
    ensures OfTime(InsertByTime(o, s), t) == (if o.timestamp == t then [o] else []) + OfTime(s, t)
  {
    hide OfTime;
    if s != [] && o.timestamp > s[0].timestamp {
      InsertIsStable(o, s[1..], t);
      OfTimeCons(s[0], InsertByTime(o, s[1..]), t);
      OfTimeCons(s[0], s[1..], t);
      assert s == [s[0]] + s[1..];
    } else {
      OfTimeCons(o, s, t);
    }
  }

  /** Sorting is by timestamp, and stable. */
  lemma {:induction false} ByTimeSorts(s: seq<Observation>, t: int)
    ensures Ordered(ByTime(s)) && OfTime(ByTime(s), t) == OfTime(s, t)
  {
    if s != [] {
      ByTimeSorts(s[1..], t);
      InsertSorts(s[0], ByTime(s[1..]));
      InsertIsStable(s[0], ByTime(s[1..]), t);
    }
  }

  ghost predicate Distinct(s: seq<Observation>) {
    forall i, k :: 0 <= i < k < |s| ==> s[i].id != s[k].id
  }

  function IdsOf(s: seq<Observation>): set<string> {
    set o | o in s :: o.id
  }

  /** `s` lists the rows of `store`, each once. */
  ghost predicate Lists(s: seq<Observation>, store: Store) {
    Distinct(s) && IdsOf(s) == store.Keys && forall o :: o in s ==> store[o.id] == o
  }

  lemma {:induction false} InsertDistinct(o: Observation, s: seq<Observation>)
    requires Distinct(s) && o.id !in IdsOf(s)
    ensures Distinct(InsertByTime(o, s)) && IdsOf(InsertByTime(o, s)) == IdsOf(s) + {o.id}
  {
    if s != [] && o.timestamp > s[0].timestamp {
      hide Distinct;
      DistinctTail(s);
      hide IdsOf;
      InsertDistinct(o, s[1..]);
      DistinctCons(s[0], InsertByTime(o, s[1..]));
    } else {
      DistinctCons(o, s);
    }
  }

  lemma DistinctCons(o: Observation, s: seq<Observation>)
    requires Distinct(s) && o.id !in IdsOf(s)
    ensures Distinct([o] + s) && IdsOf([o] + s) == IdsOf(s) + {o.id}
  {
    assert forall k :: 0 <= k < |s| ==> s[k].id in IdsOf(s);
  }

  lemma DistinctTail(s: seq<Observation>)
    requires Distinct(s) && s != []
    ensures Distinct(s[1..]) && IdsOf(s) == IdsOf(s[1..]) + {s[0].id} && s[0].id !in IdsOf(s[1..])
  {
    assert s == [s[0]] + s[1..];
  }

  lemma {:induction false} ByTimeDistinct(s: seq<Observation>)
    requires Distinct(s)
    ensures Distinct(ByTime(s)) && IdsOf(ByTime(s)) == IdsOf(s)
  {
    if s != [] {
      ByTimeDistinct(s[1..]);
      assert s == [s[0]] + s[1..];
      assert forall o :: o in s[1..] ==> o.id != s[0].id;
      InsertDistinct(s[0], ByTime(s[1..]));
    }
  }

  /** Sorting keeps a list of the store a list of the store. */
  lemma ListsSorted(s: seq<Observation>, store: Store)
    requires Lists(s, store)
    ensures Lists(ByTime(s), store)
  {
    ByTimeDistinct(s);
    ByTimeKeepsAll(s);
    forall o | o in ByTime(s) ensures o in s {
      assert o in multiset(ByTime(s));
    }
  }

  lemma {:induction false} IdsSize(s: seq<Observation>)
    requires Distinct(s)
    ensures |IdsOf(s)| == |s|
  {
    if s != [] {
      var n := |s| - 1;
      IdsSize(s[..n]);
      assert s == s[..n] + [s[n]];
      assert IdsOf(s) == IdsOf(s[..n]) + {s[n].id};
    }
  }

  // Import.

  /** What the importer stores for a line: a type that is not allowed becomes None. */
  function Normal(o: Observation): Observation {
    if o.kind.Some? && o.kind.value.Disallowed? then o.(kind := None) else o
  }

  /** No line is refused for its type, and nothing else of it changes. */
  lemma NormalMeans(o: Observation)
    ensures Normal(o) == o.(kind := Normal(o).kind)
    ensures Normal(o).kind == if o.kind.Some? && o.kind.value.Allowed? then o.kind else None
    ensures Normal(o).Constructible() <==> o.(kind := None).Constructible()
  {
  }

  function AddAll(rows: Store, s: seq<Observation>): Store {
    if s == [] then rows
    else
      var before, o := AddAll(rows, s[..|s| - 1]), s[|s| - 1];
      if o.id in before || Taken(before, Normal(o)) then before else before[o.id := Normal(o)]
  }

  lemma {:induction false} AddAllConcat(rows: Store, a: seq<Observation>, b: seq<Observation>)
    ensures AddAll(rows, a + b) == AddAll(AddAll(rows, a), b)
  {
    if b == [] {
      assert a + b == a;
    } else {
      AddAllConcat(rows, a, b[..|b| - 1]);
      assert (a + b)[..|a + b| - 1] == a + b[..|b| - 1];
    }
  }

  /** Adding keeps what is there, and nothing is new but what was listed. */
  lemma {:induction false} AddAllKeeps(rows: Store, s: seq<Observation>)
    ensures forall k :: k in rows ==> k in AddAll(rows, s) && AddAll(rows, s)[k] == rows[k]
    ensures forall k :: k in AddAll(rows, s) ==>
              k in rows || exists o :: o in s && o.id == k && AddAll(rows, s)[k] == Normal(o)
  {
    hide Taken;
    if s != [] {
      AddAllKeeps(rows, s[..|s| - 1]);
    }
  }

  /** Importing what is already there changes nothing. */
  lemma {:induction false} AddAllIdle(rows: Store, s: seq<Observation>)
    requires forall i :: 0 <= i < |s| ==> s[i].id in rows
    ensures AddAll(rows, s) == rows
  {
    hide Taken;
    if s != [] {
      AddAllIdle(rows, s[..|s| - 1]);
    }
  }

  /** An empty store ends with exactly the listed rows, if these keep the unique indexes. */
  lemma AddAllRestores(s: seq<Observation>, store: Store)
    requires Lists(s, store) && Unclashed(store)
    requires forall i :: 0 <= i < |s| ==> Normal(s[i]) == s[i]
    ensures AddAll(map[], s) == store
  {
    hide Unclashed, AddAll, Normal;
    AddAllInto(map[], s, store);
    forall k | k in store ensures k in AddAll(map[], s) {
      assert k in IdsOf(s);
    }
  }

  /** All rows of `a` are in `b`. */
  ghost predicate Part(a: Store, b: Store) {
    forall k :: k in a ==> k in b && b[k] == a[k]
  }

  /** Nothing is refused for a unique key while the rows are, and come to be, part of a store that keeps the unique
      indexes. */
  lemma {:induction false} AddAllInto(rows: Store, s: seq<Observation>, store: Store)
    requires Unclashed(store) && Part(rows, store)
    requires forall o :: o in s ==> MayCome(rows, o, store)
    ensures Part(AddAll(rows, s), store) && Part(rows, AddAll(rows, s))
    ensures forall o :: o in s ==> o.id in AddAll(rows, s)
  {
    hide Part, MayCome, Normal, Taken, Unclashed;
    if s == [] {
      PartOfItself(rows);
    } else {
      var n := |s| - 1;
      assert s[n] in s && forall o :: o in s[..n] ==> o in s;
      AddAllInto(rows, s[..n], store);
      AddOneInto(rows, AddAll(rows, s[..n]), s[n], store);
      assert forall o :: o in s ==> o in s[..n] || o == s[n];
    }
  }

  lemma PartOfItself(rows: Store)
    ensures Part(rows, rows)
  {
  }

  /** The row that the store has for this line is one that is there already, or what the line brings. */
  predicate MayCome(rows: Store, o: Observation, store: Store) {
    o.id in store && (o.id in rows || (store[o.id] == Normal(o) && Normal(o).id == o.id))
  }

  lemma AddOneInto(rows: Store, before: Store, o: Observation, store: Store)
    requires Unclashed(store) && Part(rows, before) && Part(before, store) && MayCome(rows, o, store)
    ensures var after := if o.id in before || Taken(before, Normal(o)) then before else before[o.id := Normal(o)];
      Part(after, store) && Part(rows, after) && before.Keys + {o.id} <= after.Keys
  {
    hide Normal, Taken, Unclashed;
    if o.id !in before {
      PartOfUnclashed(before, store, o.id);
    }
  }

  lemma PartOfUnclashed(rows: Store, store: Store, id: string)
    requires Unclashed(store) && Part(rows, store) && id in store && store[id].id == id
    ensures !Taken(rows, store[id])
  {
    hide Clash;
  }

  function Concat(cs: seq<seq<Observation>>): seq<Observation> {
    if cs == [] then [] else Concat(cs[..|cs| - 1]) + cs[|cs| - 1]
  }

  lemma ConcatSnoc(cs: seq<seq<Observation>>, c: seq<Observation>)
    ensures Concat(cs + [c]) == Concat(cs) + c
  {
    assert (cs + [c])[..|cs + [c]| - 1] == cs;
  }

  // Arithmetic of the chunk loop.

  lemma CeilBounds(n: nat, size: nat)
    requires size > 0 && n > 0
    ensures var count := (n + size - 1) / size; count > 0 && (count - 1) * size < n <= count * size
  {
    var count, r := (n + size - 1) / size, (n + size - 1) % size;
    assert count * size + r == n + size - 1 && 0 <= r < size;
    assert (count - 1) * size == count * size - size;
    if count <= 0 {
      MulSign(count, size);
    }
  }

  lemma MulSign(q: int, size: nat)
    requires q <= 0
    ensures q * size <= 0
  {
  }

  lemma MulMonotone(a: int, b: int, size: nat)
    requires a <= b
    ensures a * size <= b * size
  {
    MulSign(a - b, size);
    assert (a - b) * size == a * size - b * size;
  }

  datatype DumpAnswer = Chunks(parts: seq<seq<Observation>>) | ZeroDivision

  /** One round of the loop with a positive chunk size takes the next `chunkSize` rows, or the rest. */
  lemma PositiveRound(sorted: seq<Observation>, i: nat, count: int, size: nat)
    requires size > 0 && i < count && (count - 1) * size < |sorted|
    ensures 0 <= i * size < |sorted| && (i + 1) * size == i * size + size
    ensures i < count - 1 ==> (i + 1) * size <= |sorted|
    ensures var stop := Min((i + 1) * size, |sorted|);
      && Slice(sorted, i * size, stop) == sorted[i * size..stop]
      && sorted[..i * size] + sorted[i * size..stop] == sorted[..stop]
  {
    MulMonotone(0, i, size);
    MulMonotone(i, count - 1, size);
    if i < count - 1 {
      MulMonotone(i + 1, count - 1, size);
    }
    assert (i + 1) * size == i * size + size;
  }

  /** The loop over chunk numbers. */
  method CutParts(sorted: seq<Observation>, chunkSize: int, chunkCount: int) returns (parts: seq<seq<Observation>>)
    requires chunkSize > 0 ==> chunkCount > 0 && (chunkCount - 1) * chunkSize < |sorted| <= chunkCount * chunkSize
    requires chunkSize <= 0 ==> chunkSize < 0 && chunkCount <= (if |sorted| == 1 then 1 else 0)
    ensures chunkSize > 0 ==> Concat(parts) == sorted
    ensures chunkSize > 0 ==> forall i :: 0 <= i < |parts| ==> 1 <= |parts[i]| <= chunkSize
    ensures chunkSize > 0 ==> forall i :: 0 <= i < |parts| - 1 ==> |parts[i]| == chunkSize
    ensures chunkSize < 0 ==> Concat(parts) == []
  {
    hide Concat;
    parts := [];
    assert Concat(parts) == [] by {
      ConcatNone();
    }
    var i := 0;
    while i < chunkCount
      invariant 0 <= i <= Max(0, chunkCount) && |parts| == i
      invariant chunkSize > 0 ==> Concat(parts) == sorted[..Min(Max(0, i * chunkSize), |sorted|)]
      invariant chunkSize > 0 ==> forall k :: 0 <= k < i ==> 1 <= |parts[k]| <= chunkSize
      invariant chunkSize > 0 ==> forall k :: 0 <= k < i && k < chunkCount - 1 ==> |parts[k]| == chunkSize
      invariant chunkSize < 0 ==> Concat(parts) == []
    {
      var startIdx, endIdx := i * chunkSize, Min((i + 1) * chunkSize, |sorted|);
      if chunkSize > 0 {
        PositiveRound(sorted, i, chunkCount, chunkSize);
      } else {
        assert i == 0 && startIdx == 0 && endIdx == chunkSize;
      }
      var part := Slice(sorted, startIdx, endIdx);
      ConcatSnoc(parts, part);
      parts := parts + [part];
      i := i + 1;
    }
    if chunkSize > 0 {
      assert sorted[..|sorted|] == sorted;
    }
  }

  lemma ConcatNone()
    ensures Concat([]) == []
  {
  }

  /** The dump: a positive chunk size partitions the list sorted by timestamp into nonempty chunks of that
      size, but for the last, which may be smaller; a negative one writes no observation at all; 0 divides by zero. */
  method Dump(observations: seq<Observation>, chunkSize: int) returns (r: DumpAnswer)
    ensures r.ZeroDivision? <==> chunkSize == 0 && observations != []
    ensures r.Chunks? && chunkSize > 0 ==> Concat(r.parts) == ByTime(observations)
    ensures r.Chunks? && chunkSize > 0 ==> forall i :: 0 <= i < |r.parts| ==> 1 <= |r.parts[i]| <= chunkSize
    ensures r.Chunks? && chunkSize > 0 ==> forall i :: 0 <= i < |r.parts| - 1 ==> |r.parts[i]| == chunkSize
    ensures r.Chunks? && chunkSize < 0 ==> Concat(r.parts) == []
  {
    if observations == [] {
      return Chunks([]);
    }
    if chunkSize == 0 {
      return ZeroDivision;
    }
    var sorted := ByTime(observations);
    ByTimeKeepsAll(observations);
    assert |multiset(sorted)| == |multiset(observations)|;
    var total := |sorted|;
    var chunkCount := FloorDiv(total + chunkSize - 1, chunkSize);
    if chunkSize > 0 {
      CeilBounds(total, chunkSize);
    } else {
      NegativeCount(total, chunkSize);
    }
    var parts := CutParts(sorted, chunkSize, chunkCount);
    return Chunks(parts);
  }

  /** With a negative size at most one round is made, and then the one chunk is empty. */
  lemma NegativeCount(n: nat, size: int)
    requires size < 0 && n > 0
    ensures FloorDiv(n + size - 1, size) <= (if n == 1 then 1 else 0)
  {
    var q := FloorDiv(n + size - 1, size);
    var d := -size;
    var a := d + 1 - n;
    assert q == a / d && q * d + a % d == a && 0 <= a % d < d;
    if n > 1 && q >= 1 {
      MulMonotone(1, q, d);
    } else if n == 1 && q >= 2 {
      MulMonotone(2, q, d);
    }
  }

  // Importing snapshot chunks.

  /** A chunk file as the importer sees it: its name, and its lines as observations; None for a line that is not JSON or
      lacks a key. */
  datatype SnapChunk = SnapChunk(name: string, lines: seq<Option<Observation>>)

  function Parsed(lines: seq<Option<Observation>>): seq<Observation> {
    if lines == [] then []
    else if lines[|lines| - 1].None? then Parsed(lines[..|lines| - 1])
    else Parsed(lines[..|lines| - 1]) + [lines[|lines| - 1].value]
  }

  function Lines(part: seq<Observation>): seq<Option<Observation>> {
    seq(|part|, i requires 0 <= i < |part| => Some(part[i]))
  }

  lemma {:induction false} LinesParse(part: seq<Observation>)
    ensures Parsed(Lines(part)) == part
  {
    if part != [] {
      var n := |part| - 1;
      LinesParse(part[..n]);
      assert Lines(part)[..n] == Lines(part[..n]);
    }
  }

  /** The chunks whose files exist. */
  function Present(cs: seq<SnapChunk>, missing: set<string>): seq<SnapChunk> {
    if cs == [] then []
    else if cs[|cs| - 1].name in missing then Present(cs[..|cs| - 1], missing)
    else Present(cs[..|cs| - 1], missing) + [cs[|cs| - 1]]
  }

  lemma PresentSnoc(cs: seq<SnapChunk>, missing: set<string>, i: nat)
    requires i < |cs|
    ensures Present(cs[..i + 1], missing) ==
      if cs[i].name in missing then Present(cs[..i], missing) else Present(cs[..i], missing) + [cs[i]]
  {
    assert cs[..i + 1][..i] == cs[..i] && cs[..i + 1][i] == cs[i];
  }

  lemma {:induction false} PresentPrefix(cs: seq<SnapChunk>, missing: set<string>, n: nat)
    requires n <= |cs|
    ensures Present(cs[..n], missing) <= Present(cs, missing)
    decreases |cs|
  {
    if n == |cs| {
      assert cs[..n] == cs;
    } else {
      assert cs[..|cs| - 1][..n] == cs[..n];
      PresentPrefix(cs[..|cs| - 1], missing, n);
    }
  }

  function NamesOf(cs: seq<SnapChunk>): set<string> {
    set c | c in cs :: c.name
  }

  /** The lines of the chunks not imported before, in order. */
  function Pending(seen: set<string>, cs: seq<SnapChunk>): seq<Observation> {
    if cs == [] then []
    else
      var before, c := cs[..|cs| - 1], cs[|cs| - 1];
      Pending(seen, before) + if c.name in seen + NamesOf(before) then [] else Parsed(c.lines)
  }

  predicate Acceptable(s: seq<Observation>) {
    forall i :: 0 <= i < |s| ==> Normal(s[i]).Constructible()
  }

  /** The lines before the first one that the entity refuses. */
  function UpToRefused(s: seq<Observation>): seq<Observation> {
    if s == [] || !Normal(s[0]).Constructible() then [] else [s[0]] + UpToRefused(s[1..])
  }

  lemma {:induction false} StopsAtRefused(s: seq<Observation>, k: nat)
    requires k <= |s| && Acceptable(s[..k]) && (k < |s| ==> !Normal(s[k]).Constructible())
    ensures UpToRefused(s) == s[..k]
  {
    if k > 0 {
      assert s[..k][0] == s[0] && s[1..][..k - 1] == s[..k][1..];
      StopsAtRefused(s[1..], k - 1);
      assert s[..k] == [s[0]] + s[1..][..k - 1];
    }
  }

  lemma {:induction false} FirstRefused(s: seq<Observation>) returns (k: nat)
    requires !Acceptable(s)
    ensures k < |s| && Acceptable(s[..k]) && !Normal(s[k]).Constructible()
  {
    var n := |s| - 1;
    if Acceptable(s[..n]) {
      k := n;
    } else {
      k := FirstRefused(s[..n]);
      assert s[..n][..k] == s[..k];
    }
  }

  class SnapshotImporter {
    const repo: ObservationRepository
    var imported: set<string>

    constructor (repo: ObservationRepository)
      ensures this.repo == repo && imported == {}
    {
      this.repo := repo;
      imported := {};
    }

    /** Returns how many observations were created; None if a line holds values the entity refuses, and then the
        lines before it were stored. Chunks whose file is missing are skipped, and so are lines that do not parse. */
    method ImportObservations(chunks: seq<SnapChunk>, missing: set<string>) returns (count: Option<nat>)
      modifies this`imported, repo
      ensures count.Some? <==> Acceptable(Pending(old(imported), Present(chunks, missing)))
      ensures repo.rows == AddAll(old(repo.rows), UpToRefused(Pending(old(imported), Present(chunks, missing))))
      ensures count.Some? ==> UpToRefused(Pending(old(imported), Present(chunks, missing)))
                              == Pending(old(imported), Present(chunks, missing))
      ensures count.Some? ==> count.value == |repo.rows| - |old(repo.rows)|
      ensures count.Some? ==> imported == old(imported) + NamesOf(Present(chunks, missing))
    {
      hide AddAll, Pending, Acceptable, UpToRefused, Present, Parsed, NamesOf;
      var total := 0;
      ghost var seen, start := imported, repo.rows;
      NothingPending(seen, start, missing);
      assert chunks[..0] == [];
      for i := 0 to |chunks|
        invariant imported == seen + NamesOf(Present(chunks[..i], missing))
        invariant Acceptable(Pending(seen, Present(chunks[..i], missing)))
        invariant repo.rows == AddAll(start, Pending(seen, Present(chunks[..i], missing)))
        invariant total == |repo.rows| - |start|
      {
        var c := chunks[i];
        ghost var before := Present(chunks[..i], missing);
        PresentSnoc(chunks, missing, i);
        if c.name in missing {
          continue;
        }
        PendingSnoc(seen, before, c);
        if c.name in imported {
          continue;
        }
        var created := ImportSingleChunk(c.lines);
        AddAllConcat(start, Pending(seen, before), UpToRefused(Parsed(c.lines)));
        if created.None? {
          PresentPrefix(chunks, missing, i + 1);
          PendingPrefix(seen, Present(chunks[..i + 1], missing), Present(chunks, missing));
          RefusedLater(Pending(seen, before), Parsed(c.lines), Pending(seen, Present(chunks, missing)));
          return None;
        }
        AcceptBoth(Pending(seen, before), Parsed(c.lines));
        total := total + created.value;
        imported := imported + {c.name};
      }
      assert chunks[..|chunks|] == chunks;
      NoneRefused(Pending(seen, Present(chunks, missing)));
      return Some(total);
    }

    method ImportSingleChunk(lines: seq<Option<Observation>>) returns (created: Option<nat>)
      modifies repo
      ensures created.Some? <==> Acceptable(Parsed(lines))
      ensures repo.rows == AddAll(old(repo.rows), UpToRefused(Parsed(lines)))
      ensures created.Some? ==> UpToRefused(Parsed(lines)) == Parsed(lines)
      ensures created.Some? ==> created.value == |repo.rows| - |old(repo.rows)|
    {
      hide Taken;
      var n := 0;
      for k := 0 to |lines|
        invariant repo.rows == AddAll(old(repo.rows), Parsed(lines[..k])) && Acceptable(Parsed(lines[..k]))
        invariant n == |repo.rows| - |old(repo.rows)|
      {
        assert lines[..k + 1][..k] == lines[..k] && lines[..k + 1][k] == lines[k];
        if lines[k].None? {
          continue;
        }
        var observation := Normal(lines[k].value);
        assert Parsed(lines[..k + 1])[..|Parsed(lines[..k])|] == Parsed(lines[..k]);
        if !observation.Constructible() {
          ParsedPrefix(lines, k + 1);
          assert Parsed(lines)[..|Parsed(lines[..k])|] == Parsed(lines[..k]);
          StopsAtRefused(Parsed(lines), |Parsed(lines[..k])|);
          return None;
        }
        var answer := repo.Create(observation);
        if answer == Done {
          n := n + 1;
        }
      }
      assert lines[..|lines|] == lines;
      NoneRefused(Parsed(lines));
      return Some(n);
    }
  }

  lemma {:induction false} ParsedPrefix(lines: seq<Option<Observation>>, n: nat)
    requires n <= |lines|
    ensures Parsed(lines[..n]) <= Parsed(lines)
    decreases |lines|
  {
    if n == |lines| {
      assert lines[..n] == lines;
    } else {
      assert lines[..|lines| - 1][..n] == lines[..n];
      ParsedPrefix(lines[..|lines| - 1], n);
    }
  }

  lemma NothingPending(seen: set<string>, rows: Store, missing: set<string>)
    ensures Present([], missing) == [] && NamesOf([]) == {}
    ensures Pending(seen, []) == [] && AddAll(rows, []) == rows && Acceptable([])
  {
  }

  lemma PendingSnoc(seen: set<string>, cs: seq<SnapChunk>, c: SnapChunk)
    ensures NamesOf(cs + [c]) == NamesOf(cs) + {c.name}
    ensures Pending(seen, cs + [c])
      == if c.name in seen + NamesOf(cs) then Pending(seen, cs) else Pending(seen, cs) + Parsed(c.lines)
  {
    assert (cs + [c])[..|cs|] == cs;
  }

  lemma AcceptBoth(a: seq<Observation>, b: seq<Observation>)
    requires Acceptable(a) && Acceptable(b)
    ensures Acceptable(a + b)
  {
  }

  lemma {:induction false} PendingPrefix(seen: set<string>, a: seq<SnapChunk>, b: seq<SnapChunk>)
    requires a <= b
    ensures Pending(seen, a) <= Pending(seen, b)
    decreases |b|
  {
    if |a| == |b| {
      assert a == b;
    } else {
      assert a <= b[..|b| - 1];
      PendingPrefix(seen, a, b[..|b| - 1]);
    }
  }

  lemma RefusedLater(a: seq<Observation>, b: seq<Observation>, all: seq<Observation>)
    requires a + b <= all && Acceptable(a) && !Acceptable(b)
    ensures !Acceptable(all) && UpToRefused(all) == a + UpToRefused(b)
  {
    hide UpToRefused;
    var k := FirstRefused(b);
    StopsAtRefused(b, k);
    assert all[|a| + k] == b[k] && all[..|a| + k] == a + b[..k];
    AcceptBoth(a, b[..k]);
    StopsAtRefused(all, |a| + k);
  }

  lemma NoneRefused(s: seq<Observation>)
    requires Acceptable(s)
    ensures UpToRefused(s) == s
  {
    assert s[..|s|] == s;
    StopsAtRefused(s, |s|);
  }

  lemma {:induction false} PendingFresh(seen: set<string>, cs: seq<SnapChunk>, parts: seq<seq<Observation>>)
    requires |cs| == |parts| && forall i :: 0 <= i < |cs| ==> cs[i].lines == Lines(parts[i]) && cs[i].name !in seen
    requires forall i, k :: 0 <= i < k < |cs| ==> cs[i].name != cs[k].name
    ensures Pending(seen, cs) == Concat(parts)
  {
    if cs != [] {
      var n := |cs| - 1;
      PendingFresh(seen, cs[..n], parts[..n]);
      LinesParse(parts[n]);
      assert cs[n].name !in NamesOf(cs[..n]);
    }
  }

  lemma {:induction false} PendingSeen(seen: set<string>, cs: seq<SnapChunk>)
    requires NamesOf(cs) <= seen
    ensures Pending(seen, cs) == []
  {
    if cs != [] {
      assert cs[|cs| - 1].name in NamesOf(cs);
      PendingSeen(seen, cs[..|cs| - 1]);
    }
  }

  /** The chunk files of a dump. */
  function ChunkFiles(now: nat, parts: seq<seq<Observation>>): seq<SnapChunk> {
    seq(|parts|, i requires 0 <= i < |parts| => SnapChunk(Name(SNAPSHOT, now, i), Lines(parts[i])))
  }

  /** The round trip: whatever the chunk size, the chunk files of a dump of a store restore exactly that store in
      an empty one, and importing them again, under the same names or with the names forgotten, adds nothing. */
  lemma SnapshotRoundTrips(observations: seq<Observation>, store: Store, parts: seq<seq<Observation>>, now: nat)
    requires Lists(observations, store) && Concat(parts) == ByTime(observations)
    requires Unclashed(store) && forall k :: k in store ==> store[k].Constructible()
    ensures var files := ChunkFiles(now, parts);
      && Acceptable(Pending({}, files))
      && AddAll(map[], Pending({}, files)) == store
      && |store| == |observations|
      && Pending(NamesOf(files), files) == []
      && AddAll(store, Pending({}, files)) == store
  {
    hide Less, Name, SortBy, Taken, Clash, AddAll, Unclashed, ByTime;
    var files, sorted := ChunkFiles(now, parts), ByTime(observations);
    forall i, k | 0 <= i < k < |files| ensures files[i].name != files[k].name {
      NamesDiffer(SNAPSHOT, now, i, now, k);
    }
    PendingFresh({}, files, parts);
    PendingSeen(NamesOf(files), files);
    ListsSorted(observations, store);
    IdsSize(observations);
    assert |store.Keys| == |store|;
    forall i | 0 <= i < |sorted|
      ensures sorted[i].id in store && Normal(sorted[i]) == sorted[i] && Normal(sorted[i]).Constructible()
    {
      assert sorted[i].id in IdsOf(sorted);
    }
    AddAllRestores(sorted, store);
    AddAllIdle(store, sorted);
  }

  // The manifest.

  const SHA256 := "sha256:"

  /** The checksum over files read one after another; the digest is uninterpreted. */
  function Checksum(files: seq<File>, digest: string -> string): string {
    SHA256 + digest(Bytes(files))
  }

  function Bytes(files: seq<File>): string {
    if files == [] then "" else files[0].bytes + Bytes(files[1..])
  }

  /** The check before an import: no manifest passes, and so does one without a checksum or with one of another kind;
      else the digest over the files in sorted order must match. */
  predicate ManifestPasses(files: seq<File>, manifest: Option<string>, digest: string -> string) {
    manifest.None? || !(SHA256 <= manifest.value) || Checksum(SortBy(FileName, files), digest) == manifest.value
  }

  /** A dump of at most 1000 chunks passes its own manifest check, for every digest. */
  lemma ManifestValidates(files: seq<File>, now: nat, digest: string -> string)
    requires Written(files, now) && |files| <= 1000
    ensures ManifestPasses(files, Some(Checksum(files, digest)), digest)
  {
    SortedIsWrittenOrderIff(files, now);
  }

  /** With more than 1000 chunks the check reads them in another order; a digest and contents that make it
      refuse the very files the manifest was written for exist for every larger number of chunks. */
  lemma ManifestRefuses(now: nat, n: nat) returns (files: seq<File>, digest: string -> string)
    requires n > 1000
    ensures Written(files, now) && |files| == n
    ensures !ManifestPasses(files, Some(Checksum(files, digest)), digest)
  {
    files := seq(n, i requires 0 <= i < n =>
      File(Name(SNAPSHOT, now, i), if i == 101 then "a" else if i == 1000 then "b" else ""));
    digest := (s: string) => if s == "ab" then "ab" else "other";
    BytesWritten(files, now, 0);
    BytesSorted(files, now);
  }

  lemma {:induction false} BytesWritten(files: seq<File>, now: nat, k: nat)
    requires |files| > 1000 && k <= |files|
    requires forall i :: 0 <= i < |files| ==> files[i].bytes == if i == 101 then "a" else if i == 1000 then "b" else ""
    ensures Bytes(files[k..]) == if k <= 101 then "ab" else if k <= 1000 then "b" else ""
    decreases |files| - k
  {
    if k < |files| {
      BytesWritten(files, now, k + 1);
      assert files[k..][1..] == files[k + 1..];
    } else {
      assert files[k..] == [];
    }
    assert k == 0 ==> files[k..] == files;
  }

  /** In sorted order the file named 1000 comes before the file named 101. */
  lemma BytesSorted(files: seq<File>, now: nat)
    requires Written(files, now) && |files| > 1000
    requires forall i :: 0 <= i < |files| ==> files[i].bytes == if i == 101 then "a" else if i == 1000 then "b" else ""
    ensures Bytes(SortBy(FileName, files)) != "ab"
  {
    hide Less, Name, SortBy, Bytes;
    var s := SortBy(FileName, files);
    SortIsAscending(FileName, files);
    ThousandDescends(SNAPSHOT, now);
    assert files[101] in multiset(s) && files[1000] in multiset(s);
    var p :| 0 <= p < |s| && s[p] == files[101];
    var q :| 0 <= q < |s| && s[q] == files[1000];
    assert files[101].name == Name(SNAPSHOT, now, 101) && files[1000].name == Name(SNAPSHOT, now, 1000);
    SmallerComesFirst(FileName, s, q, p);
    BytesFirst(s, q, p);
  }

  /** A "b" with an "a" somewhere after it. */
  lemma {:induction false} BytesFirst(s: seq<File>, q: nat, p: nat)
    requires q < p < |s| && s[q].bytes == "b" && s[p].bytes == "a"
    ensures Bytes(s) != "ab"
  {
    BytesSplit(s, q);
    BytesSplit(s[q + 1..], p - q - 1);
    var before, between, behind := Bytes(s[..q]), Bytes(s[q + 1..][..p - q - 1]), Bytes(s[q + 1..][p - q..]);
    assert s[q + 1..][p - q - 1] == s[p] && s[q + 1..][p - q - 1 + 1..] == s[q + 1..][p - q..];
    var w := before + "b" + (between + "a" + behind);
    assert w[|before|] == 'b' && w[|before| + 1 + |between|] == 'a';
  }

  lemma {:induction false} BytesSplit(s: seq<File>, q: nat)
    requires q < |s|
    ensures Bytes(s) == Bytes(s[..q]) + s[q].bytes + Bytes(s[q + 1..])
  {
    if q == 0 {
      assert s[..0] == [];
    } else {
      BytesSplit(s[1..], q - 1);
      assert s[1..][..q - 1] == s[..q][1..] && s[1..][q - 1] == s[q] && s[1..][q..] == s[q + 1..];
    }
  }
}
