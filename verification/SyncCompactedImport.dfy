/** Importing a compacted export. The import only creates rows, so it cannot carry updates and deletions. */
module SyncCompactedImport {
  import opened Options
  import opened SyncTypes
  import opened SyncJournal
  import opened SyncConvergence
  import opened SyncCompaction
  import opened SyncSnapshot

  /** The rebuilt rows of a compacted window. */
  function Survivors(last: map<string, Mutation>): Store
    requires forall k :: k in last ==> last[k].payload.Some?
  {
    map k | k in last && !last[k].op.Delete? :: SnapshotRebuild(k, last[k].payload.value)
  }

  /** What the import needs at row `k`. */
  predicate Carried(k: string, before: Store, last: map<string, Mutation>)
    requires k in last ==> last[k].payload.Some?
  {
    k in last ==>
      if last[k].op.Delete? then k !in before
      else if k in before then before[k] == Rebuild(last[k], last[k].payload.value)
      else SameRebuild(last[k])
  }

  /** At row `k` the import cannot be wrong: what is there stays, and what it adds is current. */
  predicate Right(k: string, before: Store, last: map<string, Mutation>, after: Store)
    requires k in last ==> last[k].payload.Some?
  {
    && (k in before ==> k in after && after[k] == before[k])
    && (k in last && !last[k].op.Delete? && k !in before ==>
          k in after && after[k] == SnapshotRebuild(k, last[k].payload.value))
  }

  lemma CarriedIsRight(k: string, before: Store, last: map<string, Mutation>, after: Store)
    requires k in last ==> last[k].payload.Some? && last[k].payload.value.id == Some(k) && last[k].key == k
    requires Settled(k, before, last, after)
    ensures Carried(k, before, last) <==> Right(k, before, last, after)
  {
  }

  lemma ListedIsRebuilt(last: map<string, Mutation>, list: seq<Observation>, o: Observation)
    requires forall k :: k in last ==> last[k].payload.Some? && last[k].payload.value.id == Some(k)
    requires Lists(list, Survivors(last)) && o in list
    ensures o.id in last && !last[o.id].op.Delete? && o == SnapshotRebuild(o.id, last[o.id].payload.value)
    ensures Normal(o) == o
  {
    assert o.id in IdsOf(list);
  }

  lemma SurvivorIsListed(last: map<string, Mutation>, list: seq<Observation>, k: string)
    requires forall x :: x in last ==> last[x].payload.Some?
    requires Lists(list, Survivors(last)) && k in last && !last[k].op.Delete?
    ensures exists o :: o in list && o.id == k
  {
    assert k in IdsOf(list);
  }

  /** Right everywhere means that nothing is skipped for a unique key, and that nothing is missing. */
  lemma ImportIff(before: Store, last: map<string, Mutation>, list: seq<Observation>, after: Store)
    requires forall k :: k in last ==> last[k].payload.Some? && last[k].payload.value.id == Some(k)
    requires Lists(list, Survivors(last)) && Unclashed(after) && forall k :: Settled(k, before, last, after)
    ensures AddAll(before, list) == after <==> forall k :: Right(k, before, last, after)
  {
    hide AddAll, Lists, Survivors, Unclashed, Normal, SnapshotRebuild;
    AddAllKeeps(before, list);
    forall o | o in list
      ensures o.id in last && !last[o.id].op.Delete? && o == SnapshotRebuild(o.id, last[o.id].payload.value)
      ensures Normal(o) == o
    {
      ListedIsRebuilt(last, list, o);
    }
    forall k | k in last && !last[k].op.Delete? ensures exists o :: o in list && o.id == k {
      SurvivorIsListed(last, list, k);
    }
    if forall k :: Right(k, before, last, after) {
      forall i | 0 <= i < |list| ensures list[i].id in after {
        assert Right(list[i].id, before, last, after);
      }
      forall i | 0 <= i < |list| && list[i].id !in before ensures after[list[i].id] == list[i] {
        assert Right(list[i].id, before, last, after);
      }
      forall k | k in before ensures k in after && after[k] == before[k] {
        assert Right(k, before, last, after);
      }
      AddAllInto(before, list, after);
      forall k | k in after ensures k in AddAll(before, list) {
        assert Settled(k, before, last, after);
      }
      assert AddAll(before, list) == after;
    }
    if AddAll(before, list) == after {
      forall k ensures Right(k, before, last, after) {
        assert Settled(k, before, last, after);
      }
    }
  }

  /** Importing the compacted window, in whatever order it lists the rows, into a replica at the watermark gives the
      current state if and only if every row deleted since was not there, every changed row that was there has not
      really changed, and every new one is rebuilt the same. Unique keys play no part. */
  lemma CompactedImportIff(j: seq<Mutation>, w: nat, list: seq<Observation>)
    requires WellFormed(j) && Increasing(j) && Keyed(j)
    requires forall k :: k in LastEntries(Since(j, w)) ==> LastEntries(Since(j, w))[k].payload.Some?
    requires Lists(list, Survivors(LastEntries(Since(j, w))))
    ensures var last, before := LastEntries(Since(j, w)), Replay(j[..Cut(j, w)]);
      AddAll(before, list) == Replay(j) <==> forall k :: Carried(k, before, last)
  {
    hide WellFormed, Increasing, Since, Cut, Replay, LastEntries, LastById, Settled, AddAll, Unclashed;
    hide Lists, Survivors, Carried, Right;
    var c := Cut(j, w);
    SinceIsSuffix(j, w);
    var ms, before := j[c..], Replay(j[..c]);
    var last := LastEntries(ms);
    KeyedIsById(ms);
    LastEntriesComeFrom(ms);
    assert j[c..|j|] == ms && j[..|j|] == j;
    forall k | k in last ensures last[k].payload.value.id == Some(k) && last[k].key == k {
      var i :| 0 <= i < |ms| && ms[i] == last[k];
    }
    forall k
      ensures Settled(k, before, last, Replay(j))
      ensures Carried(k, before, last) <==> Right(k, before, last, Replay(j))
    {
      LastEntriesSettle(j, c, |j|, k);
      CarriedIsRight(k, before, last, Replay(j));
    }
    ReplayUnclashed(j);
    ImportIff(before, last, list, Replay(j));
  }
}
