/** From a source history to a replica: the recorder, the journal, the chunks, and the import together. */
module SyncReplication {
  import opened Options
  import opened SyncTypes
  import opened SyncRecorder
  import opened SyncJournal
  import opened SyncProtocol
  import SyncNames

  lemma JournalIncreases(h: seq<Change>, record: Observation -> Payload)
    ensures Increasing(Journal(h, record))
  {
    hide Journal, Entry;
    forall i | 0 <= i < |Journal(h, record)| ensures Journal(h, record)[i].seqno == i + 1 {
      JournalPrefix(h, record, |h|);
      JournalPrefix(h, record, i);
      EntrySeq(h[i], i + 1, record);
    }
  }

  lemma EntrySeq(c: Change, seqno: nat, record: Observation -> Payload)
    ensures Entry(c, seqno, record).seqno == seqno
  {
  }

  /** Every history of accepted changes whose images never clash is recorded by a possible run, which leaves its
      journal. */
  lemma EveryHistoryRuns(h: seq<Change>, record: Observation -> Payload)
    requires History(h) && Sound(record) && NeverClashes(h, record)
    ensures Possible(SyncNames.Recording(Journal(h, record)))
    ensures Run(SyncNames.Recording(Journal(h, record)))
         == System(Exporter(Journal(h, record), 0, map[], []), START.replica)
  {
    hide Possible, Run, Journal, WellFormed, Increasing, NeverClashes, History, Sound;
    JournalImage(h, record);
    JournalIncreases(h, record);
    SyncNames.JournalRuns(Journal(h, record));
  }

  /** Replication from end to end: whatever else any number of services exported, committed and pulled while the
      history was recorded, an export and a pull leave the replica with what the recorder let through of exactly the
      source's rows: if the chunk names are in written order and no row gives up, otherwise than by its deletion, a
      unique key that another row wants. */
  lemma HistoryReplicates(h: seq<Change>, record: Observation -> Payload, steps: seq<Step>, who: nat, chunkSize: int,
                          commit: bool, now: nat)
    requires History(h) && Sound(record) && Run(steps).source.journal == Journal(h, record)
    requires Possible(steps + [Export(who, chunkSize, commit, now)]) && chunkSize > 0
    requires InNameOrder(Run(steps + [Export(who, chunkSize, commit, now)]).source.written)
    requires Kept(Journal(h, record))
    ensures Run(steps + [Export(who, chunkSize, commit, now)] + [Pull]).replica.rows == Image(RowsAfter(h), record)
  {
    hide Run, Image, RowsAfter, Replay, Journal, History, Sound, Kept, InNameOrder, NeverClashes;
    JournalIsWellFormed(steps, Export(who, chunkSize, commit, now));
    WellFormedIff(h, record);
    JournalImage(h, record);
    ExportThenPullReplicates(steps, who, chunkSize, commit, now);
  }

  lemma JournalIsWellFormed(steps: seq<Step>, a: Step)
    requires Possible(steps + [a])
    ensures Possible(steps) && WellFormed(Run(steps).source.journal)
  {
    hide Run, WellFormed;
    PossiblePrefix(steps + [a], |steps|);
    assert (steps + [a])[..|steps|] == steps;
    RunKeepsSourceInv(steps);
  }

  /** With the recorder as it is, while no update gives up a topic key that another id uses, the replica equals the
      source if and only if every live row has only default values in the five fields that are not recorded. */
  lemma HistoryReplicatesIff(h: seq<Change>, steps: seq<Step>, who: nat, chunkSize: int, commit: bool, now: nat)
    requires History(h) && KeepsTopics(h) && Run(steps).source.journal == Journal(h, RecordedPayload)
    requires Possible(steps + [Export(who, chunkSize, commit, now)]) && chunkSize > 0
    requires InNameOrder(Run(steps + [Export(who, chunkSize, commit, now)]).source.written)
    ensures Run(steps + [Export(who, chunkSize, commit, now)] + [Pull]).replica.rows == Plain(RowsAfter(h))
       <==> forall k :: k in RowsAfter(h) ==> Defaulted(RowsAfter(h)[k])
  {
    hide Possible, Run, Image, RowsAfter, Journal, History, Plain, Defaulted, InNameOrder, KeepsTopics, Sound, Kept;
    hide NeverClashes, AlwaysOneRowPerTopic;
    RecordedIsSound();
    JournalIsWellFormed(steps, Export(who, chunkSize, commit, now));
    WellFormedIff(h, RecordedPayload);
    RecordedNeverClashesIff(h);
    RecordedKeptIff(h);
    HistoryReplicates(h, RecordedPayload, steps, who, chunkSize, commit, now);
    ImagePlainIff(RowsAfter(h));
  }

  /** When every export commits at once, topic keys may change hands: an export and a pull still leave the replica with
      the image of the source's rows. */
  lemma HistoryReplicatesOnce(h: seq<Change>, record: Observation -> Payload, steps: seq<Step>, who: nat,
                              chunkSize: int, now: nat)
    requires History(h) && Sound(record) && Run(steps).source.journal == Journal(h, record)
    requires Possible(steps + [Export(who, chunkSize, true, now)]) && chunkSize > 0
    requires NeverBack(steps) && forall i :: 0 <= i < |steps| ==> CommitsAtOnce(steps[i])
    requires InNameOrder(Run(steps + [Export(who, chunkSize, true, now)]).source.written)
    ensures Run(steps + [Export(who, chunkSize, true, now)] + [Pull]).replica.rows == Image(RowsAfter(h), record)
  {
    hide Run, Image, RowsAfter, Journal, History, Sound, InNameOrder, NeverClashes, Imported, Exported, ApplyAll;
    hide WellFormed, NeverBack, Possible, Pulled;
    var push := Export(who, chunkSize, true, now);
    var exported := steps + [push];
    assert !GoesBack(Run(steps), push) && !GoesBack(Run(exported), Pull);
    JournalIsWellFormed(steps, push);
    WellFormedIff(h, record);
    JournalImage(h, record);
    RunSnoc(steps, push);
    RunSnoc(exported, Pull);
    PossibleExtends(exported, Pull);
    assert exported[..|exported| - 1] == steps;
    NeverBackGrows(exported);
    assert (exported + [Pull])[..|exported + [Pull]| - 1] == exported;
    NeverBackGrows(exported + [Pull]);
    PullReplicatesOnce(exported + [Pull]);
    PossiblePrefix(exported, |steps|);
    assert exported[..|steps|] == steps;
    RunKeepsSourceInv(steps);
    CommitReachesAll(Run(steps).source, who, chunkSize, now);
  }

  lemma CommitReachesAll(e: Exporter, who: nat, chunkSize: nat, now: nat)
    requires SourceInv(e) && chunkSize > 0
    ensures var e' := Exported(e, who, chunkSize, true, now);
      e'.journal == e.journal && e'.journal[..Cut(e'.journal, e'.watermark)] == e.journal
  {
    hide Apply, ApplyAll, WellFormed, Flatten, MaxSeq, Cut, Since, Kept, ChunksReplay, DistinctIds, ChunksFrom;
    CutAtLatest(e.journal);
    SinceIsSuffix(e.journal, e.watermark);
    assert e.journal[..|e.journal|] == e.journal;
    if Since(e.journal, e.watermark) != [] {
      SuffixTop(e.journal, Cut(e.journal, e.watermark));
    }
  }
}
