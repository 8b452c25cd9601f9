/** What the source's own recorder writes into the journal, and what a replica can rebuild from it. */
module SyncRecorder {
  import opened Options
  import opened SyncTypes

  /** A change to the source store, recorded at time `at`. An upsert is an update found by topic key; its journal
      entry is keyed by the topic. */
  datatype Change =
    | Put(o: Observation, at: int)
    | Overwrite(o: Observation, at: int)
    | Upsert(o: Observation, at: int)
    | Remove(id: string, at: int)

  /** A source row with the time its last change was recorded. */
  datatype Row = Row(o: Observation, at: int)

  type Rows = map<string, Row>

  function Changed(rows: Rows, c: Change): Rows {
    if c.Remove? then rows - {c.id} else rows[c.o.id := Row(c.o, c.at)]
  }

  function RowsAfter(h: seq<Change>): Rows {
    if h == [] then map[] else Changed(RowsAfter(h[..|h| - 1]), h[|h| - 1])
  }

  /** The rows without the recording times. */
  function Plain(rows: Rows): Store {
    map k | k in rows :: rows[k].o
  }

  /** The repository accepts `c`: creating needs an absent id, updating and deleting a present one, and the unique
      indexes of the source must hold. */
  predicate Accepted(rows: Rows, c: Change) {
    if c.Remove? then c.id in rows
    else
      && c.o.Constructible() && c.at >= 0
      && !Taken(Plain(rows), c.o)
      && (c.Put? <==> c.o.id !in rows)
      && (c.Upsert? ==> c.o.topicKey.Some?)
  }

  ghost predicate History(h: seq<Change>) {
    forall i {:trigger RowsAfter(h[..i])} :: 0 <= i < |h| ==> Accepted(RowsAfter(h[..i]), h[i])
  }

  lemma HistoryPrefix(h: seq<Change>, n: nat)
    requires History(h) && n <= |h|
    ensures History(h[..n])
    ensures n < |h| ==> Accepted(RowsAfter(h[..n]), h[n]) && RowsAfter(h[..n + 1]) == Changed(RowsAfter(h[..n]), h[n])
  {
    hide Accepted, Changed;
    forall i | 0 <= i < n ensures Accepted(RowsAfter(h[..n][..i]), h[..n][i]) {
      assert h[..n][..i] == h[..i] && h[..n][i] == h[i];
      assert Accepted(RowsAfter(h[..i]), h[i]);
    }
    if n < |h| {
      assert h[..n + 1][..n] == h[..n];
      assert Accepted(RowsAfter(h[..n]), h[n]);
    }
  }

  /** A payload that carries all ten serialised fields. */
  function FullPayload(o: Observation): Payload {
    Payload(Some(o.id), Some(o.timestamp), Some(o.content), o.metadata, o.idempotencyKey, o.project, o.kind,
            o.topicKey, Some(o.revisionCount), o.sessionId)
  }

  /** The payload the observation repository actually records: five of the ten fields. */
  function RecordedPayload(o: Observation): Payload {
    Payload(Some(o.id), None, Some(o.content), o.metadata, None, None, o.kind, o.topicKey, None, None)
  }

  function Entry(c: Change, seqno: nat, record: Observation -> Payload): Mutation {
    match c
    case Put(o, at) => Mutation(seqno, o.id, Insert, Some(record(o)), o.project.GetOr(""), at)
    case Overwrite(o, at) => Mutation(seqno, o.id, Update, Some(record(o)), o.project.GetOr(""), at)
    case Upsert(o, at) => Mutation(seqno, o.topicKey.GetOr(""), Update, Some(record(o)), o.project.GetOr(""), at)
    case Remove(id, at) =>
      Mutation(seqno, id, Delete,
               Some(Payload(Some(id), None, None, None, None, None, None, None, None, None)), "", at)
  }

  function Journal(h: seq<Change>, record: Observation -> Payload): seq<Mutation> {
    if h == [] then [] else Journal(h[..|h| - 1], record) + [Entry(h[|h| - 1], |h|, record)]
  }

  lemma {:induction false} JournalPrefix(h: seq<Change>, record: Observation -> Payload, n: nat)
    requires n <= |h|
    ensures |Journal(h, record)| == |h| && Journal(h, record)[..n] == Journal(h[..n], record)
    ensures n < |h| ==> Journal(h, record)[n] == Entry(h[n], n + 1, record)
    decreases |h|
  {
    if h != [] {
      hide Entry;
      var h' := h[..|h| - 1];
      if n < |h| {
        JournalPrefix(h', record, n);
        assert h'[..n] == h[..n];
      } else {
        JournalPrefix(h', record, |h'|);
        assert h[..n] == h;
      }
    }
  }

  /** What a replica holds for a source row. */
  function Delivered(r: Row, record: Observation -> Payload): Observation {
    Rebuild(Mutation(0, r.o.id, Update, Some(record(r.o)), "", r.at), record(r.o))
  }

  function Image(rows: Rows, record: Observation -> Payload): Store {
    map k | k in rows :: Delivered(rows[k], record)
  }

  /** The recorder keeps the id and writes payloads the entity accepts. */
  ghost predicate Sound(record: Observation -> Payload) {
    forall o: Observation, at: int :: o.Constructible() && at >= 0 ==> SoundFor(record, o, at)
  }

  predicate SoundFor(record: Observation -> Payload, o: Observation, at: int) {
    record(o).id == Some(o.id) && Delivered(Row(o, at), record).Constructible()
  }

  /** No other row of the replica's image holds a unique key of the row as it comes through the recorder. */
  predicate Fits(rows: Rows, c: Change, record: Observation -> Payload) {
    c.Remove? || !Taken(Image(rows, record), Delivered(Row(c.o, c.at), record))
  }

  /** One change: its entry is legal in the image exactly when it fits, and then leads to the next image. */
  lemma EntryImage(rows: Rows, c: Change, seqno: nat, record: Observation -> Payload)
    requires Accepted(rows, c) && Sound(record)
    ensures Legal(Image(rows, record), Entry(c, seqno, record)) <==> Fits(rows, c, record)
    ensures Fits(rows, c, record) ==>
        Apply(Image(rows, record), Entry(c, seqno, record)) == Image(Changed(rows, c), record)
    ensures !Fits(rows, c, record) ==> Apply(Image(rows, record), Entry(c, seqno, record)) == Image(rows, record)
  {
    var m := Entry(c, seqno, record);
    ImageChanged(rows, c, record);
    hide Taken, Delivered, Clash, Plain;
    if !c.Remove? {
      assert SoundFor(record, c.o, c.at);
      BuiltIsDelivered(c, seqno, record);
      assert m.payload.value.id == Some(c.o.id);
    }
  }

  lemma ImageChanged(rows: Rows, c: Change, record: Observation -> Payload)
    ensures Image(Changed(rows, c), record) ==
      if c.Remove? then Image(rows, record) - {c.id}
      else Image(rows, record)[c.o.id := Delivered(Row(c.o, c.at), record)]
  {
    hide Delivered;
  }

  lemma BuiltIsDelivered(c: Change, seqno: nat, record: Observation -> Payload)
    requires !c.Remove? && record(c.o).id == Some(c.o.id)
    ensures Stores(Entry(c, seqno, record)) && Built(Entry(c, seqno, record)) == Delivered(Row(c.o, c.at), record)
  {
  }

  /** A change fits exactly when the next image keeps the unique indexes. */
  lemma FitsIff(rows: Rows, c: Change, record: Observation -> Payload)
    requires Unclashed(Image(rows, record)) && (!c.Remove? ==> record(c.o).id == Some(c.o.id))
    ensures Fits(rows, c, record) <==> Unclashed(Image(Changed(rows, c), record))
  {
    var s, t := Image(rows, record), Image(Changed(rows, c), record);
    hide Clash;
    if !c.Remove? {
      var id, d := c.o.id, Delivered(Row(c.o, c.at), record);
      hide Delivered;
      forall a, b | a in t && b in t && a != b && Fits(rows, c, record) ensures !Clash(t[a], t[b]) {
        var other := if a == id then b else a;
        if a == id || b == id {
          assert s[other] == t[other] && !Clash(s[other], d);
          ClashIsSymmetric(s[other], d);
        } else {
          assert !Clash(s[a], s[b]);
        }
      }
      if Unclashed(t) {
        forall k | k in s && k != id ensures !Clash(s[k], d) {
          assert t[k] == s[k] && t[id] == d && !Clash(t[k], t[id]);
        }
      }
    } else {
      forall a, b | a in t && b in t && a != b ensures !Clash(t[a], t[b]) {
        assert s[a] == t[a] && s[b] == t[b] && !Clash(s[a], s[b]);
      }
    }
  }

  // The first delivery.

  /** After every prefix of the history the image keeps the replica's unique indexes. */
  ghost predicate NeverClashes(h: seq<Change>, record: Observation -> Payload) {
    forall n {:trigger RowsAfter(h[..n])} :: 0 <= n <= |h| ==> Unclashed(Image(RowsAfter(h[..n]), record))
  }

  /** After every prefix the replica is the image of the source rows. */
  ghost predicate AlwaysImage(h: seq<Change>, record: Observation -> Payload) {
    forall n {:trigger RowsAfter(h[..n])} :: 0 <= n <= |h| ==>
      Replay(Journal(h[..n], record)) == Image(RowsAfter(h[..n]), record)
  }

  lemma ReplayOneMore(h: seq<Change>, record: Observation -> Payload, n: nat)
    requires n < |h|
    ensures Replay(Journal(h[..n + 1], record)) == Apply(Replay(Journal(h[..n], record)), Entry(h[n], n + 1, record))
  {
    hide Apply, Entry;
    assert h[..n + 1][..n] == h[..n];
    ApplyAllSnoc(map[], Journal(h[..n], record), Entry(h[n], n + 1, record));
  }

  lemma {:induction false} ImageUpTo(h: seq<Change>, record: Observation -> Payload, n: nat)
    requires History(h) && Sound(record) && NeverClashes(h, record) && n <= |h|
    ensures Replay(Journal(h[..n], record)) == Image(RowsAfter(h[..n]), record)
    ensures n < |h| ==> Legal(Replay(Journal(h[..n], record)), Entry(h[n], n + 1, record))
  {
    hide Apply, Legal, Entry, Image, Fits, Sound, SoundFor, Accepted, Changed, Unclashed, Journal, RowsAfter, Replay;
    if n == 0 {
      EmptyImage(h, record);
    } else {
      ImageUpTo(h, record, n - 1);
      StepToImage(h, record, n - 1);
    }
    if n < |h| {
      HistoryPrefix(h, n);
      EntryFits(h, record, n);
      EntryImage(RowsAfter(h[..n]), h[n], n + 1, record);
    }
  }

  lemma EmptyImage(h: seq<Change>, record: Observation -> Payload)
    ensures Replay(Journal(h[..0], record)) == Image(RowsAfter(h[..0]), record) == map[]
  {
  }

  lemma EntryFits(h: seq<Change>, record: Observation -> Payload, n: nat)
    requires History(h) && Sound(record) && NeverClashes(h, record) && n < |h|
    ensures Fits(RowsAfter(h[..n]), h[n], record)
  {
    hide Image, Fits, Unclashed, Changed;
    HistoryPrefix(h, n);
    assert Unclashed(Image(RowsAfter(h[..n]), record)) && Unclashed(Image(RowsAfter(h[..n + 1]), record));
    assert !h[n].Remove? ==> SoundFor(record, h[n].o, h[n].at);
    FitsIff(RowsAfter(h[..n]), h[n], record);
  }

  lemma StepToImage(h: seq<Change>, record: Observation -> Payload, n: nat)
    requires History(h) && Sound(record) && NeverClashes(h, record) && n < |h|
    requires Replay(Journal(h[..n], record)) == Image(RowsAfter(h[..n]), record)
    ensures Replay(Journal(h[..n + 1], record)) == Image(RowsAfter(h[..n + 1]), record)
  {
    hide Apply, Legal, Entry, Image, Fits, Sound, Accepted, Changed, Unclashed, Journal, RowsAfter, Replay;
    HistoryPrefix(h, n);
    EntryFits(h, record, n);
    EntryImage(RowsAfter(h[..n]), h[n], n + 1, record);
    ReplayOneMore(h, record, n);
  }

  /** If no two images clash, the journal is well formed and its replay is the image of the source rows. */
  lemma JournalImage(h: seq<Change>, record: Observation -> Payload)
    requires History(h) && Sound(record) && NeverClashes(h, record)
    ensures WellFormed(Journal(h, record))
    ensures Replay(Journal(h, record)) == Image(RowsAfter(h), record)
  {
    hide Legal, Entry, Image, Sound, History, NeverClashes, Replay, Journal, RowsAfter;
    assert h[..|h|] == h;
    ImageUpTo(h, record, |h|);
    forall i | 0 <= i < |Journal(h, record)|
      ensures Legal(Replay(Journal(h, record)[..i]), Journal(h, record)[i])
    {
      JournalPrefix(h, record, |h|);
      JournalPrefix(h, record, i);
      ImageUpTo(h, record, i);
    }
  }

  /** The first delivery, exactly: after every prefix the replica is the recorder's image of the source if and only if
      that image never breaks a unique index of the replica. */
  lemma FirstDeliveryIff(h: seq<Change>, record: Observation -> Payload)
    requires History(h) && Sound(record)
    ensures AlwaysImage(h, record) <==> NeverClashes(h, record)
  {
    hide Image, Sound, History, Replay, Journal, RowsAfter, Unclashed;
    if NeverClashes(h, record) {
      forall n | 0 <= n <= |h| ensures Replay(Journal(h[..n], record)) == Image(RowsAfter(h[..n]), record) {
        ImageUpTo(h, record, n);
      }
    }
    if AlwaysImage(h, record) {
      forall n | 0 <= n <= |h| ensures Unclashed(Image(RowsAfter(h[..n]), record)) {
        ReplayUnclashed(Journal(h[..n], record));
      }
    }
  }

  lemma {:induction false} WellFormedUpTo(h: seq<Change>, record: Observation -> Payload, n: nat)
    requires History(h) && Sound(record) && WellFormed(Journal(h, record)) && n <= |h|
    ensures Replay(Journal(h[..n], record)) == Image(RowsAfter(h[..n]), record)
  {
    hide Apply, Legal, Entry, Image, Fits, Sound, Accepted, Changed, Journal, RowsAfter, Replay;
    if n == 0 {
      EmptyImage(h, record);
    } else {
      WellFormedUpTo(h, record, n - 1);
      JournalPrefix(h, record, n - 1);
      assert Legal(Replay(Journal(h, record)[..n - 1]), Journal(h, record)[n - 1]);
      HistoryPrefix(h, n - 1);
      EntryImage(RowsAfter(h[..n - 1]), h[n - 1], n, record);
      ReplayOneMore(h, record, n - 1);
    }
  }

  /** The recorded journal is well formed exactly when the images never clash. */
  lemma WellFormedIff(h: seq<Change>, record: Observation -> Payload)
    requires History(h) && Sound(record)
    ensures WellFormed(Journal(h, record)) <==> NeverClashes(h, record)
  {
    hide Image, Sound, History, Replay, Journal, RowsAfter, NeverClashes, WellFormed;
    if WellFormed(Journal(h, record)) {
      forall n | 0 <= n <= |h| ensures Replay(Journal(h[..n], record)) == Image(RowsAfter(h[..n]), record) {
        WellFormedUpTo(h, record, n);
      }
      FirstDeliveryIff(h, record);
    }
    if NeverClashes(h, record) {
      JournalImage(h, record);
    }
  }

  // A recorder of all ten fields.

  /** The source itself keeps its unique indexes. */
  lemma {:induction false} SourceUnclashed(h: seq<Change>)
    requires History(h)
    ensures Unclashed(Plain(RowsAfter(h)))
    ensures forall k :: k in RowsAfter(h) ==> RowsAfter(h)[k].o.Constructible() && RowsAfter(h)[k].o.id == k
  {
    if h != [] {
      var n := |h| - 1;
      HistoryPrefix(h, n);
      assert h[..n + 1] == h;
      SourceUnclashed(h[..n]);
      ChangeKeepsUnclashed(RowsAfter(h[..n]), h[n]);
    }
  }

  lemma ChangeKeepsUnclashed(rows: Rows, c: Change)
    requires Unclashed(Plain(rows)) && Accepted(rows, c)
    requires forall k :: k in rows ==> rows[k].o.Constructible() && rows[k].o.id == k
    ensures Unclashed(Plain(Changed(rows, c)))
    ensures forall k :: k in Changed(rows, c) ==> Changed(rows, c)[k].o.Constructible() && Changed(rows, c)[k].o.id == k
  {
    var s, t := Plain(rows), Plain(Changed(rows, c));
    hide Clash;
    forall a, b | a in t && b in t && a != b ensures !Clash(t[a], t[b]) {
      if !c.Remove? && (a == c.o.id || b == c.o.id) {
        var other := if a == c.o.id then b else a;
        assert s[other] == t[other] && !Clash(s[other], c.o);
        ClashIsSymmetric(s[other], c.o);
      } else {
        assert s[a] == t[a] && s[b] == t[b] && !Clash(s[a], s[b]);
      }
    }
  }

  lemma FullImage(rows: Rows)
    ensures Image(rows, FullPayload) == Plain(rows)
  {
    forall k | k in rows ensures Delivered(rows[k], FullPayload) == rows[k].o {
    }
  }

  lemma FullIsSound()
    ensures Sound(FullPayload)
  {
    forall o: Observation, at: int | o.Constructible() && at >= 0 ensures SoundFor(FullPayload, o, at) {
      assert Delivered(Row(o, at), FullPayload) == o;
    }
  }

  /** With all ten fields recorded, a replica holds exactly the source's rows. */
  lemma FullPayloadReplicates(h: seq<Change>)
    requires History(h)
    ensures WellFormed(Journal(h, FullPayload)) && Replay(Journal(h, FullPayload)) == Plain(RowsAfter(h))
  {
    hide Image, Sound, Unclashed, Plain, WellFormed, Replay, Journal, RowsAfter, History;
    FullIsSound();
    forall n | 0 <= n <= |h| ensures Unclashed(Image(RowsAfter(h[..n]), FullPayload)) {
      HistoryPrefix(h, n);
      SourceUnclashed(h[..n]);
      FullImage(RowsAfter(h[..n]));
    }
    JournalImage(h, FullPayload);
    FullImage(RowsAfter(h));
  }

  // The recorder as it is.

  lemma RecordedIsSound()
    ensures Sound(RecordedPayload)
  {
    forall o: Observation, at: int | o.Constructible() && at >= 0 ensures SoundFor(RecordedPayload, o, at) {
      RecordedFields(Row(o, at));
    }
  }

  lemma RecordedFields(r: Row)
    ensures Delivered(r, RecordedPayload)
         == Observation(r.o.id, r.at, r.o.content, r.o.metadata, None, None, r.o.kind, r.o.topicKey, 1, None)
  {
  }

  /** No two live rows share a topic key, whatever their projects. */
  ghost predicate OneRowPerTopic(rows: Rows) {
    forall a, b :: a in rows && b in rows && a != b && rows[a].o.topicKey.Some? ==>
      rows[a].o.topicKey != rows[b].o.topicKey
  }

  /** The recorder drops the project, so on the replica the topic key alone must be unique. */
  lemma RecordedUnclashedIff(rows: Rows)
    ensures Unclashed(Image(rows, RecordedPayload)) <==> OneRowPerTopic(rows)
  {
    var s := Image(rows, RecordedPayload);
    forall a, b | a in rows && b in rows
      ensures Clash(s[a], s[b]) <==> rows[a].o.topicKey.Some? && rows[a].o.topicKey == rows[b].o.topicKey
    {
      RecordedFields(rows[a]);
      RecordedFields(rows[b]);
    }
    hide Clash;
    if OneRowPerTopic(rows) {
      forall a, b | a in s && b in s && a != b ensures !Clash(s[a], s[b]) {
      }
    }
    if Unclashed(s) {
      forall a, b | a in rows && b in rows && a != b && rows[a].o.topicKey.Some?
        ensures rows[a].o.topicKey != rows[b].o.topicKey
      {
        assert !Clash(s[a], s[b]);
      }
    }
  }

  ghost predicate AlwaysOneRowPerTopic(h: seq<Change>) {
    forall n {:trigger RowsAfter(h[..n])} :: 0 <= n <= |h| ==> OneRowPerTopic(RowsAfter(h[..n]))
  }

  lemma RecordedNeverClashesIff(h: seq<Change>)
    ensures NeverClashes(h, RecordedPayload) <==> AlwaysOneRowPerTopic(h)
  {
    hide OneRowPerTopic, Unclashed, Image, RowsAfter;
    forall n | 0 <= n <= |h|
      ensures Unclashed(Image(RowsAfter(h[..n]), RecordedPayload)) <==> OneRowPerTopic(RowsAfter(h[..n]))
    {
      RecordedUnclashedIff(RowsAfter(h[..n]));
    }
  }

  /** Delivered once, the recorded journal keeps the replica at the image of the source if and only if at no time two
      live rows shared a topic key. */
  lemma RecordedFirstDeliveryIff(h: seq<Change>)
    requires History(h)
    ensures AlwaysImage(h, RecordedPayload) <==> AlwaysOneRowPerTopic(h)
  {
    hide Sound, NeverClashes, AlwaysOneRowPerTopic, AlwaysImage, History;
    RecordedIsSound();
    FirstDeliveryIff(h, RecordedPayload);
    RecordedNeverClashesIff(h);
  }

  /** If the change overwrites a row with another topic key, no other id ever uses the old one. */
  ghost predicate KeepsTopic(h: seq<Change>, rows: Rows, c: Change) {
    !c.Remove? && c.o.id in rows && rows[c.o.id].o.topicKey.Some? && rows[c.o.id].o.topicKey != c.o.topicKey ==>
      forall k {:trigger h[k]} :: 0 <= k < |h| && !h[k].Remove? && h[k].o.topicKey == rows[c.o.id].o.topicKey ==>
                                    h[k].o.id == c.o.id
  }

  /** No live row gives up, by an update, a topic key that another id ever uses. */
  ghost predicate KeepsTopics(h: seq<Change>) {
    forall i {:trigger RowsAfter(h[..i])} :: 0 <= i < |h| ==> KeepsTopic(h, RowsAfter(h[..i]), h[i])
  }

  /** Creating rows, deleting them, and using their topic keys again never gives one up; only an update that changes a
      row's topic key can. */
  lemma OnlyUpdatesGiveUp(h: seq<Change>)
    requires History(h)
    requires forall i {:trigger RowsAfter(h[..i])} :: 0 <= i < |h| && (h[i].Overwrite? || h[i].Upsert?) ==>
               h[i].o.id in RowsAfter(h[..i]) ==> RowsAfter(h[..i])[h[i].o.id].o.topicKey == h[i].o.topicKey
    ensures KeepsTopics(h)
  {
    hide RowsAfter, Taken, Plain;
    forall i | 0 <= i < |h| ensures KeepsTopic(h, RowsAfter(h[..i]), h[i]) {
      assert Accepted(RowsAfter(h[..i]), h[i]);
    }
  }

  /** What SyncConvergence needs of the recorded journal, exactly: a topic key that another row uses is given up only by
      deleting its row. */
  lemma RecordedKeptIff(h: seq<Change>)
    requires History(h) && AlwaysOneRowPerTopic(h)
    ensures Kept(Journal(h, RecordedPayload)) <==> KeepsTopics(h)
  {
    hide Journal, RowsAfter, History, Sound, NeverClashes, AlwaysOneRowPerTopic, Image, KeepsOn, KeepsTopic, Replay;
    var j := Journal(h, RecordedPayload);
    RecordedIsSound();
    RecordedNeverClashesIff(h);
    JournalPrefix(h, RecordedPayload, |h|);
    forall i | 0 <= i < |h|
      ensures j[..i] == Journal(h[..i], RecordedPayload)
      ensures KeepsOn(j, Replay(j[..i]), j[i]) <==> KeepsTopic(h, RowsAfter(h[..i]), h[i])
    {
      JournalPrefix(h, RecordedPayload, i);
      ImageUpTo(h, RecordedPayload, i);
      HistoryPrefix(h, i);
      SourceUnclashed(h[..i]);
      KeepsOnIff(h, RowsAfter(h[..i]), i);
    }
  }

  /** The entry keeps the keys of the row that the image has exactly when the change keeps the topic. */
  lemma KeepsOnIff(h: seq<Change>, rows: Rows, i: nat)
    requires i < |h| && forall k :: k in rows ==> rows[k].o.id == k
    ensures var j := Journal(h, RecordedPayload);
      i < |j| && (KeepsOn(j, Image(rows, RecordedPayload), j[i]) <==> KeepsTopic(h, rows, h[i]))
  {
    hide Journal, Delivered, Entry;
    var j, c := Journal(h, RecordedPayload), h[i];
    JournalPrefix(h, RecordedPayload, |h|);
    forall k | 0 <= k < |h| ensures ComesFrom(j[k], h[k]) {
      JournalPrefix(h, RecordedPayload, k);
      EntryFields(h[k], k + 1);
    }
    assert ComesFrom(j[i], c);
    if !c.Remove? && c.o.id in rows {
      var a, b := Image(rows, RecordedPayload)[c.o.id], Built(j[i]);
      RecordedFields(rows[c.o.id]);
      if KeepsTopic(h, rows, c) {
        forall e | e in j && Stores(e) && Built(e).id != a.id && Clash(Built(e), a) ensures Clash(Built(e), b) {
          var k :| 0 <= k < |j| && j[k] == e;
          assert ComesFrom(j[k], h[k]);
        }
      }
      if Keeps(j, a, b) {
        forall k | 0 <= k < |h| && !h[k].Remove? && a.topicKey.Some? && h[k].o.topicKey == a.topicKey
          ensures h[k].o.id == c.o.id || a.topicKey == b.topicKey
        {
          assert ComesFrom(j[k], h[k]) && j[k] in j;
          assert Built(j[k]).id != a.id ==> Clash(Built(j[k]), a);
        }
      }
    }
  }

  predicate ComesFrom(m: Mutation, c: Change) {
    && (Stores(m) <==> !c.Remove?)
    && (Stores(m) ==> Built(m).id == c.o.id && Built(m).topicKey == c.o.topicKey
                      && Built(m).project == None && Built(m).idempotencyKey == None)
  }

  lemma EntryFields(c: Change, seqno: nat)
    ensures ComesFrom(Entry(c, seqno, RecordedPayload), c)
  {
  }

  /** The five fields the recorder drops happen to have the values the importer defaults them to. */
  predicate Defaulted(r: Row) {
    r.o.timestamp == r.at && r.o.idempotencyKey == None && r.o.project == None && r.o.revisionCount == 1
    && r.o.sessionId == None
  }

  /** A row comes through the recorder intact exactly when the five dropped fields have their defaults. */
  lemma RecordedIff(r: Row)
    ensures Delivered(r, RecordedPayload) == r.o <==> Defaulted(r)
  {
    RecordedFields(r);
  }

  lemma ImagePlainIff(rows: Rows)
    ensures Image(rows, RecordedPayload) == Plain(rows) <==> forall k :: k in rows ==> Defaulted(rows[k])
  {
    hide Delivered, Defaulted;
    var i, p := Image(rows, RecordedPayload), Plain(rows);
    forall k | k in rows ensures i[k] == p[k] <==> Defaulted(rows[k]) {
      RecordedIff(rows[k]);
    }
    if k :| k in rows && !Defaulted(rows[k]) {
      assert i[k] != p[k];
    }
  }

  /** While no two live rows share a topic key, the ids agree, and a replica holds exactly the source's rows if and
      only if every live row has only default values in the five dropped fields. */
  lemma RecordedPayloadReplicatesIff(h: seq<Change>)
    requires History(h) && AlwaysOneRowPerTopic(h)
    ensures WellFormed(Journal(h, RecordedPayload))
    ensures Replay(Journal(h, RecordedPayload)).Keys == RowsAfter(h).Keys
    ensures Replay(Journal(h, RecordedPayload)) == Plain(RowsAfter(h))
       <==> forall k :: k in RowsAfter(h) ==> Defaulted(RowsAfter(h)[k])
  {
    hide WellFormed, History, RowsAfter, Sound, Journal, Defaulted, Delivered, NeverClashes, Replay, Plain;
    RecordedIsSound();
    RecordedNeverClashesIff(h);
    JournalImage(h, RecordedPayload);
    ImagePlainIff(RowsAfter(h));
    assert Image(RowsAfter(h), RecordedPayload).Keys == RowsAfter(h).Keys;
  }

  ghost predicate AlwaysPlain(h: seq<Change>) {
    forall n {:trigger RowsAfter(h[..n])} :: 0 <= n <= |h| ==>
      Replay(Journal(h[..n], RecordedPayload)) == Plain(RowsAfter(h[..n]))
  }

  ghost predicate AllDefaulted(rows: Rows) {
    forall k :: k in rows ==> Defaulted(rows[k])
  }

  ghost predicate AlwaysDefaulted(h: seq<Change>) {
    forall n {:trigger RowsAfter(h[..n])} :: 0 <= n <= |h| ==> AllDefaulted(RowsAfter(h[..n]))
  }

  /** Without projects the source's own index keeps topics apart. */
  lemma DefaultedOneRowPerTopic(rows: Rows)
    requires Unclashed(Plain(rows)) && AllDefaulted(rows)
    ensures OneRowPerTopic(rows) && Image(rows, RecordedPayload) == Plain(rows)
  {
    ImagePlainIff(rows);
    var s := Plain(rows);
    forall a, b | a in rows && b in rows && a != b && rows[a].o.topicKey.Some?
      ensures rows[a].o.topicKey != rows[b].o.topicKey
    {
      assert !Clash(s[a], s[b]) && Defaulted(rows[a]) && Defaulted(rows[b]);
    }
  }

  /** For every history: after every prefix the replica holds exactly the source's rows if and only if every row, as
      long as it lived, had only default values in the five dropped fields. */
  lemma RecordedAlwaysReplicatesIff(h: seq<Change>)
    requires History(h)
    ensures AlwaysPlain(h) <==> AlwaysDefaulted(h)
  {
    hide History, RowsAfter, Journal, Replay, Plain, AllDefaulted, Image, OneRowPerTopic, Unclashed;
    if AlwaysDefaulted(h) {
      forall n | 0 <= n <= |h| ensures OneRowPerTopic(RowsAfter(h[..n]))
        && Image(RowsAfter(h[..n]), RecordedPayload) == Plain(RowsAfter(h[..n])) {
        HistoryPrefix(h, n);
        SourceUnclashed(h[..n]);
        DefaultedOneRowPerTopic(RowsAfter(h[..n]));
      }
      RecordedFirstDeliveryIff(h);
    }
    if AlwaysPlain(h) {
      forall n | 0 <= n <= |h| ensures AllDefaulted(RowsAfter(h[..n])) {
        PlainMeansDefaulted(h, n);
      }
    }
  }

  lemma {:induction false} PlainMeansDefaulted(h: seq<Change>, n: nat)
    requires History(h) && AlwaysPlain(h) && n <= |h|
    ensures AllDefaulted(RowsAfter(h[..n]))
  {
    hide History, Journal, Replay, Image, Plain, Apply, Accepted, Changed, Defaulted, Unclashed, Entry;
    if n > 0 {
      var rows, c := RowsAfter(h[..n - 1]), h[n - 1];
      PlainMeansDefaulted(h, n - 1);
      HistoryPrefix(h, n - 1);
      SourceUnclashed(h[..n - 1]);
      ReplayOneMore(h, RecordedPayload, n - 1);
      assert Replay(Journal(h[..n - 1], RecordedPayload)) == Plain(rows);
      assert Replay(Journal(h[..n], RecordedPayload)) == Plain(Changed(rows, c));
      OneMoreDefaulted(rows, c, n);
    }
  }

  lemma OneMoreDefaulted(rows: Rows, c: Change, seqno: nat)
    requires Unclashed(Plain(rows)) && AllDefaulted(rows) && Accepted(rows, c)
    requires Apply(Plain(rows), Entry(c, seqno, RecordedPayload)) == Plain(Changed(rows, c))
    ensures AllDefaulted(Changed(rows, c))
  {
    hide Apply, Entry, Unclashed;
    RecordedIsSound();
    ImagePlainIff(rows);
    EntryImage(rows, c, seqno, RecordedPayload);
    if !c.Remove? {
      var id := c.o.id;
      assert Plain(Changed(rows, c))[id] == c.o;
      if !Fits(rows, c, RecordedPayload) {
        SkippedIsDifferent(rows, c);
      }
      assert Image(Changed(rows, c), RecordedPayload)[id] == Delivered(Row(c.o, c.at), RecordedPayload);
      RecordedIff(Row(c.o, c.at));
    }
  }

  /** A change that the replica skips leaves it different from the source. */
  lemma SkippedIsDifferent(rows: Rows, c: Change)
    requires Unclashed(Plain(rows)) && AllDefaulted(rows) && !Fits(rows, c, RecordedPayload)
    ensures Plain(Changed(rows, c)) != Plain(rows)
  {
    ImagePlainIff(rows);
    var s, id := Plain(rows), c.o.id;
    RecordedFields(Row(c.o, c.at));
    var k :| k in s && k != id && Clash(s[k], Delivered(Row(c.o, c.at), RecordedPayload));
    assert Plain(Changed(rows, c))[id] == c.o;
    assert Defaulted(rows[k]);
    if id in s {
      assert Defaulted(rows[id]) && !Clash(s[k], s[id]);
    }
  }

  lemma PutAccepted(rows: Rows, o: Observation, at: int)
    requires o.Constructible() && at >= 0 && o.id !in rows && forall k :: k in rows ==> !Clash(rows[k].o, o)
    ensures Accepted(rows, Put(o, at))
  {
    hide Clash;
  }

  lemma TwoPuts(x: Observation, y: Observation, at: int)
    requires x.Constructible() && y.Constructible() && at >= 0 && x.id != y.id && !Clash(x, y)
    ensures var h := [Put(x, at), Put(y, at)];
      && History(h)
      && RowsAfter(h[..1]) == map[x.id := Row(x, at)]
      && RowsAfter(h) == map[x.id := Row(x, at), y.id := Row(y, at)]
  {
    var h, one := [Put(x, at), Put(y, at)], map[x.id := Row(x, at)];
    assert h[..0] == [] && h[..1] == [Put(x, at)] && [Put(x, at)][..0] == [];
    assert RowsAfter(h[..1]) == Changed(map[], h[0]) == one;
    assert RowsAfter(h) == one[y.id := Row(y, at)];
    PutAccepted(map[], x, at);
    PutAccepted(one, y, at);
    forall i | 0 <= i < |h| ensures Accepted(RowsAfter(h[..i]), h[i]) {
      assert i == 0 || i == 1;
    }
  }

  /** Two rows of different projects with one topic key: the source keeps both, the replica only the first. */
  lemma TwoProjectsDiverge(x: Observation, y: Observation, at: int)
    requires x.Constructible() && y.Constructible() && at >= 0 && x.id != y.id && !Clash(x, y)
    requires x.topicKey.Some? && x.topicKey == y.topicKey
    ensures var h := [Put(x, at), Put(y, at)];
      && History(h) && RowsAfter(h).Keys == {x.id, y.id}
      && Replay(Journal(h, RecordedPayload)).Keys == {x.id}
  {
    TwoPuts(x, y, at);
    var h, one, r := [Put(x, at), Put(y, at)], map[x.id := Row(x, at)], RecordedPayload;
    FirstFits(x, at);
    SecondDoesNot(x, y, at);
    hide Accepted, History, Entry, Journal, RowsAfter, Delivered, Apply, Replay, Fits, Image, Clash, Legal;
    RecordedIsSound();
    HistoryPrefix(h, 0);
    HistoryPrefix(h, 1);
    EmptyImage(h, r);
    NoRows(h);
    assert h[..2] == h;
    EntryImage(map[], h[0], 1, r);
    EntryImage(one, h[1], 2, r);
    ReplayOneMore(h, r, 0);
    ReplayOneMore(h, r, 1);
  }

  lemma FirstFits(x: Observation, at: int)
    ensures Fits(map[], Put(x, at), RecordedPayload)
    ensures Image(map[x.id := Row(x, at)], RecordedPayload).Keys == {x.id}
  {
  }

  lemma SecondDoesNot(x: Observation, y: Observation, at: int)
    requires x.id != y.id && x.topicKey.Some? && x.topicKey == y.topicKey
    ensures !Fits(map[x.id := Row(x, at)], Put(y, at), RecordedPayload)
  {
    var s := Image(map[x.id := Row(x, at)], RecordedPayload);
    RecordedFields(Row(x, at));
    RecordedFields(Row(y, at));
    assert x.id in s && Clash(s[x.id], Delivered(Row(y, at), RecordedPayload));
  }

  lemma NoRows(h: seq<Change>)
    ensures RowsAfter(h[..0]) == map[]
  {
  }

  /** A source row with a project never reaches a replica intact. */
  lemma ProjectIsLost(o: Observation, at: int)
    requires o.Constructible() && at >= 0 && o.project.Some?
    ensures History([Put(o, at)])
    ensures Replay(Journal([Put(o, at)], RecordedPayload)) != Plain(RowsAfter([Put(o, at)]))
  {
    var h := [Put(o, at)];
    assert h[..0] == [];
    assert RowsAfter(h) == map[o.id := Row(o, at)];
    assert Accepted(map[], h[0]);
    assert History(h);
    assert AlwaysOneRowPerTopic(h) by {
      forall n | 0 <= n <= |h| ensures OneRowPerTopic(RowsAfter(h[..n])) {
        assert h[..n] == if n == 0 then [] else h;
      }
    }
    RecordedPayloadReplicatesIff(h);
    assert !Defaulted(RowsAfter(h)[o.id]);
  }
}
