/** Observations, journal mutations, and what applying a mutation to a store means.
    The store is keyed by observation id; of an observation only the ten serialised fields are kept. */
module SyncTypes {
  import opened Options

  /** The `type` field, already classified against the entity's table of allowed names. */
  datatype Kind = Allowed(name: string) | Disallowed(name: string)

  const MAX_TOPIC_KEY_LENGTH := 128

  predicate Whitespace(c: char) {
    c == ' ' || '\t' <= c <= '\r' || 28 as char <= c <= 31 as char
  }

  datatype Observation = Observation(
    id: string, timestamp: int, content: string, metadata: Option<string>, idempotencyKey: Option<string>,
    project: Option<string>, kind: Option<Kind>, topicKey: Option<string>, revisionCount: int,
    sessionId: Option<string>)
  {
    /** The entity's constructor accepts these field values. */
    predicate Constructible() {
      && id != "" && timestamp >= 0 && content != "" && '\0' !in content
      && revisionCount >= 1 && !(kind.Some? && kind.value.Disallowed?)
      && (idempotencyKey.Some? ==> idempotencyKey.value != "")
      && (topicKey.Some? ==> TopicKeyAccepted(topicKey.value))
      && (project.Some? ==> ProjectAccepted(project.value))
    }
  }

  predicate TopicKeyAccepted(t: string) {
    t != "" && ' ' !in t && '\0' !in t && |t| <= MAX_TOPIC_KEY_LENGTH
  }

  predicate ProjectAccepted(p: string) {
    '\0' !in p && !(forall c :: c in p ==> Whitespace(c))
  }

  const WHITE := " \t\n\U{000B}\U{000C}\r\U{001C}\U{001D}\U{001E}\U{001F}"

  lemma WhitespaceIs(c: char)
    ensures Whitespace(c) <==> c in WHITE
  {
    assert WHITE == [' ', '\t', '\n', 11 as char, 12 as char, '\r', 28 as char, 29 as char, 30 as char, 31 as char];
  }

  /** What makes the entity refuse its fields, one by one. */
  lemma RefusedIff(o: Observation)
    ensures !o.Constructible() <==>
      || o.id == "" || o.timestamp < 0 || o.content == "" || '\0' in o.content || o.revisionCount <= 0
      || (o.kind.Some? && o.kind.value.Disallowed?) || o.idempotencyKey == Some("")
      || (o.topicKey.Some? && (|o.topicKey.value| == 0 || |o.topicKey.value| > 128
                               || ' ' in o.topicKey.value || '\0' in o.topicKey.value))
      || (o.project.Some? && ('\0' in o.project.value || forall c :: c in o.project.value ==> c in WHITE))
  {
    hide WHITE;
    forall c: char ensures Whitespace(c) <==> c in WHITE {
      WhitespaceIs(c);
    }
  }

  type Store = map<string, Observation>

  // The unique indexes: over topic key and project, and over the idempotency key.

  /** The two rows may not be in one table: they agree on topic key and project, or on the idempotency key. */
  predicate Clash(a: Observation, b: Observation) {
    || (a.topicKey.Some? && a.topicKey == b.topicKey && a.project.GetOr("") == b.project.GetOr(""))
    || (a.idempotencyKey.Some? && a.idempotencyKey == b.idempotencyKey)
  }

  /** Another row than `o`'s own holds one of its unique keys. */
  predicate Taken(s: Store, o: Observation) {
    exists id :: id in s && id != o.id && Clash(s[id], o)
  }

  ghost predicate Unclashed(s: Store) {
    forall a, b :: a in s && b in s && a != b ==> !Clash(s[a], s[b])
  }

  /** What the indexes keep apart, key by key; a missing project counts as the empty one. */
  lemma UnclashedMeans(s: Store)
    ensures Unclashed(s) <==>
      && (forall a, b :: a in s && b in s && a != b && s[a].idempotencyKey.Some? ==>
            s[a].idempotencyKey != s[b].idempotencyKey)
      && (forall a, b :: a in s && b in s && a != b && s[a].topicKey.Some? && s[a].topicKey == s[b].topicKey ==>
            s[a].project.GetOr("") != s[b].project.GetOr(""))
  {
    if Unclashed(s) {
      forall a, b | a in s && b in s && a != b
        ensures s[a].idempotencyKey.Some? ==> s[a].idempotencyKey != s[b].idempotencyKey
        ensures s[a].topicKey.Some? && s[a].topicKey == s[b].topicKey ==>
                  s[a].project.GetOr("") != s[b].project.GetOr("")
      {
        assert !Clash(s[a], s[b]);
      }
    }
  }

  // Mutations.

  datatype Op = Insert | Update | Delete

  /** A payload object: a missing JSON key is None. */
  datatype Payload = Payload(
    id: Option<string>, timestamp: Option<int>, content: Option<string>, metadata: Option<string>,
    idempotencyKey: Option<string>, project: Option<string>, kind: Option<Kind>, topicKey: Option<string>,
    revisionCount: Option<int>, sessionId: Option<string>)

  /** `payload` is None when the line, or the text recorded as payload, is not JSON. */
  datatype Mutation = Mutation(
    seqno: nat, key: string, op: Op, payload: Option<Payload>, project: string, createdAt: int)

  /** The observation a replica builds: missing fields take their defaults. */
  function Rebuild(m: Mutation, p: Payload): Observation {
    Observation(p.id.GetOr(m.key), p.timestamp.GetOr(m.createdAt), p.content.GetOr(""), p.metadata, p.idempotencyKey,
                p.project, p.kind, p.topicKey, p.revisionCount.GetOr(1), p.sessionId)
  }

  /** The mutation wants to store an observation. */
  predicate Stores(m: Mutation) {
    m.payload.Some? && !m.op.Delete?
  }

  function Built(m: Mutation): Observation
    requires Stores(m)
  {
    Rebuild(m, m.payload.value)
  }

  /** Building the observation fails, and the failure is not one the importer catches. */
  predicate Raises(m: Mutation) {
    Stores(m) && !Built(m).Constructible()
  }

  /** The store after one delivered mutation: insert if absent, upsert, delete if present. One that would break a
      unique index is skipped. */
  function Apply(s: Store, m: Mutation): Store {
    if m.payload.None? || Raises(m) then s
    else
      match m.op
      case Insert => if Built(m).id in s || Taken(s, Built(m)) then s else s[Built(m).id := Built(m)]
      case Update => if Taken(s, Built(m)) then s else s[Built(m).id := Built(m)]
      case Delete => if m.payload.value.id.Some? then s - {m.payload.value.id.value} else s
  }

  /** The store after delivering `ms` in order. */
  function ApplyAll(s: Store, ms: seq<Mutation>): Store {
    if ms == [] then s else Apply(ApplyAll(s, ms[..|ms| - 1]), ms[|ms| - 1])
  }

  lemma {:induction false} ApplyAllConcat(s: Store, a: seq<Mutation>, b: seq<Mutation>)
    ensures ApplyAll(s, a + b) == ApplyAll(ApplyAll(s, a), b)
  {
    hide Apply;
    if b == [] {
      assert a + b == a;
    } else {
      ApplyAllConcat(s, a, b[..|b| - 1]);
      assert (a + b)[..|a + b| - 1] == a + b[..|b| - 1];
    }
  }

  lemma ApplyAllSnoc(s: Store, ms: seq<Mutation>, m: Mutation)
    ensures ApplyAll(s, ms + [m]) == Apply(ApplyAll(s, ms), m)
  {
    hide Apply;
    assert (ms + [m])[..|ms + [m]| - 1] == ms;
  }

  /** The state after the journal `j`, delivered once to an empty store. */
  function Replay(j: seq<Mutation>): Store {
    ApplyAll(map[], j)
  }

  /** The mutation can be recorded in state `s`: it names the row it changes, inserts only an absent row, updates or
      deletes only a present one, and breaks no unique index. The journal's entity key plays no part. */
  predicate Legal(s: Store, m: Mutation) {
    && m.payload.Some?
    && m.payload.value.id.Some?
    && !Raises(m)
    && (m.op.Insert? <==> m.payload.value.id.value !in s)
    && (Stores(m) ==> !Taken(s, Built(m)))
  }

  /** Every entry was legal in the state that the entries before it produced. */
  ghost predicate WellFormed(j: seq<Mutation>) {
    forall i {:trigger Replay(j[..i])} :: 0 <= i < |j| ==> Legal(Replay(j[..i]), j[i])
  }

  /** One more legal entry keeps a journal well formed. */
  lemma WellFormedSnoc(j: seq<Mutation>, m: Mutation)
    requires WellFormed(j) && Legal(Replay(j), m)
    ensures WellFormed(j + [m])
  {
    hide Legal, Apply;
    var j' := j + [m];
    forall i | 0 <= i < |j'| ensures Legal(Replay(j'[..i]), j'[i]) {
      if i < |j| {
        assert j'[..i] == j[..i] && j'[i] == j[i];
        assert Legal(Replay(j[..i]), j[i]);
      } else {
        assert j'[..i] == j;
      }
    }
  }

  // Journals in which a unique key that other rows want is given up only by deleting its row.

  /** `b`, of the same row, still has every unique key of `a` that an entry for another row ever wants. */
  ghost predicate Keeps(j: seq<Mutation>, a: Observation, b: Observation) {
    && a.id == b.id
    && forall e :: e in j && Stores(e) && Built(e).id != a.id && Clash(Built(e), a) ==> Clash(Built(e), b)
  }

  /** If the mutation stores over a row of `s`, the new row keeps such keys of the old one. */
  ghost predicate KeepsOn(j: seq<Mutation>, s: Store, m: Mutation) {
    Stores(m) && Built(m).id in s ==> Keeps(j, s[Built(m).id], Built(m))
  }

  /** Every update in the journal does. */
  ghost predicate Kept(j: seq<Mutation>) {
    forall i {:trigger Replay(j[..i])} :: 0 <= i < |j| ==> KeepsOn(j, Replay(j[..i]), j[i])
  }

  /** A special case: each topic key (with its project) and each idempotency key belongs to one id only. */
  ghost predicate Owned(j: seq<Mutation>) {
    forall a, b :: a in j && b in j && Stores(a) && Stores(b) && Clash(Built(a), Built(b)) ==>
                     Built(a).id == Built(b).id
  }

  lemma OwnedIsKept(j: seq<Mutation>)
    requires Owned(j)
    ensures Kept(j)
  {
    hide Clash, Apply;
    forall i | 0 <= i < |j| ensures KeepsOn(j, Replay(j[..i]), j[i]) {
      var s := Replay(j[..i]);
      ReplayedRowsFrom(j, i);
      if Stores(j[i]) && Built(j[i]).id in s {
        var m :| m in j && Stores(m) && Built(m) == s[Built(j[i]).id];
      }
    }
  }

  lemma KeptPrefix(j: seq<Mutation>, m: Mutation)
    ensures Kept(j + [m]) ==> Kept(j)
  {
    hide Clash, Replay;
    if Kept(j + [m]) {
      forall i | 0 <= i < |j| ensures KeepsOn(j, Replay(j[..i]), j[i]) {
        assert (j + [m])[..i] == j[..i] && (j + [m])[i] == j[i];
        assert KeepsOn(j + [m], Replay((j + [m])[..i]), (j + [m])[i]);
      }
    }
  }

  /** Every row was built from some entry of the journal. */
  ghost predicate RowsFrom(s: Store, j: seq<Mutation>) {
    forall k :: k in s ==> s[k].id == k && exists m :: m in j && Stores(m) && Built(m) == s[k]
  }

  lemma RowsStayFrom(s: Store, j: seq<Mutation>, m: Mutation)
    requires RowsFrom(s, j) && m in j
    ensures RowsFrom(Apply(s, m), j)
  {
    hide Taken, Clash;
  }

  lemma {:induction false} DeliveredRowsFrom(s: Store, ms: seq<Mutation>, j: seq<Mutation>)
    requires RowsFrom(s, j) && forall m :: m in ms ==> m in j
    ensures RowsFrom(ApplyAll(s, ms), j)
  {
    if ms != [] {
      hide Apply, RowsFrom;
      DeliveredRowsFrom(s, ms[..|ms| - 1], j);
      RowsStayFrom(ApplyAll(s, ms[..|ms| - 1]), j, ms[|ms| - 1]);
    }
  }

  lemma ReplayedRowsFrom(j: seq<Mutation>, n: nat)
    requires n <= |j|
    ensures RowsFrom(Replay(j[..n]), j)
  {
    DeliveredRowsFrom(map[], j[..n], j);
  }

  /** A delivery never breaks a unique index. */
  lemma ApplyKeepsUnclashed(s: Store, m: Mutation)
    requires Unclashed(s)
    ensures Unclashed(Apply(s, m))
  {
    var t := Apply(s, m);
    forall a, b | a in t && b in t && a != b ensures !Clash(t[a], t[b]) {
      if Stores(m) && t != s && (a == Built(m).id || b == Built(m).id) {
        var other := if a == Built(m).id then b else a;
        assert !Clash(s[other], Built(m));
        ClashIsSymmetric(s[other], Built(m));
      }
    }
  }

  lemma ClashIsSymmetric(a: Observation, b: Observation)
    ensures Clash(a, b) <==> Clash(b, a)
  {
  }

  lemma {:induction false} ReplayUnclashed(j: seq<Mutation>)
    ensures Unclashed(Replay(j))
  {
    if j != [] {
      hide Apply, Unclashed;
      ReplayUnclashed(j[..|j| - 1]);
      ApplyKeepsUnclashed(Replay(j[..|j| - 1]), j[|j| - 1]);
    } else {
      assert Replay(j) == map[];
    }
  }
}
