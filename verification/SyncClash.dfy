/** What the unique indexes do to at-least-once delivery when a topic key changes hands. */
module SyncClash {
  import opened Options
  import opened SyncTypes
  import SyncConvergence

  /** A row of which only the topic key matters. */
  function Note(id: string, topic: string): Observation {
    Observation(id, 0, "note", None, None, None, None, Some(topic), 1, None)
  }

  /** Such rows, by id. */
  type Topics = map<string, string>

  function Rows(t: Topics): Store {
    map id | id in t :: Note(id, t[id])
  }

  function Move(op: Op, id: string, topic: string): Mutation {
    Mutation(0, id, op, Some(Payload(Some(id), Some(0), Some("note"), None, None, None, None, Some(topic), None, None)),
             "", 0)
  }

  predicate Held(t: Topics, id: string, topic: string) {
    exists k :: k in t && k != id && t[k] == topic
  }

  function Moved(t: Topics, op: Op, id: string, topic: string): Topics {
    if Held(t, id, topic) || (op.Insert? && id in t) then t else t[id := topic]
  }

  lemma MoveMirrors(t: Topics, op: Op, id: string, topic: string)
    requires id != "" && TopicKeyAccepted(topic) && !op.Delete?
    ensures Apply(Rows(t), Move(op, id, topic)) == Rows(Moved(t, op, id, topic))
    ensures Legal(Rows(t), Move(op, id, topic)) <==> (op.Insert? <==> id !in t) && !Held(t, id, topic)
  {
    var m := Move(op, id, topic);
    assert Built(m) == Note(id, topic) && Built(m).Constructible();
    assert Taken(Rows(t), Built(m)) <==> Held(t, id, topic) by {
      if k :| k in t && k != id && t[k] == topic {
        assert k in Rows(t) && Clash(Rows(t)[k], Built(m));
      }
    }
  }

  /** One more entry of the journal, delivered for the first time. */
  lemma Record(j: seq<Mutation>, t: Topics, op: Op, id: string, topic: string)
    requires WellFormed(j) && Replay(j) == Rows(t) && id != "" && TopicKeyAccepted(topic) && !op.Delete?
    requires (op.Insert? <==> id !in t) && !Held(t, id, topic)
    ensures WellFormed(j + [Move(op, id, topic)])
    ensures Replay(j + [Move(op, id, topic)]) == Rows(t[id := topic])
  {
    hide Legal, Apply, WellFormed, Rows;
    MoveMirrors(t, op, id, topic);
    WellFormedSnoc(j, Move(op, id, topic));
    ApplyAllSnoc(map[], j, Move(op, id, topic));
  }

  /** One more entry delivered again, to some effect. */
  lemma Redeliver(s: Store, ms: seq<Mutation>, t: Topics, op: Op, id: string, topic: string)
    requires ApplyAll(s, ms) == Rows(t) && id != "" && TopicKeyAccepted(topic) && op.Update? && !Held(t, id, topic)
    ensures ApplyAll(s, ms + [Move(op, id, topic)]) == Rows(t[id := topic])
  {
    hide Legal, Apply, Rows;
    MoveMirrors(t, op, id, topic);
    ApplyAllSnoc(s, ms, Move(op, id, topic));
  }

  /** One more entry delivered again and skipped: the row is there already, or another one holds the topic. */
  lemma Skip(s: Store, ms: seq<Mutation>, t: Topics, op: Op, id: string, topic: string, holder: string)
    requires ApplyAll(s, ms) == Rows(t) && id != "" && TopicKeyAccepted(topic) && !op.Delete? && holder in t
    requires if holder == id then op.Insert? else t[holder] == topic
    ensures ApplyAll(s, ms + [Move(op, id, topic)]) == Rows(t)
  {
    hide Legal, Apply, Rows;
    MoveMirrors(t, op, id, topic);
    ApplyAllSnoc(s, ms, Move(op, id, topic));
  }

  /** The journal of the counterexample: rows C and A both had topic J at some time, C and D topic K. */
  function Handover(): seq<Mutation> {
    [] + [Move(Insert, "C", "P")] + [Move(Insert, "A", "Q")] + [Move(Update, "A", "R")] + [Move(Update, "C", "J")]
    + [Move(Update, "C", "K")] + [Move(Update, "A", "J")] + [Move(Update, "C", "Z")] + [Move(Insert, "D", "K")]
  }

  /** It is well formed, and its first delivery skips nothing. */
  lemma HandoverIsWellFormed()
    ensures WellFormed(Handover())
    ensures Replay(Handover()) == Rows(map["C" := "Z", "A" := "J", "D" := "K"])
  {
    hide WellFormed, Rows, Move, ApplyAll;
    assert Replay([]) == Rows(map[]) && WellFormed([]) by {
      NothingYet();
    }
    var j, t := [], map[];
    Record(j, t, Insert, "C", "P");
    j, t := j + [Move(Insert, "C", "P")], map["C" := "P"];
    Record(j, t, Insert, "A", "Q");
    j, t := j + [Move(Insert, "A", "Q")], map["C" := "P", "A" := "Q"];
    Record(j, t, Update, "A", "R");
    j, t := j + [Move(Update, "A", "R")], t["A" := "R"];
    Record(j, t, Update, "C", "J");
    j, t := j + [Move(Update, "C", "J")], t["C" := "J"];
    Record(j, t, Update, "C", "K");
    j, t := j + [Move(Update, "C", "K")], t["C" := "K"];
    Record(j, t, Update, "A", "J");
    j, t := j + [Move(Update, "A", "J")], t["A" := "J"];
    Record(j, t, Update, "C", "Z");
    j, t := j + [Move(Update, "C", "Z")], t["C" := "Z"];
    Record(j, t, Insert, "D", "K");
    assert t["D" := "K"] == map["C" := "Z", "A" := "J", "D" := "K"];
  }

  lemma NothingYet()
    ensures Replay([]) == Rows(map[]) && WellFormed([])
  {
  }

  lemma HandoverAgain(s: Store)
    requires s == Rows(map["C" := "Z", "A" := "J", "D" := "K"])
    ensures ApplyAll(s, Handover()) == Rows(map["C" := "Z", "A" := "R", "D" := "K"])
  {
    hide Rows, Move, ApplyAll;
    assert ApplyAll(s, []) == s by {
      NothingDelivered(s);
    }
    var ms, t := [], map["C" := "Z", "A" := "J", "D" := "K"];
    Skip(s, ms, t, Insert, "C", "P", "C");
    ms := ms + [Move(Insert, "C", "P")];
    Skip(s, ms, t, Insert, "A", "Q", "A");
    ms := ms + [Move(Insert, "A", "Q")];
    Redeliver(s, ms, t, Update, "A", "R");
    assert t["A" := "R"] == map["C" := "Z", "A" := "R", "D" := "K"];
    ms, t := ms + [Move(Update, "A", "R")], map["C" := "Z", "A" := "R", "D" := "K"];
    Redeliver(s, ms, t, Update, "C", "J");
    assert t["C" := "J"] == map["C" := "J", "A" := "R", "D" := "K"];
    ms, t := ms + [Move(Update, "C", "J")], map["C" := "J", "A" := "R", "D" := "K"];
    Skip(s, ms, t, Update, "C", "K", "D");
    ms := ms + [Move(Update, "C", "K")];
    Skip(s, ms, t, Update, "A", "J", "C");
    ms := ms + [Move(Update, "A", "J")];
    Redeliver(s, ms, t, Update, "C", "Z");
    assert t["C" := "Z"] == map["C" := "Z", "A" := "R", "D" := "K"];
    ms, t := ms + [Move(Update, "C", "Z")], map["C" := "Z", "A" := "R", "D" := "K"];
    Skip(s, ms, t, Insert, "D", "K", "D");
  }

  /** Delivered once more onto its own final state, it leaves A with topic R instead of J: C, which has to pass
      through K, is stopped at J by D, and so keeps A from coming to J. */
  lemma RedeliveryDiverges()
    ensures WellFormed(Handover()) && !Kept(Handover())
    ensures Replay(Handover()) == Rows(map["C" := "Z", "A" := "J", "D" := "K"])
    ensures ApplyAll(Replay(Handover()), Handover()) == Rows(map["C" := "Z", "A" := "R", "D" := "K"])
    ensures ApplyAll(Replay(Handover()), Handover()) != Replay(Handover())
  {
    hide WellFormed, Kept, ApplyAll, Handover;
    HandoverIsWellFormed();
    HandoverAgain(Replay(Handover()));
    assert Rows(map["C" := "Z", "A" := "J", "D" := "K"])["A"] == Note("A", "J");
    assert Rows(map["C" := "Z", "A" := "R", "D" := "K"])["A"] == Note("A", "R");
    if Kept(Handover()) {
      KeptDoesNot(Handover());
    }
  }

  lemma KeptDoesNot(j: seq<Mutation>)
    requires WellFormed(j) && Kept(j)
    ensures ApplyAll(Replay(j), j) == Replay(j)
  {
    hide WellFormed, Kept, ApplyAll;
    SyncConvergence.OverlapConverges(j, 0, |j|, |j|);
    assert j[..|j|] == j && j[0..|j|] == j;
  }

  lemma NothingDelivered(s: Store)
    ensures ApplyAll(s, []) == s
  {
  }
}
