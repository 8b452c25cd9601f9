/** The task board over its compare-and-save, composed with the authorization gate. */
module TaskBoard {
  import opened Options
  import opened Fpel
  import G = FpelProtocol

  datatype Status = Pending | Planning | Approved | InProgress | Completed | Deleted

  /** The transition table. */
  predicate Edge(a: Status, b: Status) {
    match a
    case Pending => b.Planning? || b.Deleted?
    case Planning => b.Approved? || b.Pending? || b.Deleted?
    case Approved => b.InProgress? || b.Deleted?
    case InProgress => b.Completed? || b.Approved? || b.Deleted?
    case Completed => b.Deleted?
    case Deleted => false
  }

  datatype Task = Task(
    subject: string, description: Option<string>, status: Status, owner: Option<string>, blockedBy: seq<string>,
    plan: Option<string>, approvedBy: Option<string>, requestedBy: Option<string>)

  type Rows = map<string, Task>

  // Content and its hash.

  function JoinLines(parts: seq<string>): string {
    if parts == [] then "" else if |parts| == 1 then parts[0] else parts[0] + "\n" + JoinLines(parts[1..])
  }

  /** The content that is hashed: the plan, else subject and non-empty description. */
  function Content(t: Task): string {
    if t.plan.Some? then t.plan.value
    else JoinLines([t.subject] + if t.description.GetOr("") != "" then [t.description.value] else [])
  }

  /** The content, spelled out: two lines when there is a description. */
  lemma ContentMeans(t: Task)
    ensures t.plan.Some? ==> Content(t) == t.plan.value
    ensures t.plan.None? && t.description.GetOr("") == "" ==> Content(t) == t.subject
    ensures t.plan.None? && t.description.GetOr("") != "" ==> Content(t) == t.subject + "\n" + t.description.value
  {
    if t.description.GetOr("") != "" {
      var parts := [t.subject, t.description.value];
      assert [t.subject] + [t.description.value] == parts && parts[1..] == [t.description.value];
      assert JoinLines(parts) == t.subject + "\n" + JoinLines(parts[1..]);
    }
  }

  function TaskHash(t: Task, h: HashFunction): string {
    h(Content(t))
  }

  // Operations.

  datatype Op =
    | Update(subject: Option<string>, description: Option<Option<string>>, owner: Option<Option<string>>)
    | SubmitPlan(plan: string, requester: Option<string>)
    | Approve(approver: string, requester: Option<string>)
    | Reject(requester: Option<string>)
    | Start(newOwner: string, requester: Option<string>)
    | Complete(requester: Option<string>)
    | Retry
    | Delete(requester: Option<string>)

  /** The row the operation wants to write after reading `t`; None when it refuses. The gate comes after this. */
  function Planned(t: Task, op: Op): Option<Task> {
    match op
    case Update(subject, description, owner) =>
      if t.status.Deleted? || subject == Some("") then None
      else Some(t.(subject := subject.GetOr(t.subject), description := description.GetOr(t.description),
                   owner := owner.GetOr(t.owner)))
    case SubmitPlan(plan, requester) =>
      if !Edge(t.status, Planning) then None
      else Some(t.(status := Planning, plan := Some(plan), requestedBy := requester))
    case Approve(approver, requester) =>
      if !Edge(t.status, Approved) then None
      else Some(t.(status := Approved, approvedBy := Some(approver), requestedBy := requester))
    case Reject(requester) =>
      if !Edge(t.status, Pending) then None else Some(t.(status := Pending, plan := None, requestedBy := requester))
    case Start(owner, requester) =>
      if t.blockedBy != [] || !Edge(t.status, InProgress) then None
      else Some(t.(status := InProgress, owner := Some(owner), requestedBy := requester))
    case Complete(requester) =>
      if !Edge(t.status, Completed) then None else Some(t.(status := Completed, requestedBy := requester))
    case Retry =>
      if !Edge(t.status, Approved) then None else Some(t.(status := Approved))
    case Delete(requester) =>
      if !Edge(t.status, Deleted) then None else Some(t.(status := Deleted, requestedBy := requester))
  }

  // What the operations mean, without going through Planned.

  /** When an operation is admitted. Approving and retrying share an edge of the table, so each is admitted where only
      the other is meant. */
  predicate Admits(op: Op, t: Task) {
    match op
    case Update(subject, _, _) => !t.status.Deleted? && subject != Some("")
    case SubmitPlan(_, _) => t.status.Pending?
    case Approve(_, _) => t.status.Planning? || t.status.InProgress?
    case Reject(_) => t.status.Planning?
    case Start(_, _) => t.status.Approved? && t.blockedBy == []
    case Complete(_) => t.status.InProgress?
    case Retry => t.status.Planning? || t.status.InProgress?
    case Delete(_) => !t.status.Deleted?
  }

  /** The status an operation leads to; none for an update. */
  function Target(op: Op): Option<Status> {
    match op
    case Update(_, _, _) => None
    case SubmitPlan(_, _) => Some(Planning)
    case Approve(_, _) => Some(Approved)
    case Reject(_) => Some(Pending)
    case Start(_, _) => Some(InProgress)
    case Complete(_) => Some(Completed)
    case Retry => Some(Approved)
    case Delete(_) => Some(Deleted)
  }

  /** Field by field, which operations write it and what. */
  predicate Wrote(op: Op, a: Task, b: Task) {
    && b.status == Target(op).GetOr(a.status)
    && b.subject == (if op.Update? then op.subject.GetOr(a.subject) else a.subject)
    && b.description == (if op.Update? then op.description.GetOr(a.description) else a.description)
    && b.owner == (if op.Update? then op.owner.GetOr(a.owner) else if op.Start? then Some(op.newOwner) else a.owner)
    && b.blockedBy == a.blockedBy
    && b.plan == (if op.SubmitPlan? then Some(op.plan) else if op.Reject? then None else a.plan)
    && b.approvedBy == (if op.Approve? then Some(op.approver) else a.approvedBy)
    && b.requestedBy == (if op.Update? || op.Retry? then a.requestedBy else op.requester)
  }

  lemma OperationMeans(t: Task, op: Op)
    ensures Planned(t, op).Some? <==> Admits(op, t)
    ensures Admits(op, t) ==> Wrote(op, t, Planned(t, op).value)
    ensures Admits(op, t) && Target(op).Some? ==> Edge(t.status, Target(op).value)
  {
  }

  /** Compare-and-save: only if the row still has the expected status. */
  function CasSave(rows: Rows, id: string, t: Task, expected: Status): Rows {
    if id in rows && rows[id].status == expected then rows[id := t] else rows
  }

  // The interleaving: any number of clients of the board and of the gate, each operation split at its repository calls.

  /** What a start has read from the gate: when it read the row, the proposal, and the moments of FpelProtocol. */
  datatype Proof = Proof(r: nat, p: string, a: nat, b: nat, c: nat)

  datatype Pc =
    | Idle
    | Checking(id: string, op: Op, read: Task, write: Task, r: nat, gate: G.Pc)
    | Saving(id: string, op: Op, read: Task, write: Task, proof: Option<Proof>)

  datatype World = World(rows: Rows, gate: G.World, clients: map<nat, Pc>)

  datatype Event =
    | Create(id: string, subject: string, description: Option<string>, owner: Option<string>, blockedBy: seq<string>)
    | Remove(id: string)
    | Gate(e: G.Event)
    | Read(client: nat, id: string, op: Op)
    | Check(client: nat, choice: G.Choice)
    | Save(client: nat)

  function PcOf(w: World, c: nat): Pc {
    if c in w.clients then w.clients[c] else Idle
  }

  /** After reading the row: refuse, go to the gate with the hash of what was read, or go to the save. */
  function AfterRead(rows: Rows, id: string, op: Op, now: nat, h: HashFunction): Pc {
    if id !in rows || Planned(rows[id], op).None? then Idle
    else if op.Start? then
      Checking(id, op, rows[id], Planned(rows[id], op).value, now,
               G.GettingActive(G.CallCheck(id, Some(TaskHash(rows[id], h)))))
    else Saving(id, op, rows[id], Planned(rows[id], op).value, None)
  }

  /** After one more repository call of the gate check. */
  ghost function AfterCheck(gate: G.World, pc: Pc, ch: G.Choice, h: HashFunction): Pc
    requires pc.Checking?
  {
    var next := G.Act(gate.now, |gate.past|, pc.gate, ch, h).1;
    match next
    case Allowing(_, p, _, a, b, c) => Saving(pc.id, pc.op, pc.read, pc.write, Some(Proof(pc.r, p, a, b, c)))
    case Denying(_) => Idle
    case Idle => Idle
    case _ => pc.(gate := next)
  }

  ghost function Step(w: World, e: Event, h: HashFunction): World {
    match e
    case Create(id, subject, description, owner, blockedBy) =>
      if id in w.rows then w
      else w.(rows := w.rows[id := Task(subject, description, Pending, owner, blockedBy, None, None, None)])
    case Remove(id) => w.(rows := w.rows - {id})
    case Gate(g) => w.(gate := G.Step(w.gate, g, h))
    case Read(c, id, op) =>
      if PcOf(w, c).Idle? then w.(clients := w.clients[c := AfterRead(w.rows, id, op, |w.gate.past|, h)]) else w
    case Check(c, ch) =>
      if PcOf(w, c).Checking? then
        w.(gate := G.Tick(w.gate), clients := w.clients[c := AfterCheck(w.gate, w.clients[c], ch, h)])
      else w
    case Save(c) =>
      if PcOf(w, c).Saving? then
        var pc := w.clients[c];
        w.(rows := CasSave(w.rows, pc.id, pc.write, pc.read.status), clients := w.clients[c := Idle])
      else w
  }

  const NEW_BOARD := World(map[], G.START, map[])

  ghost function RunTo(es: seq<Event>, h: HashFunction): World {
    if es == [] then NEW_BOARD else Step(RunTo(es[..|es| - 1], h), es[|es| - 1], h)
  }

  /** The client is between the repository calls of a check of `id` for `hash` that began at or after moment `r`. */
  predicate ChecksFor(g: G.Pc, id: string, hash: string, r: nat) {
    match g
    case GettingActive(call) => call == G.CallCheck(id, Some(hash))
    case AskingFailed(call, _, a) => call == G.CallCheck(id, Some(hash)) && r <= a
    case GettingVerdict(call, _, a, _) => call == G.CallCheck(id, Some(hash)) && r <= a
    case _ => false
  }

  /** After the row had been read, the gate was found to have a proposal of `id` active, then not failed, then sealed
      for exactly the content of `t`. */
  ghost predicate Backs(past: seq<State>, proof: Proof, id: string, t: Task, h: HashFunction) {
    proof.r <= proof.a && G.Cleared(past, id, proof.p, Some(TaskHash(t, h)), proof.a, proof.b, proof.c)
  }

  predicate Starts(pc: Pc) {
    pc.Saving? && pc.write.status.InProgress? && !pc.read.status.InProgress?
  }

  /** A write that would start a task comes from a task that was ready, or is backed by the gate. */
  ghost predicate Backed(past: seq<State>, pc: Pc, h: HashFunction) {
    && (pc.Checking? ==>
          && Content(pc.write) == Content(pc.read) && pc.read.status.Approved? && pc.r <= |past|
          && G.GoodPc(past, pc.gate) && ChecksFor(pc.gate, pc.id, TaskHash(pc.read, h), pc.r))
    && (Starts(pc) ==> pc.proof.Some? && Backs(past, pc.proof.value, pc.id, pc.write, h))
  }

  lemma BackedGrows(past: seq<State>, f: State, pc: Pc, h: HashFunction)
    requires Backed(past, pc, h)
    ensures Backed(past + [f], pc, h)
  {
    hide TaskHash, Content;
    if pc.Checking? {
      G.GoodPcGrows(past, f, pc.gate);
      hide G.GoodPc;
    } else if Starts(pc) {
      assert forall i :: 0 <= i < |past| ==> (past + [f])[i] == past[i];
    }
  }

  lemma ReadIsBacked(past: seq<State>, rows: Rows, id: string, op: Op, h: HashFunction)
    ensures Backed(past, AfterRead(rows, id, op, |past|, h), h)
  {
  }

  lemma CheckIsBacked(gate: G.World, pc: Pc, ch: G.Choice, h: HashFunction)
    requires pc.Checking? && Backed(gate.past, pc, h)
    ensures Backed(gate.past + [gate.now], AfterCheck(gate, pc, ch, h), h)
  {
    G.ReadIsGood(gate.past, gate.now, pc.gate, ch, h);
    assert TaskHash(pc.write, h) == TaskHash(pc.read, h);
    hide TaskHash, Content, G.Cleared, G.ReadUnfailed, G.ReadActive;
  }

  /** In every interleaving, every pending write that would start a task is backed by what the same operation read. */
  lemma {:induction false} EveryWriteIsBacked(es: seq<Event>, h: HashFunction)
    ensures G.WorldInv(RunTo(es, h).gate, h)
    ensures forall c :: c in RunTo(es, h).clients ==> Backed(RunTo(es, h).gate.past, RunTo(es, h).clients[c], h)
  {
    if es == [] {
      G.StartIsGood(h);
    } else {
      hide Backed, G.WorldInv, AfterRead, AfterCheck, CasSave, G.Act;
      var n := |es| - 1;
      var w, e := RunTo(es[..n], h), es[n];
      EveryWriteIsBacked(es[..n], h);
      IdleIsBacked(w.gate.past, h);
      forall c | c in w.clients ensures Backed(w.gate.past + [w.gate.now], w.clients[c], h) {
        BackedGrows(w.gate.past, w.gate.now, w.clients[c], h);
      }
      match e
      case Gate(g) =>
        G.StepKeepsInv(w.gate, g, h);
        GatePast(w.gate, g, h);
      case Read(c, id, op) => ReadIsBacked(w.gate.past, w.rows, id, op, h);
      case Check(c, ch) =>
        G.TickKeepsInv(w.gate, h);
        if PcOf(w, c).Checking? {
          CheckIsBacked(w.gate, w.clients[c], ch, h);
        }
      case _ =>
    }
  }

  lemma GatePast(w: G.World, e: G.Event, h: HashFunction)
    ensures G.Step(w, e, h).past == w.past + [w.now]
  {
  }

  lemma IdleIsBacked(past: seq<State>, h: HashFunction)
    ensures Backed(past, Idle, h)
  {
  }

  /** The composed gate: in every interleaving, with the gate's calls split at its repository calls too, a row moves
      into IN_PROGRESS only by a save whose own operation, after it had read the row, found a proposal active, later
      not failed, and later sealed for exactly the content that the row now has, which is also the proposal's own
      hash. */
  lemma StartsAreSealed(es: seq<Event>, e: Event, h: HashFunction, id: string)
    requires var (before, after) := (RunTo(es, h).rows, RunTo(es + [e], h).rows);
      id in after && after[id].status.InProgress? && !(id in before && before[id].status.InProgress?)
    ensures var w, row := RunTo(es, h), RunTo(es + [e], h).rows[id];
      && e.Save? && PcOf(w, e.client).Saving? && w.clients[e.client].proof.Some?
      && var proof := w.clients[e.client].proof.value;
      && Backs(w.gate.past, proof, id, row, h)
      && proof.p in w.gate.now.proposals && h(w.gate.now.proposals[proof.p].content) == TaskHash(row, h)
  {
    assert (es + [e])[..|es + [e]| - 1] == es;
    var w := RunTo(es, h);
    assert RunTo(es + [e], h) == Step(w, e, h);
    StartIsSave(w, e, h, id);
    EveryWriteIsBacked(es, h);
    hide RunTo, TaskHash, Step, G.WorldInv;
    var pc := w.clients[e.client];
    assert Backed(w.gate.past, pc, h) && Starts(pc);
    ClearedHash(w.gate, pc.proof.value, id, TaskHash(pc.write, h), h);
  }

  lemma StartIsSave(w: World, e: Event, h: HashFunction, id: string)
    requires var after := Step(w, e, h).rows;
      id in after && after[id].status.InProgress? && !(id in w.rows && w.rows[id].status.InProgress?)
    ensures e.Save? && e.client in w.clients && Starts(w.clients[e.client]) && w.clients[e.client].id == id
    ensures Step(w, e, h).rows[id] == w.clients[e.client].write
  {
    hide G.Step, AfterRead, AfterCheck, G.Tick;
  }

  lemma ClearedHash(gate: G.World, proof: Proof, id: string, hash: string, h: HashFunction)
    requires G.WorldInv(gate, h) && G.Cleared(gate.past, id, proof.p, Some(hash), proof.a, proof.b, proof.c)
    ensures proof.p in gate.now.proposals && h(gate.now.proposals[proof.p].content) == hash
  {
    assert G.Grows(gate.past[proof.c], gate.now);
  }

  // Status changes.

  /** What a client is about to write is what its operation makes of the row it read. */
  predicate FromRead(pc: Pc) {
    (pc.Checking? || pc.Saving?) ==> Admits(pc.op, pc.read) && Wrote(pc.op, pc.read, pc.write)
  }

  lemma ReadIsFromRead(rows: Rows, id: string, op: Op, now: nat, h: HashFunction)
    ensures FromRead(AfterRead(rows, id, op, now, h))
  {
    if id in rows {
      OperationMeans(rows[id], op);
      hide Planned, Wrote, Admits;
    }
  }

  lemma CheckIsFromRead(gate: G.World, pc: Pc, ch: G.Choice, h: HashFunction)
    requires pc.Checking? && FromRead(pc)
    ensures FromRead(AfterCheck(gate, pc, ch, h))
  {
    hide Wrote, Admits, G.Act;
  }

  lemma {:induction false} EveryWriteIsFromRead(es: seq<Event>, h: HashFunction)
    ensures forall c :: c in RunTo(es, h).clients ==> FromRead(RunTo(es, h).clients[c])
  {
    if es != [] {
      hide FromRead, AfterRead, AfterCheck, CasSave, G.Step, G.Tick;
      var n := |es| - 1;
      var w, e := RunTo(es[..n], h), es[n];
      EveryWriteIsFromRead(es[..n], h);
      assert FromRead(Idle) by {
        IdleIsFromRead();
      }
      match e
      case Read(c, id, op) => ReadIsFromRead(w.rows, id, op, |w.gate.past|, h);
      case Check(c, ch) =>
        if PcOf(w, c).Checking? {
          CheckIsFromRead(w.gate, w.clients[c], ch, h);
        }
      case _ =>
    }
  }

  lemma IdleIsFromRead()
    ensures FromRead(Idle)
  {
  }

  /** In every interleaving, a stored row changes only by the save of one operation that was admitted on the very status
      the row still has, and the row becomes what that operation writes of what it read: a status changes along an edge
      of the table, to the one the operation is for. */
  lemma ChangesAreNamed(es: seq<Event>, e: Event, h: HashFunction, id: string)
    requires var (before, after) := (RunTo(es, h).rows, RunTo(es + [e], h).rows);
      id in before && id in after && before[id] != after[id]
    ensures var w, row := RunTo(es, h), RunTo(es + [e], h).rows[id];
      && e.Save? && PcOf(w, e.client).Saving?
      && var pc := w.clients[e.client];
      && pc.id == id && pc.read.status == w.rows[id].status
      && Admits(pc.op, pc.read) && Wrote(pc.op, pc.read, row)
      && (row.status != w.rows[id].status ==>
            Target(pc.op) == Some(row.status) && Edge(w.rows[id].status, row.status))
  {
    EveryWriteIsFromRead(es, h);
    OneMoreEvent(es, e, h);
    hide RunTo, Step, Wrote, Admits;
    ChangeIsSave(RunTo(es, h), e, h, id);
    var pc := RunTo(es, h).clients[e.client];
    OperationMeans(pc.read, pc.op);
    WroteStatus(pc.op, pc.read, pc.write);
  }

  /** Only a save changes a row that stays, and the row becomes what the client was about to write. */
  lemma ChangeIsSave(w: World, e: Event, h: HashFunction, id: string)
    requires var after := Step(w, e, h).rows; id in w.rows && id in after && w.rows[id] != after[id]
    ensures e.Save? && e.client in w.clients && w.clients[e.client].Saving?
    ensures var pc := w.clients[e.client];
      pc.id == id && pc.read.status == w.rows[id].status && Step(w, e, h).rows[id] == pc.write
  {
    hide G.Step, G.Tick, AfterRead, AfterCheck;
  }

  lemma OneMoreEvent(es: seq<Event>, e: Event, h: HashFunction)
    ensures RunTo(es + [e], h) == Step(RunTo(es, h), e, h)
  {
    assert (es + [e])[..|es + [e]| - 1] == es;
  }

  lemma WroteStatus(op: Op, a: Task, b: Task)
    requires Wrote(op, a, b)
    ensures b.status == Target(op).GetOr(a.status)
  {
  }

  /** A row comes into being pending, without plan or approver, and only under a new id; and it goes only when
      removed. */
  lemma RowsComeAndGo(w: World, e: Event, h: HashFunction, id: string)
    ensures id !in w.rows && id in Step(w, e, h).rows ==>
      e.Create? && e.id == id
      && Step(w, e, h).rows[id] == Task(e.subject, e.description, Pending, e.owner, e.blockedBy, None, None, None)
    ensures e.Create? && e.id == id && id !in w.rows ==> id in Step(w, e, h).rows
    ensures id in w.rows ==> (id !in Step(w, e, h).rows <==> e.Remove? && e.id == id)
  {
    hide G.Step, G.Tick, AfterRead, AfterCheck;
  }

  /** So a task is completed only by a complete, and comes to be approved only by an approve or a retry. */
  lemma CompletedByComplete(es: seq<Event>, e: Event, h: HashFunction, id: string)
    requires var (before, after) := (RunTo(es, h).rows, RunTo(es + [e], h).rows);
      id in before && id in after && before[id].status != after[id].status
    ensures var w, row := RunTo(es, h), RunTo(es + [e], h).rows[id];
      && e.Save? && e.client in w.clients && w.clients[e.client].Saving?
      && var op := w.clients[e.client].op;
      && (row.status.Completed? ==> op.Complete? && w.rows[id].status.InProgress?)
      && (row.status.Approved? ==> op.Approve? || op.Retry?)
      && (row.status.InProgress? ==> op.Start? && w.rows[id].status.Approved?)
  {
    hide RunTo, Wrote;
    ChangesAreNamed(es, e, h, id);
  }

  /** A retry is meant for a task in progress; on a plan that nobody has approved it is an approval without an
      approver. */
  lemma RetryApproves(t: Task)
    requires t.status.Planning?
    ensures Planned(t, Retry) == Some(t.(status := Approved))
  {
  }

  // Whole operations, each alone.

  /** What one operation does to the rows. */
  ghost function Performed(rows: Rows, gate: State, id: string, op: Op, h: HashFunction): Rows {
    if id !in rows || Planned(rows[id], op).None? then rows
    else if op.Start? && !GateOpen(gate, id, TaskHash(rows[id], h)) then rows
    else rows[id := Planned(rows[id], op).value]
  }

  // The interleaving refines the whole operations.

  /** Up to `k` repository calls of a client's gate check, with nothing in between and without failures. */
  ghost function Checks(w: World, c: nat, call: G.Call, k: nat, h: HashFunction): World
    decreases k
  {
    if k == 0 then w else Checks(Step(w, Check(c, G.Choice(call, false)), h), c, call, k - 1, h)
  }

  /** An operation that nothing interrupts: it reads, checks, and saves. */
  ghost function Uninterrupted(w: World, c: nat, id: string, op: Op, h: HashFunction): World {
    var call := G.CallCheck(id, if id in w.rows then Some(TaskHash(w.rows[id], h)) else None);
    Step(Checks(Step(w, Read(c, id, op), h), c, call, 8, h), Save(c), h)
  }

  /** Then it does to the rows what the whole operation does, and its client is idle again. */
  lemma UninterruptedIsWhole(w: World, c: nat, id: string, op: Op, h: HashFunction)
    requires Fpel.Inv(w.gate.now, h) && PcOf(w, c).Idle?
    ensures Uninterrupted(w, c, id, op, h).rows == Performed(w.rows, w.gate.now, id, op, h)
    ensures PcOf(Uninterrupted(w, c, id, op, h), c).Idle?
  {
    hide Checks, Fpel.Inv, GateOpen, GateDecision, Planned;
    var call := G.CallCheck(id, if id in w.rows then Some(TaskHash(w.rows[id], h)) else None);
    var read := Step(w, Read(c, id, op), h);
    var pc := PcOf(read, c);
    if pc.Checking? {
      StartUninterrupted(w, c, id, op, h);
    } else {
      NoChecks(read, c, call, 8, h);
    }
  }

  lemma StartUninterrupted(w: World, c: nat, id: string, op: Op, h: HashFunction)
    requires Fpel.Inv(w.gate.now, h) && PcOf(w, c).Idle? && PcOf(Step(w, Read(c, id, op), h), c).Checking?
    ensures Uninterrupted(w, c, id, op, h).rows == Performed(w.rows, w.gate.now, id, op, h)
    ensures PcOf(Uninterrupted(w, c, id, op, h), c).Idle?
  {
    hide Checks, Fpel.Inv, GateOpen, GateDecision, Planned, TaskHash, G.Alone;
    var call := G.CallCheck(id, Some(TaskHash(w.rows[id], h)));
    var read := Step(w, Read(c, id, op), h);
    G.AloneIsWhole(read.gate.now, |read.gate.past|, call, h);
    ChecksAreAlone(read, c, call, 8, h);
    AllowedIffOpen(w.gate.now, id, TaskHash(w.rows[id], h), h);
  }

  lemma {:induction false} NoChecks(w: World, c: nat, call: G.Call, k: nat, h: HashFunction)
    requires !PcOf(w, c).Checking?
    ensures Checks(w, c, call, k, h) == w
    decreases k
  {
    if k > 0 {
      NoChecks(w, c, call, k - 1, h);
    }
  }

  /** Where a check ends that the gate allows or denies. */
  predicate EndsAs(pc: Pc, before: Pc, gate: G.Pc)
    requires before.Checking?
  {
    if gate.Allowing? then
      pc.Saving? && pc.id == before.id && pc.op == before.op && pc.read == before.read && pc.write == before.write
    else pc.Idle?
  }

  /** The client of the gate is at a call of a check, none of which writes. */
  predicate ReadsOnly(g: G.Pc) {
    match g
    case GettingActive(call) => call.CallCheck?
    case AskingFailed(call, _, _) => call.CallCheck?
    case GettingVerdict(call, _, _, _) => call.CallCheck?
    case ComparingHash(_, _, _, _, _, _) => true
    case Allowing(_, _, _, _, _, _) => true
    case Denying(_) => true
    case _ => false
  }

  lemma CheckReads(f: State, now: nat, g: G.Pc, ch: G.Choice, h: HashFunction)
    requires ReadsOnly(g) && !G.Resting(g) && !ch.fails
    ensures G.Act(f, now, g, ch, h).0 == f && ReadsOnly(G.Act(f, now, g, ch, h).1)
  {
  }

  /** The checks of the board are the repository calls of the gate. */
  lemma {:induction false} ChecksAreAlone(w: World, c: nat, call: G.Call, k: nat, h: HashFunction)
    requires PcOf(w, c).Checking?
    requires G.Resting(G.Alone(w.gate.now, |w.gate.past|, w.clients[c].gate, call, k, h).1)
    requires !G.Resting(w.clients[c].gate) && ReadsOnly(w.clients[c].gate)
    ensures var after := Checks(w, c, call, k, h);
      && after.rows == w.rows && c in after.clients
      && EndsAs(after.clients[c], w.clients[c], G.Alone(w.gate.now, |w.gate.past|, w.clients[c].gate, call, k, h).1)
    decreases k
  {
    hide G.Act;
    if k > 0 {
      var next := Step(w, Check(c, G.Choice(call, false)), h);
      var acted := G.Act(w.gate.now, |w.gate.past|, w.clients[c].gate, G.Choice(call, false), h);
      CheckReads(w.gate.now, |w.gate.past|, w.clients[c].gate, G.Choice(call, false), h);
      if G.Resting(acted.1) {
        NoChecks(next, c, call, k - 1, h);
      } else {
        ChecksAreAlone(next, c, call, k - 1, h);
      }
    }
  }

  class TaskBoardService {
    const gate: AuthorizationService
    var rows: Rows

    constructor (gate: AuthorizationService)
      ensures this.gate == gate && rows == map[]
    {
      this.gate := gate;
      rows := map[];
    }

    method CasSaveRow(id: string, t: Task, expected: Status) returns (ok: bool)
      modifies this
      ensures rows == CasSave(old(rows), id, t, expected)
      ensures ok <==> id in old(rows) && old(rows)[id].status == expected
    {
      ok := id in rows && rows[id].status == expected;
      rows := CasSave(rows, id, t, expected);
    }

    /** Every operation but start: read, refuse or save. */
    method Apply(id: string, op: Op) returns (ok: bool)
      requires !op.Start?
      modifies this
      ensures rows == Performed(old(rows), gate.repo, id, op, gate.h)
      ensures ok <==> id in old(rows) && Admits(op, old(rows)[id])
      ensures ok ==> id in rows && rows == old(rows)[id := rows[id]] && Wrote(op, old(rows)[id], rows[id])
      ensures !ok ==> rows == old(rows)
    {
      if id !in rows {
        return false;
      }
      var task := rows[id];
      OperationMeans(task, op);
      var updated := Planned(task, op);
      if updated.None? {
        return false;
      }
      ok := CasSaveRow(id, updated.value, task.status);
    }

    /** Start goes through the gate, with the hash of the very row it read. */
    method StartTask(id: string, owner: string, requester: Option<string>) returns (ok: bool)
      requires gate.Valid()
      modifies this
      ensures rows == Performed(old(rows), gate.repo, id, Start(owner, requester), gate.h)
      ensures ok <==>
        id in old(rows) && old(rows)[id].status.Approved? && old(rows)[id].blockedBy == []
                      && GateOpen(gate.repo, id, TaskHash(old(rows)[id], gate.h))
      ensures ok ==> rows == old(rows)[id := rows[id]] && Wrote(Start(owner, requester), old(rows)[id], rows[id])
      ensures ok ==> rows[id].status.InProgress? && Content(rows[id]) == Content(old(rows)[id])
      ensures !ok ==> rows == old(rows)
    {
      if id !in rows {
        return false;
      }
      var task := rows[id];
      if task.blockedBy != [] || !Edge(task.status, InProgress) {
        return false;
      }
      var current := TaskHash(task, gate.h);
      AllowedIffOpen(gate.repo, id, current, gate.h);
      var decision := gate.CheckSealed(id, Some(current));
      if !decision.Allowed? {
        return false;
      }
      ok := CasSaveRow(id, task.(status := InProgress, owner := Some(owner), requestedBy := requester), task.status);
    }

    /** Freezing a task freezes the same content, and so the same hash, that start will compute. */
    method FreezeTask(id: string, proposal: string) returns (ok: bool)
      requires gate.Valid() && id in rows
      modifies gate
      ensures gate.Valid()
      ensures ok <==> proposal !in old(gate.repo).proposals
      ensures ok ==> ActiveOf(gate.repo, id) == Some(proposal)
      ensures ok ==> gate.repo.proposals[proposal].hash == TaskHash(rows[id], gate.h)
    {
      var task := rows[id];
      var content: string;
      if task.plan.Some? {
        content := task.plan.value;
      } else {
        var parts := [task.subject];
        if task.description.Some? && task.description.value != "" {
          parts := parts + [task.description.value];
        }
        content := JoinLines(parts);
        assert parts == [task.subject] + if task.description.GetOr("") != "" then [task.description.value] else [];
      }
      ok := gate.Freeze(id, content, proposal);
    }

    /** The tasks `id` was blocking whose blockers are now all completed, deleted, or gone. */
    method ResolveBlockers(id: string) returns (unblocked: set<string>)
      ensures unblocked == set c | c in rows && Unblocked(rows, c, id)
      ensures forall c :: c in unblocked <==>
                c in rows && id in rows[c].blockedBy && forall b :: b in rows[c].blockedBy ==>
                  b !in rows || rows[b].status == Completed || rows[b].status == Deleted
    {
      unblocked := {};
      var todo := rows.Keys;
      while todo != {}
        invariant todo <= rows.Keys
        invariant unblocked == set c | c in rows.Keys - todo && Unblocked(rows, c, id)
        decreases todo
      {
        var c :| c in todo;
        if id in rows[c].blockedBy {
          var blockers, allResolved := rows[c].blockedBy, true;
          for i := 0 to |blockers|
            invariant allResolved <==> forall k :: 0 <= k < i ==> Resolved(rows, blockers[k])
          {
            if !Resolved(rows, blockers[i]) {
              allResolved := false;
              break;
            }
          }
          if allResolved {
            unblocked := unblocked + {c};
          }
        }
        todo := todo - {c};
      }
    }
  }

  predicate Resolved(rows: Rows, b: string) {
    b !in rows || rows[b].status.Completed? || rows[b].status.Deleted?
  }

  predicate Unblocked(rows: Rows, c: string, id: string) {
    c in rows && id in rows[c].blockedBy && forall b :: b in rows[c].blockedBy ==> Resolved(rows, b)
  }

  // Frozen and sealed means startable.

  /** Operations that change a row's status or owner but not its content. */
  predicate LifecycleOnly(op: Op) {
    match op
    case Update(subject, description, _) => subject.None? && description.None?
    case SubmitPlan(_, _) => false
    case Reject(_) => false
    case _ => true
  }

  lemma LifecycleKeepsContent(t: Task, op: Op, h: HashFunction)
    requires LifecycleOnly(op) && Planned(t, op).Some?
    ensures TaskHash(Planned(t, op).value, h) == TaskHash(t, h) && Planned(t, op).value.blockedBy == t.blockedBy
  {
  }

  /** A step of the board or of the gate, each alone. */
  datatype Move = BoardMove(id: string, op: Op) | GateMove(gop: Fpel.Op)

  datatype Both = Both(rows: Rows, gate: State)

  ghost function MoveBoth(b: Both, m: Move, h: HashFunction): Both {
    match m
    case BoardMove(id, op) => b.(rows := Performed(b.rows, b.gate, id, op, h))
    case GateMove(op) => b.(gate := Do(b.gate, op, h))
  }

  ghost function Moves(b: Both, ms: seq<Move>, h: HashFunction): Both {
    if ms == [] then b else MoveBoth(Moves(b, ms[..|ms| - 1], h), ms[|ms| - 1], h)
  }

  /** The move leaves the content of task `id` and the proposal frozen for it alone. */
  predicate Harmless(m: Move, id: string) {
    match m
    case BoardMove(i, op) => i == id ==> LifecycleOnly(op)
    case GateMove(op) => !((op.Freeze? || op.MarkFail?) && op.target == id)
  }

  /** Once a task's content is frozen and sealed, it can be started whenever it is approved and unblocked, through
      any harmless moves, including earlier starts and retries. */
  lemma {:induction false} SealedStaysStartable(b: Both, ms: seq<Move>, h: HashFunction, id: string, owner: string)
    requires Fpel.Inv(b.gate, h) && id in b.rows && GateOpen(b.gate, id, TaskHash(b.rows[id], h))
    requires forall i :: 0 <= i < |ms| ==> Harmless(ms[i], id)
    ensures var b' := Moves(b, ms, h);
      && Fpel.Inv(b'.gate, h)
      && id in b'.rows && TaskHash(b'.rows[id], h) == TaskHash(b.rows[id], h)
      && b'.rows[id].blockedBy == b.rows[id].blockedBy
      && GateOpen(b'.gate, id, TaskHash(b'.rows[id], h))
      && (b'.rows[id].status.Approved? && b.rows[id].blockedBy == [] ==>
            Performed(b'.rows, b'.gate, id, Start(owner, None), h)[id].status.InProgress?)
  {
    if ms != [] {
      hide Do, Fpel.Inv, GateOpen, TaskHash, Planned, LifecycleOnly;
      var n := |ms| - 1;
      SealedStaysStartable(b, ms[..n], h, id, owner);
      var mid, m := Moves(b, ms[..n], h), ms[n];
      assert Harmless(m, id);
      if m.GateMove? {
        DoKeepsInv(mid.gate, m.gop, h);
        OpenStays(mid.gate, m.gop, h, id, TaskHash(b.rows[id], h));
      } else if m.id == id && Planned(mid.rows[id], m.op).Some? {
        LifecycleKeepsContent(mid.rows[id], m.op, h);
      }
    }
    hide Fpel.Inv, GateOpen, TaskHash, Do, Moves;
    var b' := Moves(b, ms, h);
    if b'.rows[id].status.Approved? && b.rows[id].blockedBy == [] {
      StartsWhenOpen(b', h, id, owner);
    }
  }

  lemma StartsWhenOpen(b: Both, h: HashFunction, id: string, owner: string)
    requires id in b.rows && GateOpen(b.gate, id, TaskHash(b.rows[id], h))
    requires b.rows[id].status.Approved? && b.rows[id].blockedBy == []
    ensures Performed(b.rows, b.gate, id, Start(owner, None), h)[id].status.InProgress?
  {
  }

  /** Freezing a task's own content and then sealing it opens its gate for the hash that start computes if and only if
      all its checkers have passed the new proposal, the target is not failed for good, and the repository reports no
      other hash. */
  lemma FreezeAndSealOpensIff(f: State, t: Task, id: string, proposal: string, h: HashFunction)
    requires Fpel.Inv(f, h) && proposal !in f.proposals && proposal !in f.verdicts && proposal !in f.failures
    ensures GateOpen(Sealed(Frozen(f, id, Content(t), proposal, h), id), id, TaskHash(t, h))
       <==> AllPassed(f, id, proposal) && !(id in f.status && f.status[id].TerminalFail?)
            && (Reported(f, id).None? || Reported(f, id).value == TaskHash(t, h))
  {
    var g := Frozen(f, id, Content(t), proposal, h);
    FrozenKeepsInv(f, id, Content(t), proposal, h);
    SealGrantedIff(g, id, h, proposal);
    var s := Sealed(g, id);
    hide AllPassed, Sealed, Fpel.Inv;
    assert AllPassed(g, id, proposal) <==> AllPassed(f, id, proposal) by {
      SamePassed(f, g, id, proposal);
    }
    if Fpel.Earned(g, id, proposal, h) {
      assert OpenBy(s, id, TaskHash(t, h), proposal);
    }
    if p :| OpenBy(s, id, TaskHash(t, h), p) {
      OnlyActive(f, g, s, id, proposal, p, Content(t), h);
    }
  }

  lemma SamePassed(f: State, g: State, id: string, p: string)
    requires f.checkers == g.checkers && f.reports == g.reports
    ensures AllPassed(g, id, p) <==> AllPassed(f, id, p)
  {
  }

  lemma OnlyActive(f: State, g: State, s: State, id: string, proposal: string, p: string, content: string,
                   h: HashFunction)
    requires proposal !in f.proposals && g == Frozen(f, id, content, proposal, h) && s == Sealed(g, id)
    requires IsActive(s.proposals, id, p)
    ensures p == proposal
  {
    SealingAdds(g, id);
    FrozenActive(f, id, content, proposal, h, id, p);
  }
}
