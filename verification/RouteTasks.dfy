/** Durable message claims, route tasks and completed read tasks (lib/a2a-route-tasks.ts, lib/a2a-marketplace.ts). */
module RouteTasks {
  import opened Options

  type AgentId = nat
  type MessageId = nat
  type TaskId = nat
  type Context = nat
  type RouteId = nat
  type MandateId = nat

  const MAX_TASKS := 100
  const RETENTION_SECONDS: int := 604_800

  datatype Transport = A2A | Mcp

  /** What a message asks for: plan and continue are the route_work action. */
  datatype Data =
      | Plan(request: nat) | Continue(route: RouteId, mandate: MandateId) | CancelRoute(route: RouteId)
      | ReadSkill(input: nat)

  /** A message in canonical form; two messages are the same request exactly when they are equal. */
  datatype Message = Message(id: MessageId, taskId: Option<TaskId>, context: Option<Context>, data: Data, metadata: nat)

  /** A route task; the data of its first message tells its action. */
  datatype Task = Task(id: TaskId, agent: AgentId, context: Context, initial: Message, route: Option<RouteId>,
      mandate: Option<MandateId>)

  datatype ReadTask = ReadTask(id: TaskId, message: Message, createdAt: int)

  /** The first message of an agent is a key of every table, so rows are keyed by agent and message id. */
  datatype Tables = Tables(claims: map<(AgentId, MessageId), Message>, finished: map<(AgentId, MessageId), ReadTask>,
      a2a: seq<Task>, mcp: seq<Task>)

  datatype Code =
    | InvalidMessage | MessageConflict | TaskNotFound | BindingConflict | MandateConflict | TaskTerminal
    | WritesDisabled
    | RouteNotFound | TaskLimit | PlanFailed | MandateInvalid | ExecutionFailed | Unavailable | StorageBusy

  datatype Reply = Shown(task: Task) | ReadShown(read: ReadTask) | CancelAsked(task: Task) | Refused(code: Code)

  function Rows(s: Tables, tr: Transport): seq<Task> { if tr.A2A? then s.a2a else s.mcp }

  function WithRows(s: Tables, tr: Transport, rows: seq<Task>): Tables {
    if tr.A2A? then s.(a2a := rows) else s.(mcp := rows)
  }

  // ---- looking rows up ----

  function IndexById(rows: seq<Task>, a: AgentId, id: TaskId): (found: Option<nat>)
    ensures found.Some? ==> found.value < |rows| && rows[found.value].agent == a && rows[found.value].id == id
    ensures found.None? ==> forall i | 0 <= i < |rows| :: !(rows[i].agent == a && rows[i].id == id)
  {
    if rows == [] then None
    else
      var last := |rows| - 1;
      if rows[last].agent == a && rows[last].id == id then Some(last) else IndexById(rows[..last], a, id)
  }

  function IndexByMessage(rows: seq<Task>, a: AgentId, m: MessageId): (found: Option<nat>)
    ensures found.Some? ==> found.value < |rows| && rows[found.value].agent == a && rows[found.value].initial.id == m
    ensures found.None? ==> forall i | 0 <= i < |rows| :: !(rows[i].agent == a && rows[i].initial.id == m)
  {
    if rows == [] then None
    else
      var last := |rows| - 1;
      if rows[last].agent == a && rows[last].initial.id == m then Some(last) else IndexByMessage(rows[..last], a, m)
  }

  function OfAgent(rows: seq<Task>, a: AgentId): (own: seq<Task>)
    ensures forall t :: t in own <==> t in rows && t.agent == a
  {
    if rows == [] then []
    else OfAgent(rows[..|rows| - 1], a) + if rows[|rows| - 1].agent == a then [rows[|rows| - 1]] else []
  }

  predicate HasId(rows: seq<Task>, id: TaskId) {
    exists i | 0 <= i < |rows| :: rows[i].id == id
  }

  // ---- the atomic steps ----

  /** Binds the message id to this request, or finds it bound to the same one; None is a conflict. */
  function ClaimStep(s: Tables, a: AgentId, m: Message): Option<Tables> {
    var k := (a, m.id);
    if k in s.finished && s.finished[k].message != m then None
    else if k !in s.claims then Some(s.(claims := s.claims[k := m]))
    else if s.claims[k] == m then Some(s)
    else None
  }

  datatype Creation = Created(tables: Tables, at: nat) | NotCreated(code: Code)

  function NewTask(a: AgentId, m: Message, id: TaskId, context: Context): Task {
    Task(id, a, if m.context.Some? then m.context.value else context, m,
         if m.data.Continue? || m.data.CancelRoute? then Some(m.data.route) else None, None)
  }

  /** The creating transaction; it settles for a row that another call inserted first. */
  function CreateStep(s: Tables, tr: Transport, a: AgentId, m: Message, id: TaskId, context: Context): Creation {
    var rows := Rows(s, tr);
    var existing := IndexByMessage(rows, a, m.id);
    if existing.Some? then Created(s, existing.value)
    else if |OfAgent(rows, a)| >= MAX_TASKS then NotCreated(TaskLimit)
    else if HasId(rows, id) then NotCreated(MessageConflict)
    else Created(WithRows(s, tr, rows + [NewTask(a, m, id, context)]), |rows|)
  }

  /** Writes the route of a task unless another one is bound. */
  function RouteStep(s: Tables, tr: Transport, at: nat, r: RouteId): Option<Tables>
    requires at < |Rows(s, tr)|
  {
    var t := Rows(s, tr)[at];
    if t.route.None? || t.route.value == r then Some(WithRows(s, tr, Rows(s, tr)[at := t.(route := Some(r))])) else None
  }

  function MandateStep(s: Tables, tr: Transport, at: nat, d: MandateId): Option<Tables>
    requires at < |Rows(s, tr)|
  {
    var t := Rows(s, tr)[at];
    if t.mandate.None? || t.mandate.value == d then
      Some(WithRows(s, tr, Rows(s, tr)[at := t.(mandate := Some(d))]))
    else None
  }

  function Purge(s: Tables, now: int): Tables {
    s.(finished := map k | k in s.finished && s.finished[k].createdAt >= now - RETENTION_SECONDS :: s.finished[k])
  }

  /** Inserting a finished read task; on conflict nothing is written. */
  function SaveRead(s: Tables, a: AgentId, m: Message, id: TaskId, now: int): Tables {
    if (a, m.id) in s.finished then s else s.(finished := s.finished[(a, m.id) := ReadTask(id, m, now)])
  }

  // ---- whole calls ----

  /**
   * What a call finds outside these tables: whether the bound route can be read and is terminal or ordered, whether
   * writes are enabled, the named route owned, the plan made, stored and its mandate valid, the execution accepted, and
   * the generated ids.
   */
  datatype Surroundings = Surroundings(snapshot: bool, terminal: bool, ordered: bool, writes: bool, owned: bool,
      planned: Option<RouteId>,
                                       planStored: bool, mandateValid: bool, executed: bool, newId: TaskId,
                                           newContext: Context)

  datatype Call = Call(transport: Transport, agent: AgentId, message: Message, around: Surroundings)

  predicate RouteWork(d: Data) { d.Plan? || d.Continue? }

  predicate NamesRoute(d: Data) { d.Continue? || d.CancelRoute? }

  predicate WellFormed(m: Message) { !m.data.ReadSkill? && (m.data.Plan? ==> m.taskId.None?) }

  predicate OrderedFor(t: Task, e: Surroundings) { t.route.Some? && e.ordered }

  /** The answer that an existing task already decides, if it does. */
  function Screen(t: Task, m: Message, e: Surroundings, replay: bool): Option<Reply> {
    var terminal := t.route.Some? && e.terminal;
    if m.taskId.Some? then
      if !NamesRoute(m.data) || t.route != Some(m.data.route) || (m.context.Some? && m.context.value != t.context)
      then Some(Refused(BindingConflict))
      else if !e.snapshot then Some(Refused(TaskNotFound))
      else if m.data.Continue? && t.mandate.Some? && t.mandate.value != m.data.mandate
          then Some(Refused(MandateConflict))
      else if terminal then Some(if replay then Shown(t) else Refused(TaskTerminal))
      else None
    else if t.initial != m then Some(Refused(MessageConflict))
    else if t.route.Some? && !e.snapshot then Some(Refused(TaskNotFound))
    else if terminal || (m.data.Plan? && t.route.Some? && t.mandate.None?)
        || (RouteWork(m.data) && t.mandate.Some? && OrderedFor(t, e)) then Some(Shown(t))
    else None
  }

  /** Execution of a task that has both a route and a mandate, and the closing view. */
  function Finish(t: Task, e: Surroundings): Reply {
    if t.mandate.Some? && t.route.Some? && !e.executed then Refused(ExecutionFailed) else Shown(t)
  }

  function Authorize(s: Tables, tr: Transport, at: nat, d: MandateId, e: Surroundings): (Tables, Reply)
    requires at < |Rows(s, tr)|
  {
    if !e.planStored then (s, Refused(RouteNotFound))
    else if !e.mandateValid then (s, Refused(MandateInvalid))
    else
      match MandateStep(s, tr, at, d)
      case None => (s, Refused(MandateConflict))
      case Some(s') => (s', Finish(Rows(s', tr)[at], e))
  }

  /** The rest of a call once its task exists. */
  function Work(s: Tables, tr: Transport, at: nat, m: Message, e: Surroundings): (Tables, Reply)
    requires at < |Rows(s, tr)|
  {
    var t := Rows(s, tr)[at];
    match m.data
    case Plan(_) =>
      if t.route.Some? then (s, Finish(t, e))
      else if e.planned.None? then (s, Refused(PlanFailed))
      else var s' := RouteStep(s, tr, at, e.planned.value).value; (s', Finish(Rows(s', tr)[at], e))
    case CancelRoute(_) => (s, CancelAsked(t))
    case Continue(_, d) => Authorize(s, tr, at, d, e)
    case ReadSkill(_) => (s, Refused(InvalidMessage))
  }

  /** Either an answer without any work, or the task to work on, created if need be. */
  datatype Entry = Answered(reply: Reply) | Entered(tables: Tables, at: nat)

  function Enter(s: Tables, c: Call, replay: bool): (entry: Entry)
    ensures entry.Entered? ==> entry.at < |Rows(entry.tables, c.transport)|
  {
    var rows, m, e := Rows(s, c.transport), c.message, c.around;
    var found := if m.taskId.Some? then IndexById(rows, c.agent, m.taskId.value)
        else IndexByMessage(rows, c.agent, m.id);
    if m.taskId.Some? && found.None? then Answered(Refused(TaskNotFound))
    else
      var settled := if found.Some? then Screen(rows[found.value], m, e, replay) else None;
      if settled.Some? then Answered(settled.value)
      else if RouteWork(m.data) && !(found.Some? && OrderedFor(rows[found.value], e)) && !e.writes
          then Answered(Refused(WritesDisabled))
      else if NamesRoute(m.data) && !e.owned then Answered(Refused(RouteNotFound))
      else if found.Some? then Entered(s, found.value)
      else
        match CreateStep(s, c.transport, c.agent, m, e.newId, e.newContext)
        case NotCreated(code) => Answered(Refused(code))
        case Created(s', at) => Entered(s', at)
  }

  /** One attempt that is not stopped by a locked database. */
  function Proceed(s: Tables, c: Call, replay: bool): (Tables, Reply) {
    match Enter(s, c, replay)
    case Answered(reply) => (s, reply)
    case Entered(s', at) => Work(s', c.transport, at, c.message, c.around)
  }

  /** How much an attempt had committed when it met a locked database. */
  datatype Stop = BeforeAll | AfterEntering | AfterBinding

  /** An attempt that met a locked database, with what it found outside these tables. */
  datatype Locked = Locked(around: Surroundings, stop: Stop)

  function Interrupted(s: Tables, c: Call, replay: bool, l: Locked): Tables {
    var tried := c.(around := l.around);
    match l.stop
    case BeforeAll => s
    case AfterEntering => (match Enter(s, tried, replay) case Answered(_) => s case Entered(s', _) => s')
    case AfterBinding => Proceed(s, tried, replay).0
  }

  function AfterLocked(s: Tables, c: Call, replay: bool, ls: seq<Locked>): Tables {
    if ls == [] then s else Interrupted(AfterLocked(s, c, replay, ls[..|ls| - 1]), c, replay, ls[|ls| - 1])
  }

  const RETRIES := 5

  /** A whole call: five locked attempts are survived, a sixth is reported; what they committed stays. */
  function Send(s: Tables, c: Call, ls: seq<Locked>): (Tables, Reply) {
    if !WellFormed(c.message) then (s, Refused(InvalidMessage))
    else
      match ClaimStep(s, c.agent, c.message)
      case None => (s, Refused(MessageConflict))
      case Some(s') =>
        var replay := (c.agent, c.message.id) in s.claims;
        if |ls| > RETRIES then (AfterLocked(s', c, replay, ls[..RETRIES + 1]), Refused(StorageBusy))
        else Proceed(AfterLocked(s', c, replay, ls), c, replay)
  }

  /** A read skill: available is false when its answer cannot be computed. */
  function Read(s: Tables, a: AgentId, m: Message, id: TaskId, now: int, available: bool): (Tables, Reply) {
    var k := (a, m.id);
    if !m.data.ReadSkill? || m.taskId.Some? then (s, Refused(InvalidMessage))
    else
      match ClaimStep(s, a, m)
      case None => (s, Refused(MessageConflict))
      case Some(s1) =>
        if k in s1.finished && s1.finished[k].createdAt >= now - RETENTION_SECONDS then (s1, ReadShown(s1.finished[k]))
        else if !available then (s1, Refused(Unavailable))
        else var s2 := SaveRead(Purge(s1, now), a, m, id, now); (s2, ReadShown(s2.finished[k]))
  }

  // ---- the store ----

  class RouteTaskStore {
    var claims: map<(AgentId, MessageId), Message>
    var finished: map<(AgentId, MessageId), ReadTask>
    var a2a: seq<Task>
    var mcp: seq<Task>

    ghost function Contents(): Tables
      reads this
    {
      Tables(claims, finished, a2a, mcp)
    }

    constructor ()
      ensures Contents() == Tables(map[], map[], [], [])
    {
      claims, finished, a2a, mcp := map[], map[], [], [];
    }

    /**
     * busy is how many attempts in a row find the database locked; replay tells that the message was claimed before.
     */
    method ClaimMessage(a: AgentId, m: Message, busy: nat) returns (fault: Option<Code>, replay: bool)
      modifies this`claims
      ensures busy > 5 ==> fault == Some(StorageBusy) && claims == old(claims)
      ensures busy <= 5 ==>
                match ClaimStep(old(Contents()), a, m)
                case None => fault == Some(MessageConflict) && claims == old(claims)
                case Some(s') => fault.None? && Contents() == s' && (replay <==> (a, m.id) in old(claims))
    {
      var attempt := 0;
      while attempt < busy
        invariant attempt <= busy && attempt <= 5
        invariant claims == old(claims)
      {
        if attempt >= 5 { return Some(StorageBusy), false; }
        attempt := attempt + 1;
      }
      var k := (a, m.id);
      if k in finished && finished[k].message != m { return Some(MessageConflict), false; }
      replay := k in claims;
      if !replay { claims := claims[k := m]; }
      if claims[k] != m { return Some(MessageConflict), replay; }
      return None, replay;
    }

    function Of(tr: Transport): seq<Task>
      reads this
    {
      if tr.A2A? then a2a else mcp
    }

    method SetRows(tr: Transport, rows: seq<Task>)
      modifies this`a2a, this`mcp
      ensures Contents() == WithRows(old(Contents()), tr, rows)
    {
      if tr.A2A? { a2a := rows; } else { mcp := rows; }
    }

    method BindMandate(tr: Transport, at: nat, d: MandateId) returns (fault: Option<Code>)
      requires at < |Of(tr)|
      modifies this`a2a, this`mcp
      ensures match MandateStep(old(Contents()), tr, at, d)
              case None => fault == Some(MandateConflict) && Contents() == old(Contents())
              case Some(s') => fault.None? && Contents() == s'
    {
      var task := Of(tr)[at];
      if task.mandate.Some? && task.mandate.value != d { return Some(MandateConflict); }
      SetRows(tr, Of(tr)[at := task.(mandate := Some(d))]);
      return None;
    }

    method CreateTask(tr: Transport, a: AgentId, m: Message, id: TaskId, context: Context)
      returns (fault: Option<Code>, at: nat)
      modifies this`a2a, this`mcp
      ensures match CreateStep(old(Contents()), tr, a, m, id, context)
              case NotCreated(code) => fault == Some(code) && Contents() == old(Contents())
              case Created(s', i) => fault.None? && Contents() == s' && at == i
    {
      var rows := Of(tr);
      var existing := IndexByMessage(rows, a, m.id);
      if existing.Some? { return None, existing.value; }
      if |OfAgent(rows, a)| >= MAX_TASKS { return Some(TaskLimit), 0; }
      if HasId(rows, id) { return Some(MessageConflict), 0; }
      SetRows(tr, rows + [NewTask(a, m, id, context)]);
      return None, |rows|;
    }

    method DoWork(tr: Transport, at: nat, m: Message, e: Surroundings) returns (reply: Reply)
      requires at < |Of(tr)|
      modifies this`a2a, this`mcp
      ensures (Contents(), reply) == Work(old(Contents()), tr, at, m, e)
    {
      var task := Of(tr)[at];
      if m.data.ReadSkill? { return Refused(InvalidMessage); }
      if task.route.None? && m.data.Plan? {
        if e.planned.None? { return Refused(PlanFailed); }
        task := task.(route := e.planned);
        SetRows(tr, Of(tr)[at := task]);
      }
      if m.data.CancelRoute? { return CancelAsked(task); }
      if m.data.Continue? {
        if !e.planStored { return Refused(RouteNotFound); }
        if !e.mandateValid { return Refused(MandateInvalid); }
        var fault := BindMandate(tr, at, m.data.mandate);
        if fault.Some? { return Refused(fault.value); }
        task := Of(tr)[at];
      }
      if task.mandate.Some? && task.route.Some? && !e.executed { return Refused(ExecutionFailed); }
      return Shown(task);
    }

    method EnterTask(c: Call, replay: bool) returns (reply: Option<Reply>, at: nat)
      modifies this`a2a, this`mcp
      ensures match Enter(old(Contents()), c, replay)
              case Answered(r) => reply == Some(r) && Contents() == old(Contents())
              case Entered(s', i) => reply.None? && Contents() == s' && at == i
    {
      var m, e, tr := c.message, c.around, c.transport;
      at := 0;
      var found := if m.taskId.Some? then IndexById(Of(tr), c.agent, m.taskId.value)
          else IndexByMessage(Of(tr), c.agent, m.id);
      if m.taskId.Some? && found.None? { return Some(Refused(TaskNotFound)), 0; }
      var ordered := false;
      if found.Some? {
        var task := Of(tr)[found.value];
        var settled := Screen(task, m, e, replay);
        if settled.Some? { return settled, 0; }
        ordered := OrderedFor(task, e);
      }
      if RouteWork(m.data) && !ordered && !e.writes { return Some(Refused(WritesDisabled)), 0; }
      if NamesRoute(m.data) && !e.owned { return Some(Refused(RouteNotFound)), 0; }
      if found.Some? { return None, found.value; }
      var fault: Option<Code>;
      fault, at := CreateTask(tr, c.agent, m, e.newId, e.newContext);
      if fault.Some? { return Some(Refused(fault.value)), 0; }
      return None, at;
    }

    /** One attempt; stop tells where a locked database ends it, and then its reply is lost. */
    method Attempt(c: Call, replay: bool, stop: Option<Stop>) returns (reply: Reply)
      modifies this`a2a, this`mcp
      ensures stop.None? ==> (Contents(), reply) == Proceed(old(Contents()), c, replay)
      ensures stop.Some? ==> Contents() == Interrupted(old(Contents()), c, replay, Locked(c.around, stop.value))
    {
      reply := Refused(StorageBusy);
      if stop == Some(BeforeAll) { return; }
      var answer, at := EnterTask(c, replay);
      if answer.Some? { return answer.value; }
      if stop == Some(AfterEntering) { return; }
      reply := DoWork(c.transport, at, c.message, c.around);
    }

    /** locked lists the attempts in a row that meet a locked database; every attempt starts over from the claim. */
    method SendRouteWork(c: Call, locked: seq<Locked>) returns (reply: Reply)
      modifies this
      ensures (Contents(), reply) == Send(old(Contents()), c, locked)
    {
      if !WellFormed(c.message) { return Refused(InvalidMessage); }
      var fault, replay := ClaimMessage(c.agent, c.message, 0);
      if fault.Some? { return Refused(fault.value); }
      ghost var claimed := Contents();
      var attempt := 0;
      while attempt < |locked|
        invariant attempt <= |locked| && attempt <= RETRIES
        invariant Contents() == AfterLocked(claimed, c, replay, locked[..attempt])
      {
        var l := locked[attempt];
        assert locked[..attempt + 1][..attempt] == locked[..attempt];
        reply := Attempt(c.(around := l.around), replay, Some(l.stop));
        if attempt >= RETRIES { return Refused(StorageBusy); }
        attempt := attempt + 1;
      }
      assert locked[..attempt] == locked;
      reply := Attempt(c, replay, None);
    }

    method RunReadSkill(a: AgentId, m: Message, id: TaskId, now: int, available: bool) returns (reply: Reply)
      modifies this`claims, this`finished
      ensures (Contents(), reply) == Read(old(Contents()), a, m, id, now, available)
    {
      if !m.data.ReadSkill? || m.taskId.Some? { return Refused(InvalidMessage); }
      var fault, _ := ClaimMessage(a, m, 0);
      if fault.Some? { return Refused(fault.value); }
      var k := (a, m.id);
      if k in finished && finished[k].createdAt >= now - RETENTION_SECONDS { return ReadShown(finished[k]); }
      if !available { return Refused(Unavailable); }
      finished := map j | j in finished && finished[j].createdAt >= now - RETENTION_SECONDS :: finished[j];
      if k !in finished { finished := finished[k := ReadTask(id, m, now)]; }
      return ReadShown(finished[k]);
    }

    /** The list behind task paging: at most one row more than an agent may hold. */
    method ListRows(a: AgentId, tr: Transport) returns (own: seq<Task>)
      ensures var all := OfAgent(Rows(Contents(), tr), a);
      own == if |all| <= MAX_TASKS + 1 then all else all[..MAX_TASKS + 1]
    {
      var rows := Of(tr);
      own := [];
      var i := 0;
      while i < |rows| && |own| < MAX_TASKS + 1
        invariant i <= |rows| && |own| <= MAX_TASKS + 1
        invariant own == OfAgent(rows[..i], a)
      {
        assert rows[..i + 1][..i] == rows[..i];
        if rows[i].agent == a { own := own + [rows[i]]; }
        i := i + 1;
      }
      OfAgentPrefix(rows, a, i);
      assert rows[..|rows|] == rows;
    }
  }

  /** The agent's rows of a prefix are a prefix of the agent's rows. */
  lemma {:induction false} OfAgentPrefix(rows: seq<Task>, a: AgentId, i: nat)
    requires i <= |rows|
    ensures OfAgent(rows[..i], a) <= OfAgent(rows, a)
  {
    if i < |rows| {
      assert rows[..|rows| - 1][..i] == rows[..i];
      OfAgentPrefix(rows[..|rows| - 1], a, i);
    } else {
      assert rows[..i] == rows;
    }
  }
}
