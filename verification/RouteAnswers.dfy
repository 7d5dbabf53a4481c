/**
 * What a routing call is answered and what it may write (lib/a2a-route-tasks.ts): which task it concerns, when that
 * task is merely shown, and which calls bind a route or a mandate to it.
 */
module RouteAnswers {
  import opened Options
  import opened RouteTasks
  import opened RouteTaskRuns

  /** The message names the task's own route and, if it gives a context, the task's own context. */
  predicate Names(t: Task, m: Message) {
    && (m.data.Continue? || m.data.CancelRoute?) && t.route == Some(m.data.route)
    && (m.context.Some? ==> m.context.value == t.context)
  }

  /** A mandate may be bound over none or over itself. */
  predicate Takes(t: Task, d: MandateId) { t.mandate.None? || t.mandate.value == d }

  predicate Concerns(s: Tables, c: Call, at: nat) {
    && at < |Rows(s, c.transport)| && Rows(s, c.transport)[at].agent == c.agent
    && match c.message.taskId
       case Some(id) => Rows(s, c.transport)[at].id == id
       case None => Rows(s, c.transport)[at].initial.id == c.message.id
  }

  /** The row a call finds, by the task it names or by its own message id. */
  function Found(s: Tables, c: Call): (at: Option<nat>)
    ensures at.Some? ==> Concerns(s, c, at.value)
    ensures at.None? ==> forall i :: !Concerns(s, c, i)
  {
    if c.message.taskId.Some? then IndexById(Rows(s, c.transport), c.agent, c.message.taskId.value)
    else IndexByMessage(Rows(s, c.transport), c.agent, c.message.id)
  }

  /** Whether new work is let in: writes are enabled, or the task's route has been ordered already. */
  predicate WorkAllowed(c: Call, t: Option<Task>) {
    && (c.message.data.Plan? || c.message.data.Continue? ==>
          c.around.writes || (t.Some? && t.value.route.Some? && c.around.ordered))
    && (c.message.data.Continue? || c.message.data.CancelRoute? ==> c.around.owned)
  }

  // ---- calls that name a task ----

  /** A task that is not the agent's, or not there, is not found, and nothing is written. */
  lemma UnknownTasksAreNotFound(s: Tables, c: Call, replay: bool)
    requires c.message.taskId.Some? && forall i :: !Concerns(s, c, i)
    ensures Proceed(s, c, replay) == (s, Refused(TaskNotFound))
  {
    var at := Found(s, c);
  }

  /**
   * A call that names a task but another route or context is a binding conflict and writes nothing; no other call is.
   */
  lemma OtherRoutesConflict(s: Tables, c: Call, replay: bool)
    requires c.message.taskId.Some? && Found(s, c).Some?
    ensures !Names(Rows(s, c.transport)[Found(s, c).value], c.message) <==>
              Proceed(s, c, replay) == (s, Refused(BindingConflict))
  {
  }

  /** The task can be read, is not finished, and has no other mandate than the one the call gives. */
  predicate Live(t: Task, c: Call) {
    && c.around.snapshot && !c.around.terminal
    && (c.message.data.Continue? ==> Takes(t, c.message.data.mandate))
  }

  /**
   * A call that names its task's route works on it exactly while the task is live and work is allowed; on a finished
   * task only the repetition of an earlier call is answered, with the task as it is.
   */
  lemma NamedTasksAreWorkedOnIff(s: Tables, c: Call, replay: bool)
    requires c.message.taskId.Some? && WellFormed(c.message) && Found(s, c).Some?
    requires Names(Rows(s, c.transport)[Found(s, c).value], c.message)
    ensures var at := Found(s, c).value;
            var t := Rows(s, c.transport)[at];
            && (Live(t, c) && WorkAllowed(c, Some(t)) ==>
                  Proceed(s, c, replay) == Work(s, c.transport, at, c.message, c.around))
            && (!(Live(t, c) && WorkAllowed(c, Some(t))) ==>
                  && Proceed(s, c, replay).0 == s
                  && (Proceed(s, c, replay).1.Refused? || Proceed(s, c, replay).1 == Shown(t)))
            && (Proceed(s, c, replay).1 == Shown(t) && c.around.terminal ==> replay)
            && (replay && c.around.snapshot && c.around.terminal
                && (c.message.data.Continue? ==> Takes(t, c.message.data.mandate)) ==>
                  Proceed(s, c, replay) == (s, Shown(t)))
  {
  }

  // ---- first messages ----

  /**
   * A first message whose task is there already is merely answered with it: when the task is finished, planned and not
   * yet authorized, or already ordered under its mandate.
   */
  predicate Settles(t: Task, c: Call) {
    || (t.route.Some? && c.around.terminal)
    || (c.message.data.Plan? && t.route.Some? && t.mandate.None?)
    || ((c.message.data.Plan? || c.message.data.Continue?) && t.mandate.Some? && t.route.Some? && c.around.ordered)
  }

  /**
   * What a repeated first message does: a conflict, an unreadable route, its task as it is, a refusal, or more work.
   */
  lemma RepeatedFirstMessages(s: Tables, c: Call, replay: bool)
    requires c.message.taskId.None? && WellFormed(c.message) && Found(s, c).Some?
    ensures var at := Found(s, c).value;
            var t, reply := Rows(s, c.transport)[at], Proceed(s, c, replay);
            && (t.initial != c.message <==> reply == (s, Refused(MessageConflict)))
            && (t.initial == c.message && t.route.Some? && !c.around.snapshot ==> reply == (s, Refused(TaskNotFound)))
            && (t.initial == c.message && (t.route.Some? ==> c.around.snapshot) ==>
                  reply == if Settles(t, c) then (s, Shown(t))
                           else if WorkAllowed(c, Some(t)) then Work(s, c.transport, at, c.message, c.around)
                           else (s, Refused(if WorkAllowed(c.(around := c.around.(owned := true)), Some(t))
                                            then RouteNotFound else WritesDisabled)))
  {
  }

  /**
   * A new first message makes its task exactly when work is allowed, the agent has fewer than a hundred, the id is new.
   */
  lemma NewFirstMessages(s: Tables, c: Call, replay: bool)
    requires c.message.taskId.None? && WellFormed(c.message) && Found(s, c).None?
    ensures var rows, m := Rows(s, c.transport), c.message;
            var made := WithRows(s, c.transport, rows + [Task(c.around.newId, c.agent,
                if m.context.Some? then m.context.value else c.around.newContext, m,
                if m.data.Plan? then None else Some(m.data.route), None)]);
            if WorkAllowed(c, None) && |OfAgent(rows, c.agent)| < 100
               && forall i | 0 <= i < |rows| :: rows[i].id != c.around.newId
            then Proceed(s, c, replay) == Work(made, c.transport, |rows|, m, c.around)
            else Proceed(s, c, replay).0 == s && Proceed(s, c, replay).1.Refused?
  {
    assert IndexByMessage(Rows(s, c.transport), c.agent, c.message.id).None?;
  }

  // ---- the work itself ----

  /** What the work on a task binds: a plan's route where there is none yet, and a valid mandate over none or itself. */
  lemma WorkBinds(s: Tables, tr: Transport, at: nat, m: Message, e: Surroundings)
    requires at < |Rows(s, tr)|
    ensures var t := Rows(s, tr)[at];
            var plans := m.data.Plan? && t.route.None? && e.planned.Some?;
            var authorizes := m.data.Continue? && e.planStored && e.mandateValid && Takes(t, m.data.mandate);
            Work(s, tr, at, m, e).0
            == if plans then WithRows(s, tr, Rows(s, tr)[at := t.(route := e.planned)])
               else if authorizes then WithRows(s, tr, Rows(s, tr)[at := t.(mandate := Some(m.data.mandate))])
               else s
  {
  }

  /**
   * And what it answers: cancelling hands the task on, a failed plan, mandate or execution is reported, and otherwise
   * the task is shown with what it now has.
   */
  lemma WorkAnswers(s: Tables, tr: Transport, at: nat, m: Message, e: Surroundings)
    requires at < |Rows(s, tr)| && WellFormed(m)
    ensures at < |Rows(Work(s, tr, at, m, e).0, tr)|
    ensures var t, reply, u := Rows(s, tr)[at], Work(s, tr, at, m, e).1, Rows(Work(s, tr, at, m, e).0, tr)[at];
            && (reply.CancelAsked? <==> m.data.CancelRoute?) && (reply.CancelAsked? ==> reply.task == t)
            && (reply.Shown? ==> reply.task == u && (u.route.Some? && u.mandate.Some? ==> e.executed))
            && (reply == Refused(ExecutionFailed) ==> u.route.Some? && u.mandate.Some? && !e.executed)
            && (m.data.Plan? ==> (reply == Refused(PlanFailed) <==> t.route.None? && e.planned.None?))
            && (m.data.Continue? ==>
                  && (reply == Refused(RouteNotFound) <==> !e.planStored)
                  && (reply == Refused(MandateInvalid) <==> e.planStored && !e.mandateValid)
                  && (reply == Refused(MandateConflict) <==>
                      e.planStored && e.mandateValid && !Takes(t, m.data.mandate)))
            && (reply.Refused? ==>
                reply.code in {PlanFailed, RouteNotFound, MandateInvalid, MandateConflict, ExecutionFailed})
  {
  }

  // ---- claims, read skills and locked databases ----

  /**
   * A message id can be claimed exactly by the request that holds it already in either table, or by any if none does.
   */
  lemma ClaimIff(s: Tables, a: AgentId, m: Message)
    ensures ClaimStep(s, a, m).Some?
       <==> && ((a, m.id) in s.finished ==> s.finished[(a, m.id)].message == m)
            && ((a, m.id) in s.claims ==> s.claims[(a, m.id)] == m)
    ensures ClaimStep(s, a, m).Some? ==> ClaimStep(s, a, m).value == s.(claims := s.claims[(a, m.id) := m])
  {
    if (a, m.id) in s.claims && s.claims[(a, m.id)] == m { assert s.claims[(a, m.id) := m] == s.claims; }
  }

  predicate Recent(r: ReadTask, now: int) { now - r.createdAt <= 7 * 24 * 60 * 60 }

  /**
   * A read skill that gets its claim is answered from the stored task for seven days; after that, if it can be
   * computed, its result replaces the old one, and every other task older than that is dropped.
   */
  lemma ReadIff(s: Tables, a: AgentId, m: Message, id: TaskId, now: int, available: bool)
    requires m.data.ReadSkill? && m.taskId.None? && ClaimStep(s, a, m).Some?
    ensures var k, s' := (a, m.id), Read(s, a, m, id, now, available).0;
            var reply := Read(s, a, m, id, now, available).1;
            && s' == s.(claims := s.claims[k := m], finished := s'.finished)
            && if k in s.finished && Recent(s.finished[k], now) then
                 reply == ReadShown(s.finished[k]) && s'.finished == s.finished
               else if !available then reply == Refused(Unavailable) && s'.finished == s.finished
               else
                 && reply == ReadShown(ReadTask(id, m, now)) && k in s'.finished
                 && s'.finished[k] == ReadTask(id, m, now)
                 && forall j | j != k :: (j in s'.finished <==> j in s.finished && Recent(s.finished[j], now))
                     && (j in s'.finished ==> s'.finished[j] == s.finished[j])
  {
    ClaimIff(s, a, m);
  }

  /** Not a routing message, or a plan that names a task. */
  predicate Malformed(m: Message) { m.data.ReadSkill? || (m.data.Plan? && m.taskId.Some?) }

  /** Such a message is refused before it claims its id. */
  lemma MalformedCallsAreRefused(s: Tables, c: Call, ls: seq<Locked>)
    requires Malformed(c.message)
    ensures Send(s, c, ls) == (s, Refused(InvalidMessage))
  {
  }

  /** A call that meets no lock is answered by its one attempt, and one that meets six is told the store is busy. */
  lemma LocksDelayOnly(s: Tables, c: Call, ls: seq<Locked>)
    requires !Malformed(c.message) && ClaimStep(s, c.agent, c.message).Some?
    ensures Send(s, c, []) == Proceed(ClaimStep(s, c.agent, c.message).value, c, (c.agent, c.message.id) in s.claims)
    ensures |ls| >= 6 ==> Send(s, c, ls).1 == Refused(StorageBusy)
    ensures |ls| <= 5 ==>
              var before := AfterLocked(ClaimStep(s, c.agent, c.message).value, c, (c.agent, c.message.id) in s.claims,
                  ls);
              Send(s, c, ls) == Proceed(before, c, (c.agent, c.message.id) in s.claims)
  {
  }

  // ---- over whole calls ----

  /** The call may bind something to this row: it names the row's route, or it is the row's own first message. */
  predicate MayBind(t: Task, c: Call) {
    && t.agent == c.agent
    && if c.message.taskId.Some? then t.id == c.message.taskId.value && Names(t, c.message) else t.initial == c.message
  }

  /** The row as it was, or, if the call may bind to it, with a route or mandate bound that was not there. */
  predicate OnlyOwnBindings(t: Task, u: Task, c: Call) {
    || u == t
    || (MayBind(t, c) && TaskKept(t, u)
        && (u.mandate != t.mandate ==> c.message.data.Continue? && u.mandate == Some(c.message.data.mandate))
        && (u.route != t.route ==> c.message.data.Plan?))
  }

  ghost predicate RowsOnlyOwn(s: Tables, s': Tables, c: Call) {
    && Rows(s', if c.transport.A2A? then Mcp else A2A) == Rows(s, if c.transport.A2A? then Mcp else A2A)
    && var rows, rows' := Rows(s, c.transport), Rows(s', c.transport);
       && |rows| <= |rows'| && (forall i | 0 <= i < |rows| :: OnlyOwnBindings(rows[i], rows'[i], c))
       && forall i | |rows| <= i < |rows'| :: rows'[i].agent == c.agent && rows'[i].initial == c.message
  }

  lemma OwnBindingsCompose(t: Task, u: Task, v: Task, c: Call)
    requires OnlyOwnBindings(t, u, c) && OnlyOwnBindings(u, v, c)
    ensures OnlyOwnBindings(t, v, c)
  {
    if u != t {
      assert u.(route := None, mandate := None).agent == t.(route := None, mandate := None).agent;
    }
  }

  lemma RowsCompose(s: Tables, s1: Tables, s2: Tables, c: Call)
    requires RowsOnlyOwn(s, s1, c) && RowsOnlyOwn(s1, s2, c)
    ensures RowsOnlyOwn(s, s2, c)
  {
    var rows, rows1, rows2 := Rows(s, c.transport), Rows(s1, c.transport), Rows(s2, c.transport);
    forall i | 0 <= i < |rows| ensures OnlyOwnBindings(rows[i], rows2[i], c) {
      OwnBindingsCompose(rows[i], rows1[i], rows2[i], c);
    }
    forall i | |rows| <= i < |rows2| ensures rows2[i].agent == c.agent && rows2[i].initial == c.message {
      if i < |rows1| && rows2[i] != rows1[i] {
        assert rows1[i].(route := None, mandate := None).agent == rows2[i].(route := None, mandate := None).agent;
        assert rows1[i].(route := None, mandate := None).initial == rows2[i].(route := None, mandate := None).initial;
      }
    }
  }

  lemma EnteringOnlyOwn(s: Tables, c: Call, replay: bool)
    requires WellFormed(c.message) && Enter(s, c, replay).Entered?
    ensures var entry := Enter(s, c, replay);
            RowsOnlyOwn(s, entry.tables, c) && MayBind(Rows(entry.tables, c.transport)[entry.at], c)
  {
  }

  lemma WorkOnlyOwn(s: Tables, c: Call, at: nat)
    requires at < |Rows(s, c.transport)| && MayBind(Rows(s, c.transport)[at], c)
    ensures RowsOnlyOwn(s, Work(s, c.transport, at, c.message, c.around).0, c)
  {
    WorkBinds(s, c.transport, at, c.message, c.around);
  }

  lemma AttemptOnlyOwn(s: Tables, c: Call, replay: bool, l: Locked)
    requires WellFormed(c.message)
    ensures RowsOnlyOwn(s, Proceed(s, c, replay).0, c)
    ensures Enter(s, c, replay).Entered? ==> RowsOnlyOwn(s, Enter(s, c, replay).tables, c)
  {
    if Enter(s, c, replay).Entered? {
      var entry := Enter(s, c, replay);
      EnteringOnlyOwn(s, c, replay);
      WorkOnlyOwn(entry.tables, c, entry.at);
      RowsCompose(s, entry.tables, Proceed(s, c, replay).0, c);
    }
  }

  lemma {:induction false} LockedOnlyOwn(s: Tables, c: Call, replay: bool, ls: seq<Locked>)
    requires WellFormed(c.message)
    ensures RowsOnlyOwn(s, AfterLocked(s, c, replay, ls), c)
  {
    if ls != [] {
      var before, l := AfterLocked(s, c, replay, ls[..|ls| - 1]), ls[|ls| - 1];
      LockedOnlyOwn(s, c, replay, ls[..|ls| - 1]);
      AttemptOnlyOwn(before, c.(around := l.around), replay, l);
      assert RowsOnlyOwn(before, Interrupted(before, c, replay, l), c);
      RowsCompose(s, before, Interrupted(before, c, replay, l), c);
    }
  }

  /**
   * Through any number of locked attempts, a routing call binds a mandate only to a task whose route it names or whose
   * first message it is, and only the mandate it carries; it leaves every other task, and the other transport, as they
   * are, and new rows are tasks of its own.
   */
  lemma CallsBindOnlyTheirOwn(s: Tables, c: Call, ls: seq<Locked>)
    ensures RowsOnlyOwn(s, Send(s, c, ls).0, c)
  {
    if WellFormed(c.message) && ClaimStep(s, c.agent, c.message).Some? {
      var claimed, replay := ClaimStep(s, c.agent, c.message).value, (c.agent, c.message.id) in s.claims;
      var tries := if |ls| > RETRIES then ls[..RETRIES + 1] else ls;
      LockedOnlyOwn(claimed, c, replay, tries);
      AttemptOnlyOwn(AfterLocked(claimed, c, replay, tries), c, replay, Locked(c.around, BeforeAll));
      RowsCompose(claimed, AfterLocked(claimed, c, replay, tries),
                  Proceed(AfterLocked(claimed, c, replay, tries), c, replay).0, c);
    }
  }
}
