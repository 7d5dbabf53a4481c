/** What holds of claims, bindings and task counts over whole runs, however the steps of concurrent calls interleave. */
module RouteTaskRuns {
  import opened Options
  import opened RouteTasks

  /** One atomic step of some call; at is the row a step updates by its id. */
  datatype Step =
    | DoClaim(agent: AgentId, message: Message)
    | DoCreate(transport: Transport, agent: AgentId, message: Message, id: TaskId, context: Context)
    | DoRoute(transport: Transport, at: nat, route: RouteId)
    | DoMandate(transport: Transport, at: nat, mandate: MandateId)
    | DoPurge(now: int)
    | DoSave(agent: AgentId, message: Message, id: TaskId, now: int)

  /** A call got past its claim with exactly this request. */
  predicate Holds(s: Tables, a: AgentId, m: Message) { (a, m.id) in s.claims && s.claims[(a, m.id)] == m }

  /** A call goes on to write tasks only after its claim succeeded. */
  predicate Enabled(s: Tables, p: Step) {
    match p
    case DoClaim(a, m) => ClaimStep(s, a, m).Some?
    case DoCreate(tr, a, m, id, ctx) => Holds(s, a, m) && CreateStep(s, tr, a, m, id, ctx).Created?
    case DoRoute(tr, at, r) => at < |Rows(s, tr)| && RouteStep(s, tr, at, r).Some?
    case DoMandate(tr, at, d) => at < |Rows(s, tr)| && MandateStep(s, tr, at, d).Some?
    case DoPurge(_) => true
    case DoSave(a, m, _, _) => Holds(s, a, m)
  }

  function Apply(s: Tables, p: Step): Tables {
    if !Enabled(s, p) then s
    else
      match p
      case DoClaim(a, m) => ClaimStep(s, a, m).value
      case DoCreate(tr, a, m, id, ctx) => CreateStep(s, tr, a, m, id, ctx).tables
      case DoRoute(tr, at, r) => RouteStep(s, tr, at, r).value
      case DoMandate(tr, at, d) => MandateStep(s, tr, at, d).value
      case DoPurge(now) => Purge(s, now)
      case DoSave(a, m, id, now) => SaveRead(s, a, m, id, now)
  }

  function ApplyAll(s: Tables, ps: seq<Step>): Tables
    decreases |ps|
  {
    if ps == [] then s else ApplyAll(Apply(s, ps[0]), ps[1..])
  }

  // ---- the invariant ----

  /** First messages are unique per agent, each was claimed with its own request, and no agent holds too many tasks. */
  ghost predicate RowsSound(claims: map<(AgentId, MessageId), Message>, rows: seq<Task>) {
    && (forall i, j | 0 <= i < j < |rows| ::
        !(rows[i].agent == rows[j].agent && rows[i].initial.id == rows[j].initial.id))
    && (forall i | 0 <= i < |rows| ::
        (rows[i].agent, rows[i].initial.id) in claims && claims[(rows[i].agent, rows[i].initial.id)] == rows[i].initial)
    && (forall a :: |OfAgent(rows, a)| <= MAX_TASKS)
  }

  /** A finished read task never contradicts the claim of its message; rows from before the claims have none yet. */
  ghost predicate ReadsSound(s: Tables) {
    && (forall k | k in s.finished :: s.finished[k].message.id == k.1)
    && (forall k | k in s.finished && k in s.claims :: s.finished[k].message == s.claims[k])
  }

  ghost predicate Inv(s: Tables) {
    RowsSound(s.claims, s.a2a) && RowsSound(s.claims, s.mcp) && ReadsSound(s) && forall k | k in s.claims ::
        s.claims[k].id == k.1
  }

  /** A row keeps all it says, except that an unset route or mandate may be set. */
  predicate TaskKept(t: Task, u: Task) {
    && u.(route := None, mandate := None) == t.(route := None, mandate := None)
    && (t.route.Some? ==> u.route == t.route)
    && (t.mandate.Some? ==> u.mandate == t.mandate)
  }

  ghost predicate RowsKept(rows: seq<Task>, rows': seq<Task>) {
    |rows| <= |rows'| && forall i | 0 <= i < |rows| :: TaskKept(rows[i], rows'[i])
  }

  ghost predicate Kept(s: Tables, s': Tables) {
    && (forall k | k in s.claims :: k in s'.claims && s'.claims[k] == s.claims[k])
    && RowsKept(s.a2a, s'.a2a) && RowsKept(s.mcp, s'.mcp)
  }

  lemma StepKeepsRows(s: Tables, p: Step)
    ensures Kept(s, Apply(s, p))
  {
    if Enabled(s, p) {
      match p
      case DoRoute(tr, at, r) => OneRowIsKept(s, tr, at, Rows(s, tr)[at].(route := Some(r)));
      case DoMandate(tr, at, d) => OneRowIsKept(s, tr, at, Rows(s, tr)[at].(mandate := Some(d)));
      case _ =>
    }
  }

  lemma OneRowIsKept(s: Tables, tr: Transport, at: nat, t: Task)
    requires at < |Rows(s, tr)| && TaskKept(Rows(s, tr)[at], t)
    ensures Kept(s, WithRows(s, tr, Rows(s, tr)[at := t]))
  {
  }

  lemma {:induction false} UpdateKeepsOwners(rows: seq<Task>, at: nat, t: Task, a: AgentId)
    requires at < |rows| && t.agent == rows[at].agent
    ensures |OfAgent(rows[at := t], a)| == |OfAgent(rows, a)|
  {
    var last := |rows| - 1;
    if at < last {
      assert rows[at := t][..last] == rows[..last][at := t];
      UpdateKeepsOwners(rows[..last], at, t, a);
    } else {
      assert rows[at := t][..last] == rows[..last];
    }
  }

  lemma UpdateKeepsSound(claims: map<(AgentId, MessageId), Message>, rows: seq<Task>, at: nat, t: Task)
    requires RowsSound(claims, rows) && at < |rows| && TaskKept(rows[at], t)
    ensures RowsSound(claims, rows[at := t])
  {
    var rows' := rows[at := t];
    assert rows[at].(route := None, mandate := None).agent == t.agent
        && rows[at].(route := None, mandate := None).initial == t.initial;
    forall i | 0 <= i < |rows| ensures rows'[i].agent == rows[i].agent && rows'[i].initial == rows[i].initial {}
    forall a ensures |OfAgent(rows', a)| <= MAX_TASKS { UpdateKeepsOwners(rows, at, t, a); }
  }

  lemma CreateKeepsSound(s: Tables, tr: Transport, a: AgentId, m: Message, id: TaskId, context: Context)
    requires RowsSound(s.claims, Rows(s, tr)) && Holds(s, a, m) && CreateStep(s, tr, a, m, id, context).Created?
    ensures RowsSound(s.claims, Rows(CreateStep(s, tr, a, m, id, context).tables, tr))
  {
    var rows := Rows(s, tr);
    if IndexByMessage(rows, a, m.id).None? {
      var rows' := rows + [NewTask(a, m, id, context)];
      assert rows'[..|rows'| - 1] == rows;
      forall b ensures |OfAgent(rows', b)| <= MAX_TASKS { assert |OfAgent(rows, b)| <= MAX_TASKS; }
    }
  }

  lemma StepKeepsInv(s: Tables, p: Step)
    requires Inv(s)
    ensures Inv(Apply(s, p))
  {
    if Enabled(s, p) {
      match p
      case DoCreate(tr, a, m, id, ctx) => CreateKeepsSound(s, tr, a, m, id, ctx);
      case DoRoute(tr, at, r) => UpdateKeepsSound(s.claims, Rows(s, tr), at, Rows(s, tr)[at].(route := Some(r)));
      case DoMandate(tr, at, d) => UpdateKeepsSound(s.claims, Rows(s, tr), at, Rows(s, tr)[at].(mandate := Some(d)));
      case _ =>
    }
  }

  // ---- runs ----

  ghost predicate Run(ss: seq<Tables>, ps: seq<Step>) {
    && |ss| == |ps| + 1
    && Inv(ss[0])
    && forall k | 0 <= k < |ps| :: ss[k + 1] == Apply(ss[k], ps[k])
  }

  lemma {:induction false} ReachableInv(ss: seq<Tables>, ps: seq<Step>, k: nat)
    requires Run(ss, ps) && k <= |ps|
    ensures Inv(ss[k])
  {
    if k > 0 {
      ReachableInv(ss, ps, k - 1);
      StepKeepsInv(ss[k - 1], ps[k - 1]);
    }
  }

  /** Once written, a claim, a task, its route and its mandate never change and never go away. */
  lemma {:induction false} BindingsAreWrittenOnce(ss: seq<Tables>, ps: seq<Step>, i: nat, j: nat)
    requires Run(ss, ps) && i <= j <= |ps|
    ensures Kept(ss[i], ss[j])
    decreases j - i
  {
    if i < j {
      StepKeepsRows(ss[i], ps[i]);
      BindingsAreWrittenOnce(ss, ps, i + 1, j);
    }
  }

  /**
   * After a message was claimed, every later claim of its id succeeds exactly for the same request, and every task of
   * either transport and every finished read task under it carries that request.
   */
  lemma OneRequestPerMessage(ss: seq<Tables>, ps: seq<Step>, i: nat, j: nat, a: AgentId, m: Message, n: Message,
      tr: Transport)
    requires Run(ss, ps) && i < j <= |ps| && n.id == m.id
    requires ps[i] == DoClaim(a, m) && Enabled(ss[i], ps[i])
    ensures ClaimStep(ss[j], a, n).Some? <==> n == m
    ensures (a, m.id) in ss[j].finished ==> ss[j].finished[(a, m.id)].message == m
    ensures forall t | t in Rows(ss[j], tr) && t.agent == a && t.initial.id == m.id :: t.initial == m
  {
    assert Holds(ss[i + 1], a, m);
    BindingsAreWrittenOnce(ss, ps, i + 1, j);
    ReachableInv(ss, ps, j);
  }

  /** A first message has at most one task, and every later creation for it finds that very row. */
  lemma OneTaskPerMessage(ss: seq<Tables>, ps: seq<Step>, i: nat, j: nat, tr: Transport, at: nat, id: TaskId,
      context: Context)
    requires Run(ss, ps) && i <= j <= |ps| && at < |Rows(ss[i], tr)|
    ensures var t := Rows(ss[i], tr)[at];
            at < |Rows(ss[j], tr)| && CreateStep(ss[j], tr, t.agent, t.initial, id, context) == Created(ss[j], at)
  {
    BindingsAreWrittenOnce(ss, ps, i, j);
    ReachableInv(ss, ps, j);
    var t, u := Rows(ss[i], tr)[at], Rows(ss[j], tr)[at];
    assert TaskKept(t, u);
    assert t.(route := None, mandate := None).agent == u.agent
        && t.(route := None, mandate := None).initial == u.initial;
    var found := IndexByMessage(Rows(ss[j], tr), u.agent, u.initial.id);
    assert found.Some? && found.value == at;
  }

  /** In every reachable state the list read of at most 101 rows holds all of an agent's tasks. */
  lemma ListsAreComplete(ss: seq<Tables>, ps: seq<Step>, k: nat, tr: Transport, a: AgentId)
    requires Run(ss, ps) && k <= |ps|
    ensures |OfAgent(Rows(ss[k], tr), a)| <= MAX_TASKS
    ensures forall t | t in Rows(ss[k], tr) && t.agent == a :: t in OfAgent(Rows(ss[k], tr), a)
  {
    ReachableInv(ss, ps, k);
  }

  /** Empty tables are a sound start. */
  lemma EmptyTablesAreSound()
    ensures Inv(Tables(map[], map[], [], []))
  {
  }

  // ---- calls are made of steps ----

  lemma {:induction false} ApplyAllAppends(s: Tables, ps: seq<Step>, qs: seq<Step>)
    ensures ApplyAll(s, ps + qs) == ApplyAll(ApplyAll(s, ps), qs)
    decreases |ps|
  {
    if ps == [] {
      assert [] + qs == qs;
    } else {
      assert (ps + qs)[1..] == ps[1..] + qs;
      ApplyAllAppends(Apply(s, ps[0]), ps[1..], qs);
    }
  }

  lemma OneStep(s: Tables, p: Step)
    ensures ApplyAll(s, [p]) == Apply(s, p)
  {
    assert [p][1..] == [];
  }

  lemma WorkIsSteps(s: Tables, tr: Transport, at: nat, m: Message, e: Surroundings) returns (ps: seq<Step>)
    requires at < |Rows(s, tr)|
    ensures Work(s, tr, at, m, e).0 == ApplyAll(s, ps)
  {
    ps := [];
    if m.data.Plan? && Rows(s, tr)[at].route.None? && e.planned.Some? {
      ps := [DoRoute(tr, at, e.planned.value)];
      OneStep(s, ps[0]);
    } else if m.data.Continue? && e.planStored && e.mandateValid {
      ps := [DoMandate(tr, at, m.data.mandate)];
      OneStep(s, ps[0]);
    }
  }

  lemma EnterIsSteps(s: Tables, c: Call, replay: bool) returns (ps: seq<Step>)
    requires Holds(s, c.agent, c.message)
    ensures Enter(s, c, replay).Entered? ==> Enter(s, c, replay).tables == ApplyAll(s, ps)
  {
    var p := DoCreate(c.transport, c.agent, c.message, c.around.newId, c.around.newContext);
    OneStep(s, p);
    ps := if Enter(s, c, replay).Entered? && Enter(s, c, replay).tables != s then [p] else [];
  }

  lemma ProceedIsSteps(s: Tables, c: Call, replay: bool) returns (ps: seq<Step>)
    requires Holds(s, c.agent, c.message)
    ensures Proceed(s, c, replay).0 == ApplyAll(s, ps)
  {
    ps := [];
    if Enter(s, c, replay).Entered? {
      var entry := Enter(s, c, replay);
      var first := EnterIsSteps(s, c, replay);
      var more := WorkIsSteps(entry.tables, c.transport, entry.at, c.message, c.around);
      ApplyAllAppends(s, first, more);
      ps := first + more;
    }
  }

  lemma InterruptedIsSteps(s: Tables, c: Call, replay: bool, l: Locked) returns (ps: seq<Step>)
    requires Holds(s, c.agent, c.message)
    ensures Interrupted(s, c, replay, l) == ApplyAll(s, ps)
  {
    var tried := c.(around := l.around);
    ps := [];
    match l.stop
    case BeforeAll =>
    case AfterEntering => if Enter(s, tried, replay).Entered? { ps := EnterIsSteps(s, tried, replay); }
    case AfterBinding => ps := ProceedIsSteps(s, tried, replay);
  }

  lemma {:induction false} HoldsLasts(s: Tables, ps: seq<Step>, a: AgentId, m: Message)
    requires Holds(s, a, m)
    ensures Holds(ApplyAll(s, ps), a, m)
    decreases |ps|
  {
    if ps != [] {
      StepKeepsRows(s, ps[0]);
      HoldsLasts(Apply(s, ps[0]), ps[1..], a, m);
    }
  }

  lemma {:induction false} LockedIsSteps(s: Tables, c: Call, replay: bool, ls: seq<Locked>) returns (ps: seq<Step>)
    requires Holds(s, c.agent, c.message)
    ensures AfterLocked(s, c, replay, ls) == ApplyAll(s, ps)
  {
    ps := [];
    if ls != [] {
      var last := |ls| - 1;
      var first := LockedIsSteps(s, c, replay, ls[..last]);
      HoldsLasts(s, first, c.agent, c.message);
      var more := InterruptedIsSteps(ApplyAll(s, first), c, replay, ls[last]);
      ApplyAllAppends(s, first, more);
      ps := first + more;
    }
  }

  /**
   * A routing call, with all its locked attempts, does to the tables what some sequence of atomic steps does, so all of
   * the above holds after it.
   */
  lemma SendIsSteps(s: Tables, c: Call, ls: seq<Locked>) returns (ps: seq<Step>)
    ensures Send(s, c, ls).0 == ApplyAll(s, ps)
  {
    var p, replay := DoClaim(c.agent, c.message), (c.agent, c.message.id) in s.claims;
    OneStep(s, p);
    ps := [];
    if WellFormed(c.message) && ClaimStep(s, c.agent, c.message).Some? {
      var tries := if |ls| > RETRIES then ls[..RETRIES + 1] else ls;
      var more := LockedIsSteps(Apply(s, p), c, replay, tries);
      HoldsLasts(Apply(s, p), more, c.agent, c.message);
      var rest: seq<Step> := [];
      if |ls| <= RETRIES { rest := ProceedIsSteps(ApplyAll(Apply(s, p), more), c, replay); }
      ApplyAllAppends(Apply(s, p), more, rest);
      ApplyAllAppends(s, [p], more + rest);
      ps := [p] + (more + rest);
    }
  }

  /** So does a read skill. */
  lemma ReadIsSteps(s: Tables, a: AgentId, m: Message, id: TaskId, now: int, available: bool) returns (ps: seq<Step>)
    ensures Read(s, a, m, id, now, available).0 == ApplyAll(s, ps)
  {
    var p, q, r := DoClaim(a, m), DoPurge(now), DoSave(a, m, id, now);
    OneStep(s, p);
    if !m.data.ReadSkill? || m.taskId.Some? || ClaimStep(s, a, m).None? {
      ps := [];
    } else if Read(s, a, m, id, now, available).0 == Apply(s, p) {
      ps := [p];
    } else {
      OneStep(Apply(s, p), q);
      OneStep(Apply(Apply(s, p), q), r);
      ApplyAllAppends(s, [p], [q]);
      ApplyAllAppends(s, [p] + [q], [r]);
      ps := [p] + [q] + [r];
    }
  }

  lemma {:induction false} StepsKeepInv(s: Tables, ps: seq<Step>)
    requires Inv(s)
    ensures Inv(ApplyAll(s, ps)) && Kept(s, ApplyAll(s, ps))
    decreases |ps|
  {
    if ps != [] {
      StepKeepsInv(s, ps[0]);
      StepKeepsRows(s, ps[0]);
      StepsKeepInv(Apply(s, ps[0]), ps[1..]);
    }
  }

  /** A first message that has its task, and no row beyond the given number. */
  predicate Settled(s: Tables, c: Call, at: nat, size: nat) {
    IndexByMessage(Rows(s, c.transport), c.agent, c.message.id) == Some(at) && |Rows(s, c.transport)| == size
  }

  lemma KeptRowsAreFound(claims: map<(AgentId, MessageId), Message>, rows: seq<Task>, rows': seq<Task>, a: AgentId,
      id: MessageId, at: nat)
    requires RowsSound(claims, rows') && RowsKept(rows, rows') && IndexByMessage(rows, a, id) == Some(at)
    ensures IndexByMessage(rows', a, id) == Some(at)
  {
    var t, u := rows[at], rows'[at];
    assert TaskKept(t, u);
    assert t.(route := None, mandate := None).agent == u.agent
        && t.(route := None, mandate := None).initial == u.initial;
  }

  lemma StepsKeepTheTask(s: Tables, ps: seq<Step>, c: Call, at: nat)
    requires Inv(s) && IndexByMessage(Rows(s, c.transport), c.agent, c.message.id) == Some(at)
    ensures IndexByMessage(Rows(ApplyAll(s, ps), c.transport), c.agent, c.message.id) == Some(at)
  {
    StepsKeepInv(s, ps);
    var s' := ApplyAll(s, ps);
    KeptRowsAreFound(s'.claims, Rows(s, c.transport), Rows(s', c.transport), c.agent, c.message.id, at);
  }

  lemma AttemptsAddNoRow(s: Tables, c: Call, at: nat, size: nat, replay: bool, l: Locked)
    requires c.message.taskId.None? && Settled(s, c, at, size)
    ensures |Rows(Interrupted(s, c, replay, l), c.transport)| == size
    ensures |Rows(Proceed(s, c, replay).0, c.transport)| == size
  {
  }

  lemma {:induction false} LockedKeepsSettled(s: Tables, c: Call, at: nat, size: nat, replay: bool, ls: seq<Locked>)
    requires Inv(s) && Holds(s, c.agent, c.message) && c.message.taskId.None? && Settled(s, c, at, size)
    ensures Settled(AfterLocked(s, c, replay, ls), c, at, size)
  {
    if ls != [] {
      var last := |ls| - 1;
      LockedKeepsSettled(s, c, at, size, replay, ls[..last]);
      AttemptsAddNoRow(AfterLocked(s, c, replay, ls[..last]), c, at, size, replay, ls[last]);
      var ps := LockedIsSteps(s, c, replay, ls);
      StepsKeepTheTask(s, ps, c, at);
    }
  }

  /**
   * Sending a first message again, however often its attempts meet a locked database, never makes a second task and
   * never moves a binding.
   */
  lemma RepeatedCallsKeepTheirTask(s: Tables, c: Call, ls: seq<Locked>, at: nat)
    requires Inv(s) && WellFormed(c.message) && c.message.taskId.None?
    requires IndexByMessage(Rows(s, c.transport), c.agent, c.message.id) == Some(at)
    ensures |Rows(Send(s, c, ls).0, c.transport)| == |Rows(s, c.transport)|
    ensures TaskKept(Rows(s, c.transport)[at], Rows(Send(s, c, ls).0, c.transport)[at])
  {
    var ps := SendIsSteps(s, c, ls);
    StepsKeepInv(s, ps);
    var p, replay, size := DoClaim(c.agent, c.message), (c.agent, c.message.id) in s.claims, |Rows(s, c.transport)|;
    if ClaimStep(s, c.agent, c.message).Some? {
      StepKeepsInv(s, p);
      var tries := if |ls| > RETRIES then ls[..RETRIES + 1] else ls;
      LockedKeepsSettled(Apply(s, p), c, at, size, replay, tries);
      AttemptsAddNoRow(AfterLocked(Apply(s, p), c, replay, tries), c, at, size, replay,
                       Locked(c.around, BeforeAll));
    }
  }

  /** A claimed id refuses every other request, under a read skill as under a routing one, and nothing is written. */
  lemma ClaimedIdsRefuseOthers(s: Tables, a: AgentId, m: Message, c: Call, ls: seq<Locked>, id: TaskId, now: int,
      available: bool)
    requires Inv(s) && Holds(s, a, m) && c.agent == a && c.message.id == m.id && c.message != m
    ensures Send(s, c, ls) == (s, Refused(if WellFormed(c.message) then MessageConflict else InvalidMessage))
    ensures var n := c.message;
            Read(s, a, n, id, now, available) == (s, Refused(if n.data.ReadSkill? && n.taskId.None? then MessageConflict
                else InvalidMessage))
  {
    assert ClaimStep(s, a, c.message).None?;
  }

  // ---- exactly when an id is bound ----

  /** In every continuation, whatever steps it takes, this id is claimed for this request or not at all. */
  ghost predicate BoundForGood(s: Tables, a: AgentId, m: Message) {
    forall ps, n: Message | n.id == m.id && ClaimStep(ApplyAll(s, ps), a, n).Some? :: n == m
  }

  /** A different request under the same id. */
  function Variant(m: Message): Message { m.(metadata := m.metadata + 1) }

  /** A retained read task without a claim: once it is purged, its id is free for another request. */
  lemma UnclaimedReadsAreForgotten(s: Tables, a: AgentId, m: Message)
    requires (a, m.id) in s.finished && (a, m.id) !in s.claims
    ensures var later := ApplyAll(s, [DoPurge(s.finished[(a, m.id)].createdAt + RETENTION_SECONDS + 1)]);
            ClaimStep(later, a, m).Some? && ClaimStep(later, a, Variant(m)).Some?
  {
    OneStep(s, DoPurge(s.finished[(a, m.id)].createdAt + RETENTION_SECONDS + 1));
  }

  /**
   * An id is bound for good to a request exactly when it has been claimed for it; a finished read task alone does not
   * bind it.
   */
  lemma BoundForGoodIffClaimed(s: Tables, a: AgentId, m: Message)
    requires Inv(s)
    ensures BoundForGood(s, a, m) <==> Holds(s, a, m)
  {
    var k := (a, m.id);
    if Holds(s, a, m) {
      forall ps, n: Message | n.id == m.id && ClaimStep(ApplyAll(s, ps), a, n).Some? ensures n == m {
        StepsKeepInv(s, ps);
      }
    } else if k in s.claims {
      assert ApplyAll(s, []) == s;
      assert s.claims[k].id == m.id && ClaimStep(ApplyAll(s, []), a, s.claims[k]).Some?;
    } else if k in s.finished {
      UnclaimedReadsAreForgotten(s, a, m);
    } else {
      assert ApplyAll(s, []) == s && Variant(m).id == m.id;
      assert ClaimStep(ApplyAll(s, []), a, Variant(m)).Some?;
    }
  }

  /** The request of a route task is bound for good as well, for a task is created only under its claim. */
  lemma TasksBindTheirIds(s: Tables, tr: Transport, at: nat)
    requires Inv(s) && at < |Rows(s, tr)|
    ensures BoundForGood(s, Rows(s, tr)[at].agent, Rows(s, tr)[at].initial)
  {
    BoundForGoodIffClaimed(s, Rows(s, tr)[at].agent, Rows(s, tr)[at].initial);
  }

  /** The request of every finished read task has been claimed. */
  ghost predicate ReadsClaimed(s: Tables) {
    forall k | k in s.finished :: Holds(s, k.0, s.finished[k].message) && s.finished[k].message.id == k.1
  }

  /** A read task is saved only under its claim, so no step brings an unclaimed one into being. */
  lemma StepKeepsReadsClaimed(s: Tables, p: Step)
    requires Inv(s) && ReadsClaimed(s)
    ensures ReadsClaimed(Apply(s, p))
  {
    StepKeepsRows(s, p);
    StepKeepsInv(s, p);
  }

  lemma {:induction false} StepsKeepReadsClaimed(s: Tables, ps: seq<Step>)
    requires Inv(s) && ReadsClaimed(s)
    ensures Inv(ApplyAll(s, ps)) && ReadsClaimed(ApplyAll(s, ps))
    decreases |ps|
  {
    if ps != [] {
      StepKeepsInv(s, ps[0]);
      StepKeepsReadsClaimed(s, ps[0]);
      StepsKeepReadsClaimed(Apply(s, ps[0]), ps[1..]);
    }
  }

  /**
   * Tables that started empty hold no unclaimed read task, so there every id with a finished task, read or routed, is
   * bound for good.
   */
  lemma FromEmptyEveryIdIsBound(ps: seq<Step>)
    ensures var s := ApplyAll(Tables(map[], map[], [], []), ps);
            && (forall k | k in s.finished :: BoundForGood(s, k.0, s.finished[k].message))
            && (forall tr, at | 0 <= at < |Rows(s, tr)| ::
                BoundForGood(s, Rows(s, tr)[at].agent, Rows(s, tr)[at].initial))
  {
    EmptyTablesAreSound();
    StepsKeepReadsClaimed(Tables(map[], map[], [], []), ps);
    var s := ApplyAll(Tables(map[], map[], [], []), ps);
    forall k | k in s.finished ensures BoundForGood(s, k.0, s.finished[k].message) {
      BoundForGoodIffClaimed(s, k.0, s.finished[k].message);
    }
    forall tr, at | 0 <= at < |Rows(s, tr)| ensures BoundForGood(s, Rows(s, tr)[at].agent, Rows(s, tr)[at].initial) {
      TasksBindTheirIds(s, tr, at);
    }
  }

  /** A read task older than the claims themselves, its purge, and another request claimed under its id. */
  lemma AnOldIdIsRebound()
    ensures var m := Message(0, None, None, ReadSkill(0), 0);
            var s := Tables(map[], map[(0, 0) := ReadTask(0, m, 0)], [], []);
            && Inv(s) && !BoundForGood(s, 0, m)
            && Holds(ApplyAll(s, [DoPurge(RETENTION_SECONDS + 1), DoClaim(0, Variant(m))]), 0, Variant(m))
  {
    var m := Message(0, None, None, ReadSkill(0), 0);
    var s := Tables(map[], map[(0, 0) := ReadTask(0, m, 0)], [], []);
    var purge, claim := DoPurge(RETENTION_SECONDS + 1), DoClaim(0, Variant(m));
    BoundForGoodIffClaimed(s, 0, m);
    UnclaimedReadsAreForgotten(s, 0, m);
    ApplyAllAppends(s, [purge], [claim]);
    OneStep(s, purge);
    OneStep(Apply(s, purge), claim);
    assert [purge] + [claim] == [purge, claim];
  }
}
