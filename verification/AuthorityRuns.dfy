/** What holds of an agent's keys, owner and transfers over whole runs. */
module AuthorityRuns {
  import opened Options
  import opened AgentAuthority

  /**
   * A request, or a change made elsewhere: an agent registered with a generated key, or its status switched by
   * moderation.
   */
  datatype Event =
    | Handle(request: Request) | Register(agent: AgentId, newKey: Key) | SetStatus(agent: AgentId, active: bool)

  datatype Moment = Moment(event: Event, now: nat)

  function Apply(s: Tables, m: Moment): Tables {
    match m.event
    case Handle(r) => After(s, r, m.now)
    case Register(a, k) =>
      if a in s.agents then s
      else s.(agents := s.agents[a := Agent(true, None, k, None, None, None)], issued := s.issued + {k})
    case SetStatus(a, active) =>
      if a in s.agents && s.agents[a].archivedAt.None? then
        s.(agents := s.agents[a := s.agents[a].(active := active)])
      else s
  }

  /** The key generated for this event, if it generates one. */
  function Generated(e: Event): Option<Key> {
    match e
    case Register(_, k) => Some(k)
    case Handle(r) =>
      (match r
       case Recover(_, _, k) => Some(k)
       case Rotate(_, _, k, _) => Some(k)
       case CreateNamed(_, _, _, k, _) => Some(k)
       case Accept(_, _, _, _, _, k) => Some(k)
       case _ => None)
    case _ => None
  }

  ghost predicate FreshKey(s: Tables, m: Moment) {
    Generated(m.event).Some? ==> Generated(m.event).value !in s.issued
  }

  ghost predicate Inv(s: Tables) {
    // every stored key was issued
    && (forall a | a in s.agents ::
        s.agents[a].key in s.issued && (s.agents[a].previous.Some? ==> s.agents[a].previous.value in s.issued))
    && (forall c | c in s.named :: s.named[c].key in s.issued && s.named[c].agent in s.agents)
    // only archiving revokes the primary key
    && (forall a | a in s.agents :: s.agents[a].revokedAt.Some? ==> s.agents[a].archivedAt.Some?)
    && TransfersSound(s)
  }

  /** An agent has at most one open transfer, and no transfer is both accepted and cancelled. */
  ghost predicate TransfersSound(s: Tables) {
    && (forall t, u | t in s.transfers && u in s.transfers && t != u && s.transfers[t].agent == s.transfers[u].agent ::
          !Open(s.transfers[t]) || !Open(s.transfers[u]))
    && (forall t | t in s.transfers :: s.transfers[t].acceptedAt.None? || s.transfers[t].cancelledAt.None?)
  }

  // ---- one step ----

  /** What one step may do to an agent row. */
  ghost predicate AgentMoves(g: Agent, h: Agent, m: Moment) {
    || h == g
    || h == g.(active := h.active)
    || h == g.(previous := None, previousExpires := None)
    || (g.archivedAt.None? && Generated(m.event).Some? && h == OnlyKey(g, Generated(m.event).value))
    || (g.archivedAt.None? && Generated(m.event) == Some(h.key)
        && h == g.(key := h.key, previous := Some(g.key), previousExpires := h.previousExpires))
    || (g.archivedAt.None? && h.archivedAt.Some?
        && h == g.(active := false, archivedAt := h.archivedAt, revokedAt := h.revokedAt, previous := None,
        previousExpires := None))
  }

  ghost predicate TransferMoves(t: Transfer, v: Transfer, m: Moment) {
    || v == t
    || (Open(t) && v == t.(cancelledAt := Some(m.now)))
    || (Open(t) && v == t.(acceptedAt := Some(m.now), acceptedBy := v.acceptedBy))
  }

  /** Everything a step may do, row by row. */
  ghost predicate RowWise(s: Tables, m: Moment, s': Tables) {
    && s.issued <= s'.issued
    && (forall a | a in s.agents ::
        a in s'.agents && AgentMoves(s.agents[a], s'.agents[a], m)
        && (s'.agents[a].key != s.agents[a].key ==> s'.agents[a].key in s'.issued))
    && (forall a | a in s'.agents && a !in s.agents ::
          Generated(m.event) == Some(s'.agents[a].key) && s'.agents[a].key in s'.issued
              && s'.agents[a] == Agent(true, None, s'.agents[a].key, None, None, None))
    && (forall c | c in s.named ::
        c in s'.named && (s'.named[c] == s.named[c] || s'.named[c] == s.named[c].(revokedAt := Some(m.now))))
    && (forall c | c in s'.named && c !in s.named ::
          Generated(m.event) == Some(s'.named[c].key) && s'.named[c].key in s'.issued && s'.named[c].agent in s.agents)
    && (forall t | t in s.transfers :: t in s'.transfers && TransferMoves(s.transfers[t], s'.transfers[t], m))
    && (forall t | t in s'.transfers && t !in s.transfers ::
          && s'.transfers[t].acceptedAt.None? && s'.transfers[t].cancelledAt.None?
          && forall u | u in s'.transfers && u != t && s'.transfers[u].agent == s'.transfers[t].agent ::
              !Open(s'.transfers[u]))
  }

  lemma AcceptIsRowWise(s: Tables, r: Request, now: nat)
    requires r.Accept?
    ensures RowWise(s, Moment(Handle(r), now), After(s, r, now))
  {
  }

  lemma CreateTransferIsRowWise(s: Tables, r: Request, now: nat)
    requires r.CreateTransfer?
    ensures RowWise(s, Moment(Handle(r), now), After(s, r, now))
  {
  }

  lemma KeyRequestsAreRowWise(s: Tables, r: Request, now: nat)
    requires r.Recover? || r.Rotate? || r.RevokePrevious?
    ensures RowWise(s, Moment(Handle(r), now), After(s, r, now))
  {
  }

  lemma CreateNamedIsRowWise(s: Tables, r: Request, now: nat)
    requires r.CreateNamed?
    ensures RowWise(s, Moment(Handle(r), now), After(s, r, now))
  {
  }

  lemma RevokeNamedIsRowWise(s: Tables, r: Request, now: nat)
    requires r.RevokeNamed?
    ensures RowWise(s, Moment(Handle(r), now), After(s, r, now))
  {
  }

  lemma RequestsAreRowWise(s: Tables, r: Request, now: nat)
    ensures RowWise(s, Moment(Handle(r), now), After(s, r, now))
  {
    match r
    case Link(_, _) =>
    case Recover(_, _, _) => KeyRequestsAreRowWise(s, r, now);
    case Rotate(_, _, _, _) => KeyRequestsAreRowWise(s, r, now);
    case RevokePrevious(_, _, _) => KeyRequestsAreRowWise(s, r, now);
    case CreateNamed(_, _, _, _, _) => CreateNamedIsRowWise(s, r, now);
    case RevokeNamed(_, _, _) => RevokeNamedIsRowWise(s, r, now);
    case CreateTransfer(_, _, _, _, _) => CreateTransferIsRowWise(s, r, now);
    case Accept(_, _, _, _, _, _) => AcceptIsRowWise(s, r, now);
    case Cancel(_, _, _) =>
    case Archive(_, _) =>
  }

  lemma StepsAreRowWise(s: Tables, m: Moment)
    ensures RowWise(s, m, Apply(s, m))
  {
    match m.event
    case Handle(r) => RequestsAreRowWise(s, r, m.now);
    case Register(_, _) => RegistrationIsRowWise(s, m);
    case SetStatus(_, _) => StatusIsRowWise(s, m);
  }

  lemma RegistrationIsRowWise(s: Tables, m: Moment)
    requires m.event.Register?
    ensures RowWise(s, m, Apply(s, m))
  {
  }

  lemma StatusIsRowWise(s: Tables, m: Moment)
    requires m.event.SetStatus?
    ensures RowWise(s, m, Apply(s, m))
  {
  }

  lemma RowWiseKeepsInv(s: Tables, m: Moment, s': Tables)
    requires Inv(s) && RowWise(s, m, s')
    ensures Inv(s')
  {
    RowWiseKeepsTransfers(s, m, s');
  }

  lemma RowWiseKeepsTransfers(s: Tables, m: Moment, s': Tables)
    requires TransfersSound(s) && RowWise(s, m, s')
    ensures TransfersSound(s')
  {
    forall t, u | t in s'.transfers && u in s'.transfers && t != u && s'.transfers[t].agent == s'.transfers[u].agent
      ensures !Open(s'.transfers[t]) || !Open(s'.transfers[u])
    {
      if t in s.transfers && u in s.transfers {
        assert TransferMoves(s.transfers[t], s'.transfers[t], m) && TransferMoves(s.transfers[u], s'.transfers[u], m);
      }
    }
  }

  lemma StepKeepsInv(s: Tables, m: Moment)
    requires Inv(s)
    ensures Inv(Apply(s, m)) && s.issued <= Apply(s, m).issued
  {
    StepsAreRowWise(s, m);
    RowWiseKeepsInv(s, m, Apply(s, m));
  }

  /** A step puts no key on file for an agent except those already there and the key it generates. */
  lemma RowWiseOnlyAddsItsOwnKey(s: Tables, m: Moment, s': Tables, a: AgentId, before: nat, k: Key)
    requires Inv(s) && RowWise(s, m, s') && before <= m.now && k in KeysOnFile(s', a, m.now)
    ensures k in KeysOnFile(s, a, before) || Generated(m.event) == Some(k)
  {
    if a in s.agents {
      assert AgentMoves(s.agents[a], s'.agents[a], m);
      if c :| c in ActiveNamedOf(s'.named, a, m.now) && s'.named[c].key == k {
        if c in s.named { assert c in ActiveNamedOf(s.named, a, before); }
      }
    } else {
      assert forall c | c in s'.named :: s'.named[c].agent != a;
    }
  }

  lemma StepOnlyAddsItsOwnKey(s: Tables, m: Moment, a: AgentId, before: nat)
    requires Inv(s) && before <= m.now
    ensures forall k | k in KeysOnFile(Apply(s, m), a, m.now) ::
        k in KeysOnFile(s, a, before) || Generated(m.event) == Some(k)
  {
    StepsAreRowWise(s, m);
    forall k | k in KeysOnFile(Apply(s, m), a, m.now)
        ensures k in KeysOnFile(s, a, before) || Generated(m.event) == Some(k) {
      RowWiseOnlyAddsItsOwnKey(s, m, Apply(s, m), a, before, k);
    }
  }

  /** A resolved transfer never changes again, and the terms of a transfer never change. */
  lemma StepKeepsResolved(s: Tables, m: Moment, t: TransferId)
    requires t in s.transfers
    ensures t in Apply(s, m).transfers && TransferMoves(s.transfers[t], Apply(s, m).transfers[t], m)
  {
    StepsAreRowWise(s, m);
  }

  /** Only an acceptance changes an owner, and it leaves no transfer of that agent open. */
  lemma OwnerChangesCloseTransfers(s: Tables, m: Moment, a: AgentId, t: TransferId)
    requires a in s.owners && t in s.transfers && s.transfers[t].agent == a
    ensures a in Apply(s, m).owners
    ensures Apply(s, m).owners[a] != s.owners[a] ==>
              && m.event.Handle? && m.event.request.Accept? && m.event.request.agent == a
              && t in Apply(s, m).transfers && !Open(Apply(s, m).transfers[t])
  {
  }

  lemma {:induction false} Subset(a: set<CredentialId>, b: set<CredentialId>)
    requires a <= b
    ensures |a| <= |b|
    decreases |b|
  {
    if x :| x in a { Subset(a - {x}, b - {x}); }
  }

  /** Named keys of one agent that are active at this time: at most ten, no two of the same name. */
  ghost predicate NamedSoundFor(s: Tables, a: AgentId, now: nat) {
    && |ActiveNamedOf(s.named, a, now)| <= MAX_ACTIVE_NAMED
    && forall c, d | c in ActiveNamedOf(s.named, a, now) && d in ActiveNamedOf(s.named, a, now) && c != d ::
        s.named[c].name != s.named[d].name
  }

  /** Time and revocation only shrink the active set. */
  lemma FewerStaysSound(s: Tables, s': Tables, a: AgentId, before: nat, now: nat)
    requires NamedSoundFor(s, a, before)
    requires forall c | c in ActiveNamedOf(s'.named, a, now) ::
        c in ActiveNamedOf(s.named, a, before) && s'.named[c].name == s.named[c].name
    ensures NamedSoundFor(s', a, now)
  {
    Subset(ActiveNamedOf(s'.named, a, now), ActiveNamedOf(s.named, a, before));
  }

  lemma CreationKeepsNamedSound(s: Tables, s': Tables, a: AgentId, id: CredentialId, row: Named, before: nat, now: nat)
    requires NamedSoundFor(s, a, before) && before <= now && NamedAllowed(s, a, id, row.name, now)
    requires s'.named == s.named[id := row] && row.agent == a
    ensures NamedSoundFor(s', a, now)
  {
    var was, current := ActiveNamedOf(s.named, a, now), ActiveNamedOf(s'.named, a, now);
    FewerStaysSound(s, s, a, before, now);
    assert current <= was + {id};
    Subset(current, was + {id});
    assert id !in was && |was + {id}| == |was| + 1;
    forall c, d | c in current && d in current && c != d ensures s'.named[c].name != s'.named[d].name {
      if c != id { assert c in was; }
      if d != id { assert d in was; }
    }
  }

  lemma StepKeepsNamed(s: Tables, m: Moment, before: nat, a: AgentId)
    requires NamedSoundFor(s, a, before) && before <= m.now
    ensures NamedSoundFor(Apply(s, m), a, m.now)
  {
    if m.event.Handle? && m.event.request.CreateNamed? && m.event.request.agent == a
        && AnswerOf(s, m.event.request, m.now).NamedCreated? {
      var r := m.event.request;
      CreationKeepsNamedSound(s, Apply(s, m), a, r.newId, Apply(s, m).named[r.newId], before, m.now);
    } else {
      StepsAreRowWise(s, m);
      NoCreationKeepsNamedSound(s, m, Apply(s, m), before, a);
    }
  }

  lemma NoCreationKeepsNamedSound(s: Tables, m: Moment, s': Tables, before: nat, a: AgentId)
    requires NamedSoundFor(s, a, before) && before <= m.now && RowWise(s, m, s')
    requires forall c | c in s'.named && c !in s.named :: s'.named[c].agent != a
    ensures NamedSoundFor(s', a, m.now)
  {
    FewerStaysSound(s, s', a, before, m.now);
  }

  // ---- runs ----

  /** Empty tables are a sound start. */
  lemma EmptyTablesAreSound(a: AgentId, now: nat)
    ensures var s := Tables(map[], map[], map[], map[], {}); Inv(s) && NamedSoundFor(s, a, now)
  {
    assert ActiveNamedOf(map[], a, now) == {};
  }

  /** States, the events between them, a clock that never goes back, and fresh keys. */
  ghost predicate Run(ss: seq<Tables>, ms: seq<Moment>) {
    && |ss| == |ms| + 1
    && Inv(ss[0])
    && (forall k | 0 <= k < |ms| :: ss[k + 1] == Apply(ss[k], ms[k]) && FreshKey(ss[k], ms[k]))
    && (forall j, k | 0 <= j <= k < |ms| :: ms[j].now <= ms[k].now)
  }

  lemma {:induction false} ReachableInv(ss: seq<Tables>, ms: seq<Moment>, k: nat)
    requires Run(ss, ms) && k <= |ms|
    ensures Inv(ss[k])
  {
    if k > 0 {
      ReachableInv(ss, ms, k - 1);
      StepKeepsInv(ss[k - 1], ms[k - 1]);
    }
  }

  /** In every reachable state an agent has at most ten active named keys, no two under one name. */
  lemma {:induction false} ReachableNamedSound(ss: seq<Tables>, ms: seq<Moment>, k: nat, a: AgentId)
    requires Run(ss, ms) && 0 < k <= |ms| && NamedSoundFor(ss[0], a, ms[0].now)
    ensures NamedSoundFor(ss[k], a, ms[k - 1].now)
  {
    if k == 1 {
      StepKeepsNamed(ss[0], ms[0], ms[0].now, a);
    } else {
      ReachableNamedSound(ss, ms, k - 1, a);
      StepKeepsNamed(ss[k - 1], ms[k - 1], ms[k - 2].now, a);
    }
  }

  lemma {:induction false} IssuedGrows(ss: seq<Tables>, ms: seq<Moment>, i: nat, j: nat)
    requires Run(ss, ms) && i <= j <= |ms|
    ensures ss[i].issued <= ss[j].issued
    decreases j - i
  {
    if i < j {
      ReachableInv(ss, ms, i);
      StepKeepsInv(ss[i], ms[i]);
      IssuedGrows(ss, ms, i + 1, j);
    }
  }

  /** A key that was issued and is no longer on file for an agent never comes back on file for it. */
  lemma {:induction false} RetiredKeysStayRetired(ss: seq<Tables>, ms: seq<Moment>, i: nat, j: nat, a: AgentId, k: Key,
      at: nat)
    requires Run(ss, ms) && i <= j < |ms| && at <= ms[i].now
    requires k in ss[i].issued && k !in KeysOnFile(ss[i], a, at)
    ensures k !in KeysOnFile(ss[j + 1], a, ms[j].now)
    ensures k !in ValidKeys(ss[j + 1], a, ms[j].now)
    decreases j - i
  {
    ReachableInv(ss, ms, i);
    StepOnlyAddsItsOwnKey(ss[i], ms[i], a, at);
    if i < j {
      StepKeepsInv(ss[i], ms[i]);
      RetiredKeysStayRetired(ss, ms, i + 1, j, a, k, ms[i].now);
    }
  }

  predicate Replaces(s: Tables, m: Moment, a: AgentId) {
    && m.event.Handle? && m.event.request.agent == a
    && (AnswerOf(s, m.event.request, m.now).Recovered? || AnswerOf(s, m.event.request, m.now).Accepted?)
  }

  /** Recovery or an accepted transfer leaves exactly the new key valid. */
  lemma ReplacementLeavesOneKey(s: Tables, m: Moment, a: AgentId)
    requires Replaces(s, m, a)
    ensures Generated(m.event).Some?
    ensures ValidKeys(Apply(s, m), a, m.now) == KeysOnFile(Apply(s, m), a, m.now) == {Generated(m.event).value}
  {
    var s' := Apply(s, m);
    forall c | c in s'.named && s'.named[c].agent == a ensures !ActiveNamed(s'.named[c], m.now) {}
    assert ActiveNamedOf(s'.named, a, m.now) == {};
  }

  /** After it, no key issued earlier is ever valid for the agent again, in any later run of requests. */
  lemma ReplacementIsFinal(ss: seq<Tables>, ms: seq<Moment>, i: nat, j: nat, a: AgentId, k: Key)
    requires Run(ss, ms) && i <= j < |ms| && Replaces(ss[i], ms[i], a)
    requires k in ss[i].issued
    ensures k !in ValidKeys(ss[j + 1], a, ms[j].now)
  {
    ReplacementLeavesOneKey(ss[i], ms[i], a);
    assert k !in KeysOnFile(ss[i + 1], a, ms[i].now);
    if i < j {
      IssuedGrows(ss, ms, i, i + 1);
      RetiredKeysStayRetired(ss, ms, i + 1, j, a, k, ms[i].now);
    }
  }

  /** Archiving is final: no key is ever valid for the agent again, nor can it be recovered, rotated or transferred. */
  lemma {:induction false} ArchivedAgentsStayClosed(ss: seq<Tables>, ms: seq<Moment>, i: nat, j: nat, a: AgentId)
    requires Run(ss, ms) && i <= j <= |ms| && a in ss[i].agents && ss[i].agents[a].archivedAt.Some?
    ensures a in ss[j].agents && ss[j].agents[a] == ss[i].agents[a]
    ensures forall now :: ValidKeys(ss[j], a, now) == {}
    ensures j < |ms| ==> !Replaces(ss[j], ms[j], a)
    decreases j - i
  {
    if i < j {
      ArchivedRowsAreFixed(ss[i], ms[i], a);
      ArchivedAgentsStayClosed(ss, ms, i + 1, j, a);
    }
  }

  lemma ArchivedRowsAreFixed(s: Tables, m: Moment, a: AgentId)
    requires a in s.agents && s.agents[a].archivedAt.Some?
    ensures a in Apply(s, m).agents && Apply(s, m).agents[a] == s.agents[a]
  {
    if m.event.Handle? { ClosedAgentsIgnoreRequests(s, m.event.request, m.now, a); }
  }

  lemma ClosedAgentsIgnoreRequests(s: Tables, r: Request, now: nat, a: AgentId)
    requires a in s.agents && s.agents[a].archivedAt.Some?
    ensures a in After(s, r, now).agents && After(s, r, now).agents[a] == s.agents[a]
  {
  }

  /** The acceptance of a transfer: it was open, unexpired, for this agent, and its creator still owned the agent. */
  lemma AcceptanceConditions(s: Tables, m: Moment)
    requires m.event.Handle? && m.event.request.Accept? && AnswerOf(s, m.event.request, m.now).Accepted?
    ensures var r, s' := m.event.request, Apply(s, m);
            && r.transfer in s.transfers && Open(s.transfers[r.transfer]) && s.transfers[r.transfer].agent == r.agent
            && s.transfers[r.transfer].expires > m.now
            && r.agent in s.owners && s.owners[r.agent] == s.transfers[r.transfer].from
            && s'.owners[r.agent] == r.user
            && s'.transfers[r.transfer].acceptedBy == Some(r.user) && s'.transfers[r.transfer].cancelledAt.None?
            && forall t | t in s'.transfers && s'.transfers[t].agent == r.agent :: !Open(s'.transfers[t])
  {
    var r, s' := m.event.request, Apply(s, m);
    forall t | t in s'.transfers && s'.transfers[t].agent == r.agent ensures !Open(s'.transfers[t]) {}
  }

  /**
   * A transfer once accepted or cancelled stays so, with the same outcome, for ever: it is never accepted a second
   * time.
   */
  lemma {:induction false} ResolvedTransfersAreFinal(ss: seq<Tables>, ms: seq<Moment>, i: nat, j: nat, t: TransferId)
    requires Run(ss, ms) && i <= j <= |ms| && t in ss[i].transfers && !Open(ss[i].transfers[t])
    ensures t in ss[j].transfers && ss[j].transfers[t] == ss[i].transfers[t]
    ensures j < |ms| && ms[j].event.Handle? && ms[j].event.request.Accept? && ms[j].event.request.transfer == t ==>
              AnswerOf(ss[j], ms[j].event.request, ms[j].now) == Conflict
    decreases j - i
  {
    if i < j {
      StepKeepsResolved(ss[i], ms[i], t);
      ResolvedTransfersAreFinal(ss, ms, i + 1, j, t);
    }
  }

  /**
   * A transfer that exists when ownership moves can never be accepted later, even if its creator becomes the owner
   * again.
   */
  lemma StaleTransfersStayDead(ss: seq<Tables>, ms: seq<Moment>, i: nat, j: nat, a: AgentId, t: TransferId)
    requires Run(ss, ms) && i < j < |ms|
    requires a in ss[i].owners && t in ss[i].transfers && ss[i].transfers[t].agent == a
    requires a in ss[i + 1].owners && ss[i + 1].owners[a] != ss[i].owners[a]
    requires ms[j].event.Handle? && ms[j].event.request.Accept? && ms[j].event.request.transfer == t
    ensures AnswerOf(ss[j], ms[j].event.request, ms[j].now) == Conflict
  {
    OwnerChangesCloseTransfers(ss[i], ms[i], a, t);
    StepKeepsResolved(ss[i], ms[i], t);
    ResolvedTransfersAreFinal(ss, ms, i + 1, j, t);
  }
}
