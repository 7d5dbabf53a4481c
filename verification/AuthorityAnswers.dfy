/**
 * Exactly who may act for an agent and what each granted request writes, stated on the rows themselves; a request that
 * is not granted changes nothing, and no request touches another agent.
 */
module AuthorityAnswers {
  import opened Options
  import opened AgentAuthority

  // ---- what the rows say ----

  predicate Works(s: Tables, a: AgentId) {
    a in s.agents && s.agents[a].active && s.agents[a].archivedAt.None?
  }

  predicate Owns(s: Tables, u: UserId, a: AgentId) { a in s.owners && s.owners[a] == u }

  /** The agent's previous key still overlaps with its present one. */
  predicate Overlaps(g: Agent, now: nat) {
    g.previous.Some? && g.previousExpires.Some? && now < g.previousExpires.value
  }

  predicate Usable(n: Named, a: AgentId, now: nat) {
    n.agent == a && n.revokedAt.None? && (n.expires.None? || now < n.expires.value)
  }

  /**
   * A key authenticates exactly for a working agent whose key is not revoked, as its present key, as its previous one
   * during the overlap, or as one of its named keys that is neither revoked nor expired.
   */
  lemma KeysAreExact(s: Tables, a: AgentId, k: Key, now: nat)
    ensures k in ValidKeys(s, a, now)
       <==> && Works(s, a) && s.agents[a].revokedAt.None?
            && (|| k == s.agents[a].key
                || (s.agents[a].previous == Some(k) && Overlaps(s.agents[a], now))
                || exists c :: c in s.named && Usable(s.named[c], a, now) && s.named[c].key == k)
  {
    if k in ValidKeys(s, a, now) {
      if c :| c in ActiveNamedOf(s.named, a, now) && s.named[c].key == k { assert Usable(s.named[c], a, now); }
    }
    if c :| c in s.named && Usable(s.named[c], a, now) && s.named[c].key == k {
      assert c in ActiveNamedOf(s.named, a, now);
    }
  }

  // ---- what granted requests write ----

  /** The same rows, and every unrevoked named key of the agent revoked now. */
  predicate AllNamedRevoked(was: map<CredentialId, Named>, is': map<CredentialId, Named>, a: AgentId, now: nat) {
    && is'.Keys == was.Keys
    && forall c | c in was :: is'[c] == if was[c].agent == a && was[c].revokedAt.None? then
        was[c].(revokedAt := Some(now)) else was[c]
  }

  /** Every open transfer of the agent but the kept one is cancelled now; no other row differs. */
  predicate OthersCancelled(was: map<TransferId, Transfer>, is': map<TransferId, Transfer>, a: AgentId,
      keep: TransferId, now: nat) {
    && is'.Keys == was.Keys + {keep}
    && forall t | t in was && t != keep ::
      is'[t] == if was[t].agent == a && was[t].acceptedAt.None? && was[t].cancelledAt.None? then
          was[t].(cancelledAt := Some(now)) else was[t]
  }

  /** A working agent whose only key is this one, and no other agent's row different. */
  predicate OneKeyLeft(s: Tables, s': Tables, a: AgentId, k: Key) {
    a in s.agents && s'.agents == s.agents[a := Agent(true, None, k, None, None, None)]
  }

  // ---- the owner's requests ----

  /** An owner is linked exactly to a working agent that has none. */
  lemma LinkIff(s: Tables, a: AgentId, u: UserId, now: nat)
    ensures var r := Link(a, u);
            if Works(s, a) && a !in s.owners
            then AnswerOf(s, r, now) == Linked && After(s, r, now) == s.(owners := s.owners[a := u])
            else AnswerOf(s, r, now) == Conflict && After(s, r, now) == s
  {
  }

  /** Recovery is granted exactly to the present owner of a working agent. */
  lemma RecoveryIff(s: Tables, a: AgentId, u: UserId, k: Key, now: nat)
    ensures var r, s' := Recover(a, u, k), After(s, Recover(a, u, k), now);
            if Works(s, a) && Owns(s, u, a)
            then
              && AnswerOf(s, r, now) == Recovered(k) && OneKeyLeft(s, s', a, k)
              && AllNamedRevoked(s.named, s'.named, a, now) && s'.owners == s.owners && s'.transfers == s.transfers
            else AnswerOf(s, r, now) == Forbidden && s' == s
  {
  }

  /**
   * A transfer is created exactly by the present owner of a working agent, under an id and a token not stored before;
   * it lives a day and replaces every open one.
   */
  lemma TransferCreationIff(s: Tables, a: AgentId, u: UserId, target: Target, id: TransferId, token: TokenHash,
      now: nat)
    ensures var r, s' := CreateTransfer(a, u, target, id, token),
        After(s, CreateTransfer(a, u, target, id, token), now);
            if Works(s, a) && Owns(s, u, a) && id !in s.transfers
               && forall t | t in s.transfers :: s.transfers[t].token != token
            then
              && AnswerOf(s, r, now) == TransferCreated(id) && s' == s.(transfers := s'.transfers)
              && OthersCancelled(s.transfers, s'.transfers, a, id, now)
              && s'.transfers[id] == Transfer(a, u, target, token, now + 24 * 60 * 60, None, None, None)
            else
              && AnswerOf(s, r, now) == (if Works(s, a) && Owns(s, u, a) then Conflict else Forbidden)
              && s' == s
  {
  }

  /** Cancelling is granted exactly to the agent's present owner, for an open transfer of that agent. */
  lemma CancellingIff(s: Tables, a: AgentId, u: UserId, t: TransferId, now: nat)
    ensures var r, s' := Cancel(a, u, t), After(s, Cancel(a, u, t), now);
            if t in s.transfers && s.transfers[t].agent == a && s.transfers[t].acceptedAt.None?
               && s.transfers[t].cancelledAt.None? && Owns(s, u, a)
            then
              && AnswerOf(s, r, now) == Cancelled
              && s' == s.(transfers := s.transfers[t := s.transfers[t].(cancelledAt := Some(now))])
            else AnswerOf(s, r, now) == NotFound && s' == s
  {
  }

  // ---- the recipient's request ----

  /** A stored transfer that this token and this signed-in target may accept now. */
  predicate Acceptable(s: Tables, a: AgentId, target: Target, t: TransferId, token: TokenHash, now: nat) {
    && t in s.transfers
    && s.transfers[t].token == token && s.transfers[t].agent == a && s.transfers[t].target == target
    && s.transfers[t].acceptedAt.None? && s.transfers[t].cancelledAt.None? && now < s.transfers[t].expires
    && Owns(s, s.transfers[t].from, a) && Works(s, a)
  }

  /**
   * A transfer is accepted exactly with its own token, for its own agent, by the very email or wallet it is addressed
   * to, while it is open and unexpired, its creator still owns the agent, and the agent works. The recipient then owns
   * the agent, holds its only key, and no other transfer of it is open.
   */
  lemma AcceptanceIff(s: Tables, a: AgentId, u: UserId, target: Target, t: TransferId, token: TokenHash, k: Key,
      now: nat)
    ensures var r, s' := Accept(a, u, target, t, token, k), After(s, Accept(a, u, target, t, token, k), now);
            if Acceptable(s, a, target, t, token, now)
            then
              && AnswerOf(s, r, now) == Accepted(k) && OneKeyLeft(s, s', a, k) && s'.owners == s.owners[a := u]
              && AllNamedRevoked(s.named, s'.named, a, now) && OthersCancelled(s.transfers, s'.transfers, a, t, now)
              && s'.transfers[t] == s.transfers[t].(acceptedAt := Some(now), acceptedBy := Some(u))
            else AnswerOf(s, r, now) == Conflict && s' == s
  {
  }

  // ---- the agent's requests ----

  /** The row a request read first lets the presented key through. */
  predicate SeenFit(seen: Option<Agent>, p: Key) {
    seen.Some? && seen.value.active && seen.value.archivedAt.None? && seen.value.key == p
  }

  /**
   * Rotation is granted exactly with the stored present key of a working agent and outside an overlap, in the row read
   * first and in the row stored now. The old key then overlaps for ten minutes.
   */
  lemma RotationIff(s: Tables, a: AgentId, p: Key, k: Key, seen: Option<Agent>, now: nat)
    ensures var r, s' := Rotate(a, p, k, seen), After(s, Rotate(a, p, k, seen), now);
            if SeenFit(seen, p) && !Overlaps(seen.value, now)
               && Works(s, a) && s.agents[a].key == p && !Overlaps(s.agents[a], now)
            then
              && AnswerOf(s, r, now) == Rotated(k, now + 10 * 60)
              && s'.agents == s.agents[a := Agent(true, None, k, s.agents[a].revokedAt, Some(p), Some(now + 10 * 60))]
              && s'.owners == s.owners && s'.named == s.named && s'.transfers == s.transfers
            else !AnswerOf(s, r, now).Rotated? && s' == s
  {
  }

  /** Ending the overlap is granted exactly with the stored present key, for the previous key that was seen. */
  lemma EarlyRevocationIff(s: Tables, a: AgentId, p: Key, seen: Option<Agent>, now: nat)
    ensures var r, s' := RevokePrevious(a, p, seen), After(s, RevokePrevious(a, p, seen), now);
            if SeenFit(seen, p) && seen.value.previous.Some?
               && Works(s, a) && s.agents[a].key == p && s.agents[a].previous == seen.value.previous
            then
              && AnswerOf(s, r, now) == PreviousRevoked
              && s' == s.(agents := s.agents[a := s.agents[a].(previous := None, previousExpires := None)])
            else AnswerOf(s, r, now) != PreviousRevoked && s' == s
  {
  }

  /** Read and written without anything in between: refusals say what the stored row says. */
  lemma UndisturbedAnswers(s: Tables, a: AgentId, p: Key, k: Key, now: nat)
    ensures var seen := if a in s.agents then Some(s.agents[a]) else None;
            var rotate, revoke := AnswerOf(s, Rotate(a, p, k, seen), now), AnswerOf(s, RevokePrevious(a, p, seen), now);
            && (rotate == revoke == NotFound <==> a !in s.agents)
            && (a in s.agents && !Works(s, a) <==> rotate == revoke == Inactive)
            && (Works(s, a) && s.agents[a].key != p <==> rotate == revoke == Conflict)
            && (Works(s, a) && s.agents[a].key == p ==>
                  && rotate == (if Overlaps(s.agents[a], now) then OverlapActive(s.agents[a].previousExpires.value)
                                else Rotated(k, now + 10 * 60))
                  && revoke == if s.agents[a].previous.None? then AlreadyRevoked else PreviousRevoked)
  {
  }

  /** A named key is made exactly while fewer than ten are usable, none of them under its name. */
  lemma NamedCreationIff(s: Tables, a: AgentId, id: CredentialId, name: string, k: Key, days: nat, now: nat)
    ensures var r, s' := CreateNamed(a, id, name, k, days), After(s, CreateNamed(a, id, name, k, days), now);
            if a in s.agents && id !in s.named && |set c | c in s.named && Usable(s.named[c], a, now)| < 10
               && forall c | c in s.named && Usable(s.named[c], a, now) :: s.named[c].name != name
            then
              && AnswerOf(s, r, now) == NamedCreated(id, k)
              && s'.named == s.named[id := Named(a, name, k,
                  if days == 0 then None else Some(now + days * 24 * 60 * 60), None)]
              && s'.agents == s.agents && s'.owners == s.owners && s'.transfers == s.transfers
            else AnswerOf(s, r, now) == Conflict && s' == s
  {
    assert (set c | c in s.named && Usable(s.named[c], a, now)) == ActiveNamedOf(s.named, a, now);
    assert forall c | c in s.named :: c in ActiveNamedOf(s.named, a, now) <==> Usable(s.named[c], a, now);
  }

  /** A named key is revoked exactly once, as a key of the agent that asks. */
  lemma NamedRevocationIff(s: Tables, a: AgentId, id: CredentialId, seen: Option<Named>, now: nat)
    ensures var r, s' := RevokeNamed(a, id, seen), After(s, RevokeNamed(a, id, seen), now);
            if seen.Some? && seen.value.revokedAt.None?
               && id in s.named && s.named[id].agent == a && s.named[id].revokedAt.None?
            then
              && AnswerOf(s, r, now) == NamedRevoked
              && s' == s.(named := s.named[id := s.named[id].(revokedAt := Some(now))])
            else AnswerOf(s, r, now) != NamedRevoked && s' == s
  {
  }

  /** Archiving closes an agent that has no obligations, with its named keys; it works no more. */
  lemma ArchivingIff(s: Tables, a: AgentId, obligations: bool, now: nat)
    ensures var r, s' := Archive(a, obligations), After(s, Archive(a, obligations), now);
            if a in s.agents && s.agents[a].archivedAt.None? && !obligations
            then
              && AnswerOf(s, r, now) == Archived
              && s'.agents == s.agents[a := Agent(false, Some(now), s.agents[a].key, Some(now), None, None)]
              && AllNamedRevoked(s.named, s'.named, a, now) && s'.owners == s.owners && s'.transfers == s.transfers
            else AnswerOf(s, r, now) != Archived && s' == s
  {
  }

  // ---- nothing else moves ----

  /** No request changes the row, the owner, a key or a transfer of another agent. */
  lemma RequestsStayWithTheirAgent(s: Tables, r: Request, now: nat, b: AgentId)
    requires b != r.agent
    ensures var s' := After(s, r, now);
            && (b in s'.agents <==> b in s.agents) && (b in s.agents ==> s'.agents[b] == s.agents[b])
            && (b in s'.owners <==> b in s.owners) && (b in s.owners ==> s'.owners[b] == s.owners[b])
            && (forall c ::
                (c in s'.named && s'.named[c].agent == b) <==> (c in s.named && s.named[c].agent == b))
            && (forall c | c in s.named && s.named[c].agent == b :: s'.named[c] == s.named[c])
            && (forall t ::
                (t in s'.transfers && s'.transfers[t].agent == b) <==> (t in s.transfers && s.transfers[t].agent == b))
            && (forall t | t in s.transfers && s.transfers[t].agent == b :: s'.transfers[t] == s.transfers[t])
  {
  }
}
