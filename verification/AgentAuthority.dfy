/**
 * Who may act for an agent: its primary, previous and named keys, its owner, and targeted ownership transfers
 * (lib/agent-ownership.ts, lib/agent-credentials.ts, lib/agent-named-credentials.ts, lib/agent-lifecycle.ts).
 * Times are epoch seconds; a key stands for its stored digest.
 */
module AgentAuthority {
  import opened Options

  type AgentId = nat
  type UserId = nat
  type Key = nat
  type CredentialId = nat
  type TransferId = nat
  type TokenHash = nat

  const KEY_OVERLAP_SECONDS: nat := 600
  const TRANSFER_TTL_SECONDS: nat := 86_400
  const MAX_ACTIVE_NAMED: nat := 10

  datatype Agent = Agent(active: bool, archivedAt: Option<nat>, key: Key, revokedAt: Option<nat>, previous: Option<Key>,
      previousExpires: Option<nat>)

  /** name is the lower-cased name, the form in which names are compared. */
  datatype Named = Named(agent: AgentId, name: string, key: Key, expires: Option<nat>, revokedAt: Option<nat>)

  datatype Target = Email(address: string) | Wallet(account: string)

  datatype Transfer = Transfer(
    agent: AgentId, from: UserId, target: Target, token: TokenHash, expires: nat,
    acceptedAt: Option<nat>, acceptedBy: Option<UserId>, cancelledAt: Option<nat>)

  /** issued is not a table: it is the history of every key ever generated, against which a new key is fresh. */
  datatype Tables = Tables(
    agents: map<AgentId, Agent>, owners: map<AgentId, UserId>, named: map<CredentialId, Named>,
    transfers: map<TransferId, Transfer>, issued: set<Key>)

  // ---- what the tables say ----

  predicate Working(agents: map<AgentId, Agent>, a: AgentId) {
    a in agents && agents[a].active && agents[a].archivedAt.None?
  }

  predicate OwnedBy(owners: map<AgentId, UserId>, a: AgentId, u: UserId) { a in owners && owners[a] == u }

  predicate Unexpired(expires: Option<nat>, now: nat) { expires.None? || expires.value > now }

  predicate ActiveNamed(n: Named, now: nat) { n.revokedAt.None? && Unexpired(n.expires, now) }

  predicate Open(t: Transfer) { t.acceptedAt.None? && t.cancelledAt.None? }

  function ActiveNamedOf(named: map<CredentialId, Named>, a: AgentId, now: nat): set<CredentialId> {
    set c | c in named && named[c].agent == a && ActiveNamed(named[c], now)
  }

  predicate PreviousLive(g: Agent, now: nat) {
    g.previous.Some? && g.previousExpires.Some? && g.previousExpires.value > now
  }

  /**
   * Keys that authenticate for the agent as soon as its status is active: current, unexpired previous, active named.
   */
  function KeysOnFile(s: Tables, a: AgentId, now: nat): set<Key> {
    if a !in s.agents || s.agents[a].archivedAt.Some? || s.agents[a].revokedAt.Some? then {}
    else
      {s.agents[a].key}
      + (if PreviousLive(s.agents[a], now) then {s.agents[a].previous.value} else {})
      + (set c | c in ActiveNamedOf(s.named, a, now) :: s.named[c].key)
  }

  /** The keys a request can authenticate with right now. */
  function ValidKeys(s: Tables, a: AgentId, now: nat): set<Key> {
    if a in s.agents && s.agents[a].active then KeysOnFile(s, a, now) else {}
  }

  function RevokeNamedOf(named: map<CredentialId, Named>, a: AgentId, now: nat): map<CredentialId, Named> {
    map c | c in named :: if named[c].agent == a && named[c].revokedAt.None? then named[c].(revokedAt := Some(now))
        else named[c]
  }

  function CancelOpenOf(transfers: map<TransferId, Transfer>, a: AgentId, keep: TransferId,
      now: nat): map<TransferId, Transfer> {
    map t | t in transfers :: if transfers[t].agent == a && t != keep && Open(transfers[t])
        then transfers[t].(cancelledAt := Some(now)) else transfers[t]
  }

  /** Cancelling after the kept row is written is the same as before. */
  lemma CancelSparesTheKept(transfers: map<TransferId, Transfer>, a: AgentId, keep: TransferId, row: Transfer, now: nat)
    ensures CancelOpenOf(transfers[keep := row], a, keep, now) == CancelOpenOf(transfers, a, keep, now)[keep := row]
  {
  }

  // ---- operations: who is let through, and what the tables become ----

  datatype Answer =
    | NotFound | Inactive | Conflict | Forbidden | OverlapActive(until: nat) | AlreadyRevoked | AlreadyArchived
    | Blocked
    | Linked | Recovered(key: Key) | Rotated(key: Key, until: nat) | PreviousRevoked
    | NamedCreated(id: CredentialId, key: Key) | NamedRevoked
    | TransferCreated(transfer: TransferId) | Accepted(key: Key) | Cancelled | Archived

  /**
   * One request with the values generated for it; seen is what its preliminary read returned, which may be out of date.
   */
  datatype Request =
    | Link(agent: AgentId, user: UserId)
    | Recover(agent: AgentId, user: UserId, newKey: Key)
    | Rotate(agent: AgentId, presented: Key, newKey: Key, seen: Option<Agent>)
    | RevokePrevious(agent: AgentId, presented: Key, seen: Option<Agent>)
    | CreateNamed(agent: AgentId, newId: CredentialId, name: string, newKey: Key, expiresInDays: nat)
    | RevokeNamed(agent: AgentId, id: CredentialId, seenNamed: Option<Named>)
    | CreateTransfer(agent: AgentId, user: UserId, target: Target, newTransfer: TransferId, newToken: TokenHash)
    | Accept(agent: AgentId, user: UserId, target: Target, transfer: TransferId, token: TokenHash, newKey: Key)
    | Cancel(agent: AgentId, user: UserId, transfer: TransferId)
    | Archive(agent: AgentId, obligations: bool)

  predicate RotationAllowed(s: Tables, a: AgentId, presented: Key, now: nat) {
    Working(s.agents, a) && s.agents[a].key == presented && !PreviousLive(s.agents[a], now)
  }

  predicate AcceptanceAllowed(s: Tables, r: Request, now: nat)
    requires r.Accept?
  {
    && r.transfer in s.transfers
    && var t := s.transfers[r.transfer];
    && t.token == r.token && t.agent == r.agent && t.target == r.target && Open(t) && t.expires > now
    && OwnedBy(s.owners, r.agent, t.from) && Working(s.agents, r.agent)
  }

  /** A generated transfer id or token that is already stored makes the insert fail. */
  predicate TransferKeyTaken(s: Tables, id: TransferId, token: TokenHash) {
    id in s.transfers || exists t | t in s.transfers :: s.transfers[t].token == token
  }

  predicate NamedAllowed(s: Tables, a: AgentId, id: CredentialId, name: string, now: nat) {
    && a in s.agents && id !in s.named
    && |ActiveNamedOf(s.named, a, now)| < MAX_ACTIVE_NAMED
    && !exists c | c in ActiveNamedOf(s.named, a, now) :: s.named[c].name == name
  }

  function AnswerOf(s: Tables, r: Request, now: nat): Answer {
    match r
    case Link(a, u) => if Working(s.agents, a) && a !in s.owners then Linked else Conflict
    case Recover(a, u, k) => if Working(s.agents, a) && OwnedBy(s.owners, a, u) then Recovered(k) else Forbidden
    case Rotate(a, p, k, seen) =>
      if seen.None? then NotFound
      else if !seen.value.active || seen.value.archivedAt.Some? then Inactive
      else if seen.value.key != p then Conflict
      else if PreviousLive(seen.value, now) then OverlapActive(seen.value.previousExpires.value)
      else if RotationAllowed(s, a, p, now) then Rotated(k, now + KEY_OVERLAP_SECONDS)
      else Conflict
    case RevokePrevious(a, p, seen) =>
      if seen.None? then NotFound
      else if !seen.value.active || seen.value.archivedAt.Some? then Inactive
      else if seen.value.key != p then Conflict
      else if seen.value.previous.None? then AlreadyRevoked
      else if Working(s.agents, a) && s.agents[a].key == p && s.agents[a].previous == seen.value.previous
          then PreviousRevoked
      else Conflict
    case CreateNamed(a, id, name, k, _) => if NamedAllowed(s, a, id, name, now) then NamedCreated(id, k) else Conflict
    case RevokeNamed(a, id, seen) =>
      if seen.None? then NotFound
      else if seen.value.revokedAt.Some? then AlreadyRevoked
      else if id in s.named && s.named[id].agent == a && s.named[id].revokedAt.None? then NamedRevoked
      else Conflict
    case CreateTransfer(a, u, _, id, token) =>
      if OwnedBy(s.owners, a, u) && Working(s.agents, a) then
        (if TransferKeyTaken(s, id, token) then Conflict else TransferCreated(id))
      else Forbidden
    case Accept(_, _, _, _, _, k) => if AcceptanceAllowed(s, r, now) then Accepted(k) else Conflict
    case Cancel(a, u, t) =>
      if t in s.transfers && s.transfers[t].agent == a && Open(s.transfers[t]) && OwnedBy(s.owners, a, u)
      then Cancelled
      else NotFound
    case Archive(a, obligations) =>
      if a !in s.agents then NotFound
      else if s.agents[a].archivedAt.Some? then AlreadyArchived
      else if obligations then Blocked
      else Archived
  }

  /** The agent with one fresh key and nothing else on its row. */
  function OnlyKey(g: Agent, k: Key): Agent {
    g.(key := k, revokedAt := None, previous := None, previousExpires := None)
  }

  function After(s: Tables, r: Request, now: nat): Tables {
    match (AnswerOf(s, r, now), r)
    case (Linked, Link(a, u)) => s.(owners := s.owners[a := u])
    case (Recovered(_), Recover(a, u, k)) =>
      s.(agents := s.agents[a := OnlyKey(s.agents[a], k)], named := RevokeNamedOf(s.named, a, now),
          issued := s.issued + {k})
    case (Rotated(_, until), Rotate(a, p, k, _)) =>
      s.(agents := s.agents[a := s.agents[a].(key := k, previous := Some(p), previousExpires := Some(until))],
          issued := s.issued + {k})
    case (PreviousRevoked, RevokePrevious(a, _, _)) =>
      s.(agents := s.agents[a := s.agents[a].(previous := None, previousExpires := None)])
    case (NamedCreated(_, _), CreateNamed(a, id, name, k, days)) =>
      s.(named := s.named[id := Named(a, name, k, if days == 0 then None else Some(now + days * 86_400), None)],
          issued := s.issued + {k})
    case (NamedRevoked, RevokeNamed(_, id, _)) => s.(named := s.named[id := s.named[id].(revokedAt := Some(now))])
    case (TransferCreated(_), CreateTransfer(a, u, target, id, token)) =>
      s.(transfers := CancelOpenOf(s.transfers, a, id,
          now)[id := Transfer(a, u, target, token, now + TRANSFER_TTL_SECONDS, None, None, None)])
    case (Accepted(_), Accept(a, u, _, t, _, k)) =>
      s.(agents := s.agents[a := OnlyKey(s.agents[a], k)],
         owners := s.owners[a := u],
         named := RevokeNamedOf(s.named, a, now),
         transfers := CancelOpenOf(s.transfers, a, t,
             now)[t := s.transfers[t].(acceptedAt := Some(now), acceptedBy := Some(u))],
         issued := s.issued + {k})
    case (Cancelled, Cancel(_, _, t)) => s.(transfers := s.transfers[t := s.transfers[t].(cancelledAt := Some(now))])
    case (Archived, Archive(a, _)) =>
      s.(agents := s.agents[a := s.agents[a].(active := false, archivedAt := Some(now), revokedAt := Some(now),
          previous := None, previousExpires := None)],
         named := RevokeNamedOf(s.named, a, now))
    case _ => s
  }

  // ---- the store ----

  class AuthorityStore {
    var agents: map<AgentId, Agent>
    var owners: map<AgentId, UserId>
    var named: map<CredentialId, Named>
    var transfers: map<TransferId, Transfer>
    ghost var issued: set<Key>

    ghost function Contents(): Tables
      reads this
    {
      Tables(agents, owners, named, transfers, issued)
    }

    constructor ()
      ensures Contents() == Tables(map[], map[], map[], map[], {})
    {
      agents, owners, named, transfers, issued := map[], map[], map[], map[], {};
    }

    method LinkAgentOwner(a: AgentId, u: UserId, now: nat) returns (answer: Answer)
      modifies this
      ensures answer == AnswerOf(old(Contents()), Link(a, u), now)
      ensures Contents() == After(old(Contents()), Link(a, u), now)
    {
      if !(a in agents && agents[a].active && agents[a].archivedAt.None?) || a in owners { return Conflict; }
      owners := owners[a := u];
      return Linked;
    }

    method RecoverAgentCredentials(a: AgentId, u: UserId, newKey: Key, now: nat) returns (answer: Answer)
      requires newKey !in issued
      modifies this
      ensures answer == AnswerOf(old(Contents()), Recover(a, u, newKey), now)
      ensures Contents() == After(old(Contents()), Recover(a, u, newKey), now)
    {
      if !(a in agents && agents[a].active && agents[a].archivedAt.None?) || !(a in owners && owners[a] == u) {
        return Forbidden;
      }
      agents := agents[a := agents[a].(key := newKey, revokedAt := None, previous := None, previousExpires := None)];
      issued := issued + {newKey};
      named := RevokeNamedOf(named, a, now);
      return Recovered(newKey);
    }

    /** seen is the row the first query read; another request may have committed since. */
    method RotateAgentCredential(a: AgentId, presented: Key, newKey: Key, seen: Option<Agent>, now: nat)
      returns (answer: Answer)
      requires newKey !in issued
      modifies this
      ensures answer == AnswerOf(old(Contents()), Rotate(a, presented, newKey, seen), now)
      ensures Contents() == After(old(Contents()), Rotate(a, presented, newKey, seen), now)
    {
      if seen.None? { return NotFound; }
      if !seen.value.active || seen.value.archivedAt.Some? { return Inactive; }
      if seen.value.key != presented { return Conflict; }
      if seen.value.previous.Some? && seen.value.previousExpires.Some? && seen.value.previousExpires.value > now {
        return OverlapActive(seen.value.previousExpires.value);
      }
      if a !in agents || agents[a].key != presented || !agents[a].active || agents[a].archivedAt.Some?
         || !(agents[a].previous.None? || agents[a].previousExpires.None? || agents[a].previousExpires.value <= now) {
        return Conflict;
      }
      agents := agents[a := agents[a].(previous := Some(agents[a].key),
          previousExpires := Some(now + KEY_OVERLAP_SECONDS), key := newKey)];
      issued := issued + {newKey};
      return Rotated(newKey, now + KEY_OVERLAP_SECONDS);
    }

    method RevokePreviousAgentCredential(a: AgentId, presented: Key, seen: Option<Agent>, now: nat)
      returns (answer: Answer)
      modifies this
      ensures answer == AnswerOf(old(Contents()), RevokePrevious(a, presented, seen), now)
      ensures Contents() == After(old(Contents()), RevokePrevious(a, presented, seen), now)
    {
      if seen.None? { return NotFound; }
      if !seen.value.active || seen.value.archivedAt.Some? { return Inactive; }
      if seen.value.key != presented { return Conflict; }
      if seen.value.previous.None? { return AlreadyRevoked; }
      if a !in agents || agents[a].key != presented || agents[a].previous != seen.value.previous || !agents[a].active
          || agents[a].archivedAt.Some? {
        return Conflict;
      }
      agents := agents[a := agents[a].(previous := None, previousExpires := None)];
      return PreviousRevoked;
    }

    method CreateNamedAgentCredential(a: AgentId, newId: CredentialId, name: string, newKey: Key, expiresInDays: nat,
        now: nat) returns (answer: Answer)
      requires newKey !in issued
      modifies this
      ensures answer == AnswerOf(old(Contents()), CreateNamed(a, newId, name, newKey, expiresInDays), now)
      ensures Contents() == After(old(Contents()), CreateNamed(a, newId, name, newKey, expiresInDays), now)
    {
      var current := ActiveNamedOf(named, a, now);
      if a !in agents || newId in named || |current| >= MAX_ACTIVE_NAMED || exists c | c in current ::
          named[c].name == name
      {
        return Conflict;
      }
      var expires := if expiresInDays == 0 then None else Some(now + expiresInDays * 86_400);
      named := named[newId := Named(a, name, newKey, expires, None)];
      issued := issued + {newKey};
      return NamedCreated(newId, newKey);
    }

    method RevokeNamedAgentCredential(a: AgentId, id: CredentialId, seen: Option<Named>, now: nat)
      returns (answer: Answer)
      modifies this
      ensures answer == AnswerOf(old(Contents()), RevokeNamed(a, id, seen), now)
      ensures Contents() == After(old(Contents()), RevokeNamed(a, id, seen), now)
    {
      if seen.None? { return NotFound; }
      if seen.value.revokedAt.Some? { return AlreadyRevoked; }
      if id !in named || named[id].agent != a || named[id].revokedAt.Some? { return Conflict; }
      named := named[id := named[id].(revokedAt := Some(now))];
      return NamedRevoked;
    }

    method CreateOwnershipTransfer(a: AgentId, u: UserId, target: Target, newTransfer: TransferId, newToken: TokenHash,
        now: nat) returns (answer: Answer)
      modifies this
      ensures answer == AnswerOf(old(Contents()), CreateTransfer(a, u, target, newTransfer, newToken), now)
      ensures Contents() == After(old(Contents()), CreateTransfer(a, u, target, newTransfer, newToken), now)
    {
      if !(a in owners && owners[a] == u) || !(a in agents && agents[a].active && agents[a].archivedAt.None?) {
        return Forbidden;
      }
      if newTransfer in transfers || exists t | t in transfers :: transfers[t].token == newToken { return Conflict; }
      ghost var before := transfers;
      transfers := transfers[newTransfer := Transfer(a, u, target, newToken, now + TRANSFER_TTL_SECONDS, None, None,
          None)];
      CancelSparesTheKept(before, a, newTransfer, transfers[newTransfer], now);
      transfers := CancelOpenOf(transfers, a, newTransfer, now);
      return TransferCreated(newTransfer);
    }

    method AcceptOwnershipTransfer(a: AgentId, u: UserId, target: Target, transfer: TransferId, token: TokenHash,
        newKey: Key, now: nat) returns (answer: Answer)
      requires newKey !in issued
      modifies this
      ensures answer == AnswerOf(old(Contents()), Accept(a, u, target, transfer, token, newKey), now)
      ensures Contents() == After(old(Contents()), Accept(a, u, target, transfer, token, newKey), now)
    {
      if transfer !in transfers { return Conflict; }
      var t := transfers[transfer];
      if t.token != token || t.agent != a || t.target != target || t.acceptedAt.Some? || t.cancelledAt.Some?
          || t.expires <= now
         || !(a in owners && owners[a] == t.from) || !(a in agents && agents[a].active && agents[a].archivedAt.None?) {
        return Conflict;
      }
      assert AcceptanceAllowed(Contents(), Accept(a, u, target, transfer, token, newKey), now);
      var acceptedRow := t.(acceptedAt := Some(now), acceptedBy := Some(u));
      CancelSparesTheKept(transfers, a, transfer, acceptedRow, now);
      transfers := CancelOpenOf(transfers[transfer := acceptedRow], a, transfer, now);
      owners, named := owners[a := u], RevokeNamedOf(named, a, now);
      agents := agents[a := agents[a].(key := newKey, revokedAt := None, previous := None, previousExpires := None)];
      issued := issued + {newKey};
      return Accepted(newKey);
    }

    method CancelOwnershipTransfer(a: AgentId, u: UserId, transfer: TransferId, now: nat) returns (answer: Answer)
      modifies this
      ensures answer == AnswerOf(old(Contents()), Cancel(a, u, transfer), now)
      ensures Contents() == After(old(Contents()), Cancel(a, u, transfer), now)
    {
      if transfer !in transfers || transfers[transfer].agent != a || transfers[transfer].acceptedAt.Some?
          || transfers[transfer].cancelledAt.Some?
         || !(a in owners && owners[a] == u) {
        return NotFound;
      }
      transfers := transfers[transfer := transfers[transfer].(cancelledAt := Some(now))];
      return Cancelled;
    }

    /** The agent leaves work before obligations are checked; a blocker throws and rolls that back. */
    method ArchiveAgent(a: AgentId, obligations: bool, now: nat) returns (answer: Answer)
      modifies this
      ensures answer == AnswerOf(old(Contents()), Archive(a, obligations), now)
      ensures Contents() == After(old(Contents()), Archive(a, obligations), now)
    {
      if a !in agents { return NotFound; }
      if agents[a].archivedAt.Some? { return AlreadyArchived; }
      var before := agents;
      agents := agents[a := agents[a].(active := false)];
      if obligations {
        agents := before;
        return Blocked;
      }
      agents := agents[a := agents[a].(active := false, archivedAt := Some(now), revokedAt := Some(now),
          previous := None, previousExpires := None)];
      named := RevokeNamedOf(named, a, now);
      return Archived;
    }
  }
}
