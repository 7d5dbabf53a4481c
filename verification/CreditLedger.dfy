/**
 * The prepaid credit ledger: account rows beside an append-only entry log (lib/account-credit.ts), and the contract
 * escrow held in it (lib/contract-settlement.ts). Amounts are whole cents.
 */
module CreditLedger {
  import opened Options

  type TradeId = nat
  type ContractId = nat
  type MilestoneId = nat
  type DepositId = nat
  type AgentId = nat
  type ClientRef = nat
  type Payer = nat
  type Hash = nat

  const MAX_SAFE_INTEGER: int := 9_007_199_254_740_991

  /** A credit account belongs to a person or to the synthetic user of an agent. */
  datatype Principal = Person(id: nat) | AgentWallet(agent: AgentId)

  /**
   * References of different origins never coincide: trade, contract and deposit ids are generated, agent funding
   * carries a prefix.
   */
  datatype Reference =
    | TradeRef(trade: TradeId)
    | ContractRef(contract: ContractId)
    | DepositRef(deposit: DepositId)
    | FundingRef(owner: Principal, client: ClientRef)

  /** What a release from a contract's escrow is for. */
  datatype Operation = OfMilestone(milestone: MilestoneId) | WholeRefund

  datatype Kind =
    | Purchase | Fee | Settlement | Sale | DepositKind | TransferOut | TransferIn
    | ContractSettlement(release: Operation) | ContractSale(sold: Operation)

  datatype Account = Account(available: int, escrow: int)

  datatype Entry = Entry(user: Principal, reference: Reference, kind: Kind, available: int, escrow: int)

  datatype Deposit = Deposit(user: Principal, client: ClientRef, amount: int, payer: Payer, hash: Option<Hash>,
      confirmed: bool)

  datatype Tables = Tables(accounts: map<Principal, Account>, entries: seq<Entry>, deposits: map<DepositId, Deposit>,
      receipts: set<Hash>)

  datatype Code =
    | InvalidAmount | InsufficientCredit | DuplicateEntry | EscrowMismatch | ReferenceConflict | NotFound | HashConflict
    | InvalidProof | ProofAlreadyUsed | NotOwned | SellerRequired | Unavailable | StorageBusy

  /** A transaction commits whole or is refused and changes nothing; a replay succeeds and changes nothing. */
  datatype Outcome = Committed(tables: Tables) | Replayed | Refused(code: Code)

  predicate Safe(x: int) { -MAX_SAFE_INTEGER <= x <= MAX_SAFE_INTEGER }

  function BalanceOf(s: Tables, u: Principal): Account {
    if u in s.accounts then s.accounts[u] else Account(0, 0)
  }

  predicate HasEntry(es: seq<Entry>, u: Principal, r: Reference, k: Kind) {
    exists i | 0 <= i < |es| :: es[i].user == u && es[i].reference == r && es[i].kind == k
  }

  function FindEntry(es: seq<Entry>, u: Principal, r: Reference, k: Kind): (found: Option<Entry>)
    ensures found.Some? <==> HasEntry(es, u, r, k)
    ensures found.Some? ==>
              found.value in es && found.value.user == u && found.value.reference == r && found.value.kind == k
  {
    if es == [] then None
    else if es[0].user == u && es[0].reference == r && es[0].kind == k then Some(es[0])
    else
      assert forall i | 0 <= i < |es| - 1 :: es[1..][i] == es[i + 1];
      FindEntry(es[1..], u, r, k)
  }

  /** The first entry with this reference and kind, whoever it belongs to. */
  function FindByReference(es: seq<Entry>, r: Reference, k: Kind): Option<Entry> {
    if es == [] then
      None
    else if es[0].reference == r && es[0].kind == k then Some(es[0]) else FindByReference(es[1..], r, k)
  }

  // ---- one leg ----

  /** Moves a balance and logs it, never below zero and never twice for one user, reference and kind. */
  function Change(s: Tables, u: Principal, r: Reference, k: Kind, available: int, escrow: int): Outcome {
    var was := BalanceOf(s, u);
    if !Safe(available) || !Safe(escrow) then Refused(InvalidAmount)
    else if was.available + available < 0 || was.escrow + escrow < 0 then Refused(InsufficientCredit)
    else if HasEntry(s.entries, u, r, k) then Refused(DuplicateEntry)
    else Committed(s.(accounts := s.accounts[u := Account(was.available + available, was.escrow + escrow)],
                      entries := s.entries + [Entry(u, r, k, available, escrow)]))
  }

  // ---- whole transactions ----

  /** Escrow is reserved for a trade, or for a whole contract when it is funded. */
  datatype Deal = OnTrade(trade: TradeId) | OnContract(contract: ContractId)

  function RefOf(d: Deal): Reference { if d.OnTrade? then TradeRef(d.trade) else ContractRef(d.contract) }

  datatype Reservation = Reservation(deal: Deal, buyer: Principal, feeRecipient: Principal, total: int, seller: int,
      fee: int)

  function Reserve(s: Tables, a: Reservation): Outcome {
    if a.total != a.seller + a.fee || a.seller <= 0 || a.fee < 0 then Refused(InvalidAmount)
    else
      var first := Change(s, a.buyer, RefOf(a.deal), Purchase, -a.total, a.seller);
      if first.Refused? || a.fee == 0 then first
      else Change(first.tables, a.feeRecipient, RefOf(a.deal), Fee, a.fee, 0)
  }

  datatype Trade = Trade(id: TradeId, buyer: Principal, seller: Principal, total: int)

  predicate LegalSplit(t: Trade, buyerMinor: int) { Safe(buyerMinor) && 0 <= buyerMinor <= t.total }

  predicate Locked(s: Tables, t: Trade) {
    var lock := FindEntry(s.entries, t.buyer, TradeRef(t.id), Purchase);
    lock.Some? && lock.value.escrow == t.total
  }

  function Settle(s: Tables, t: Trade, buyerMinor: int): Outcome {
    if !LegalSplit(t, buyerMinor) then Refused(InvalidAmount)
    else if !Locked(s, t) then Refused(EscrowMismatch)
    else
      var first := Change(s, t.buyer, TradeRef(t.id), Settlement, buyerMinor, -t.total);
      if first.Refused? || t.total == buyerMinor then first
      else Change(first.tables, t.seller, TradeRef(t.id), Sale, t.total - buyerMinor, 0)
  }

  // ---- contract escrow ----

  /** What the user's entries under a reference leave in escrow. */
  function Remainder(es: seq<Entry>, u: Principal, r: Reference): int {
    if es == [] then 0
    else
      Remainder(es[..|es| - 1], u, r)
      + if es[|es| - 1].user == u && es[|es| - 1].reference == r then es[|es| - 1].escrow else 0
  }

  datatype Party = Party(contract: ContractId, buyer: Principal, seller: Option<Principal>)

  predicate Releasable(s: Tables, p: Party, minor: int, refund: int) {
    && HasEntry(s.entries, p.buyer, ContractRef(p.contract), Purchase)
    && Safe(minor) && 0 < minor && 0 <= refund <= minor
    && Remainder(s.entries, p.buyer, ContractRef(p.contract)) >= minor
  }

  /** Releases part of a contract's escrow: refund goes back to the buyer, the rest to the seller. */
  function Distribute(s: Tables, p: Party, minor: int, refund: int, op: Operation): Outcome {
    var r := ContractRef(p.contract);
    if !Releasable(s, p, minor, refund) then Refused(EscrowMismatch)
    else
      var first := Change(s, p.buyer, r, ContractSettlement(op), refund, -minor);
      if first.Refused? || minor == refund then first
      else if p.seller.None? then Refused(SellerRequired)
      else Change(first.tables, p.seller.value, r, ContractSale(op), minor - refund, 0)
  }

  function FundAgent(s: Tables, owner: Principal, agent: AgentId, minor: int, client: ClientRef, owned: bool): Outcome {
    var r := FundingRef(owner, client);
    if !owned then Refused(NotOwned)
    else
      var prior, destination := FindByReference(s.entries, r, TransferOut), FindByReference(s.entries, r, TransferIn);
      if prior.Some? then
        if prior.value.user != owner || prior.value.available != -minor || destination.None?
            || destination.value.user != AgentWallet(agent)
        then Refused(ReferenceConflict) else Replayed
      else
        var first := Change(s, owner, r, TransferOut, -minor, 0);
        if first.Refused? then first else Change(first.tables, AgentWallet(agent), r, TransferIn, minor, 0)
  }

  // ---- deposits ----

  predicate ClientRefUsed(s: Tables, u: Principal, client: ClientRef, id: DepositId) {
    id in s.deposits && s.deposits[id].user == u && s.deposits[id].client == client
  }

  /** supported is false when the network or the payer's wallet kind is refused. */
  function CreateDeposit(s: Tables, u: Principal, amount: int, payer: Payer, client: ClientRef, newId: DepositId,
      supported: bool): Outcome {
    if exists d | d in s.deposits :: ClientRefUsed(s, u, client, d) then
      if exists d | d in s.deposits ::
          ClientRefUsed(s, u, client, d) && s.deposits[d].amount == amount && s.deposits[d].payer == payer
      then Replayed else Refused(ReferenceConflict)
    else if !supported || amount <= 0 || newId in s.deposits then Refused(Unavailable)
    else Committed(s.(deposits := s.deposits[newId := Deposit(u, client, amount, payer, None, false)]))
  }

  predicate HashTaken(s: Tables, d: DepositId, h: Hash) {
    exists e | e in s.deposits :: e != d && s.deposits[e].hash == Some(h)
  }

  /** The first transaction of a confirmation: pin the hash to the deposit before any chain is asked. */
  function SaveHash(s: Tables, u: Principal, d: DepositId, h: Hash, proofOk: bool): Outcome {
    if d !in s.deposits || s.deposits[d].user != u then Refused(NotFound)
    else
      var intent := s.deposits[d];
      if intent.hash.Some? && intent.hash.value != h then Refused(HashConflict)
      else if intent.confirmed then Replayed
      else if !proofOk then Refused(InvalidProof)
      else if HashTaken(s, d, h) then Refused(HashConflict)
      else Committed(s.(deposits := s.deposits[d := intent.(hash := Some(h))]))
  }

  /** The second transaction, after the chain confirmed the exact transfer: receipt, credit and state together. */
  function CreditDeposit(s: Tables, u: Principal, d: DepositId, h: Hash): Outcome
    requires d in s.deposits
  {
    var intent := s.deposits[d];
    if intent.confirmed then Replayed
    else if h in s.receipts then Refused(ProofAlreadyUsed)
    else
      var credited := Change(s.(receipts := s.receipts + {h}), u, DepositRef(d), DepositKind, intent.amount, 0);
      if credited.Refused? then credited
      else Committed(credited.tables.(deposits := s.deposits[d := intent.(confirmed := true)]))
  }

  // ---- the store ----

  class CreditStore {
    var accounts: map<Principal, Account>
    var entries: seq<Entry>
    var deposits: map<DepositId, Deposit>
    var receipts: set<Hash>

    ghost function Contents(): Tables
      reads this
    {
      Tables(accounts, entries, deposits, receipts)
    }

    /** The outcome describes what this call did to the store. */
    twostate predicate Did(o: Outcome)
      reads this
    {
      if o.Committed? then Contents() == o.tables else Contents() == old(Contents())
    }

    constructor ()
      ensures Contents() == Tables(map[], [], map[], {})
    {
      accounts, entries, deposits, receipts := map[], [], map[], {};
    }

    /** None when the leg went through. */
    method ChangeCredit(u: Principal, r: Reference, k: Kind, available: int, escrow: int) returns (fault: Option<Code>)
      modifies this`accounts, this`entries
      ensures var o := Change(old(Contents()), u, r, k, available, escrow);
              && Did(o)
              && fault == if o.Refused? then Some(o.code) else None
    {
      if !Safe(available) || !Safe(escrow) { return Some(InvalidAmount); }
      var was := if u in accounts then accounts[u] else Account(0, 0);
      if was.available + available < 0 || was.escrow + escrow < 0 { return Some(InsufficientCredit); }
      if HasEntry(entries, u, r, k) { return Some(DuplicateEntry); }
      accounts := accounts[u := Account(was.available + available, was.escrow + escrow)];
      entries := entries + [Entry(u, r, k, available, escrow)];
      return None;
    }

    method Rollback(savedAccounts: map<Principal, Account>, savedEntries: seq<Entry>)
      modifies this`accounts, this`entries
      ensures accounts == savedAccounts && entries == savedEntries
    {
      accounts, entries := savedAccounts, savedEntries;
    }

    method ReserveCredit(a: Reservation) returns (fault: Option<Code>)
      modifies this`accounts, this`entries
      ensures var o := Reserve(old(Contents()), a); Did(o) && fault == if o.Refused? then Some(o.code) else None
    {
      if a.total != a.seller + a.fee || a.seller <= 0 || a.fee < 0 { return Some(InvalidAmount); }
      var savedAccounts, savedEntries := accounts, entries;
      fault := ChangeCredit(a.buyer, RefOf(a.deal), Purchase, -a.total, a.seller);
      if fault.None? && a.fee != 0 {
        fault := ChangeCredit(a.feeRecipient, RefOf(a.deal), Fee, a.fee, 0);
      }
      if fault.Some? { Rollback(savedAccounts, savedEntries); }
    }

    method SettleCredit(t: Trade, buyerMinor: int) returns (fault: Option<Code>)
      modifies this`accounts, this`entries
      ensures var o := Settle(old(Contents()), t, buyerMinor);
      Did(o) && fault == if o.Refused? then Some(o.code) else None
    {
      if !Safe(buyerMinor) || buyerMinor < 0 || buyerMinor > t.total { return Some(InvalidAmount); }
      var lock := FindEntry(entries, t.buyer, TradeRef(t.id), Purchase);
      if lock.None? || lock.value.escrow != t.total { return Some(EscrowMismatch); }
      var savedAccounts, savedEntries := accounts, entries;
      fault := ChangeCredit(t.buyer, TradeRef(t.id), Settlement, buyerMinor, -t.total);
      if fault.None? && t.total > buyerMinor {
        fault := ChangeCredit(t.seller, TradeRef(t.id), Sale, t.total - buyerMinor, 0);
      }
      if fault.Some? { Rollback(savedAccounts, savedEntries); }
    }

    method RemainingEscrow(u: Principal, r: Reference) returns (remaining: int)
      ensures remaining == Remainder(entries, u, r)
    {
      remaining := 0;
      for i := 0 to |entries|
        invariant remaining == Remainder(entries[..i], u, r)
      {
        assert entries[..i + 1][..i] == entries[..i];
        if entries[i].user == u && entries[i].reference == r { remaining := remaining + entries[i].escrow; }
      }
      assert entries[..|entries|] == entries;
    }

    method DistributeCredit(p: Party, minor: int, refund: int, op: Operation) returns (fault: Option<Code>)
      modifies this`accounts, this`entries
      ensures var o := Distribute(old(Contents()), p, minor, refund, op);
      Did(o) && fault == if o.Refused? then Some(o.code) else None
    {
      var r := ContractRef(p.contract);
      var remaining := RemainingEscrow(p.buyer, r);
      var reservation := FindEntry(entries, p.buyer, r, Purchase);
      if reservation.None? || !Safe(minor) || minor <= 0 || refund < 0 || refund > minor || remaining < minor {
        return Some(EscrowMismatch);
      }
      var savedAccounts, savedEntries := accounts, entries;
      fault := ChangeCredit(p.buyer, r, ContractSettlement(op), refund, -minor);
      if fault.None? && minor > refund {
        if p.seller.None? {
          fault := Some(SellerRequired);
        } else {
          fault := ChangeCredit(p.seller.value, r, ContractSale(op), minor - refund, 0);
        }
      }
      if fault.Some? { Rollback(savedAccounts, savedEntries); }
    }

    /** One attempt at an owner-to-agent transfer; replayed tells a repeat of an earlier transfer. */
    method FundOwnedAgentOnce(owner: Principal, agent: AgentId, minor: int, client: ClientRef, owned: bool)
      returns (fault: Option<Code>, replayed: bool)
      modifies this`accounts, this`entries
      ensures var o := FundAgent(old(Contents()), owner, agent, minor, client, owned);
              Did(o) && fault == (if o.Refused? then Some(o.code) else None) && replayed == o.Replayed?
    {
      replayed := false;
      if !owned { return Some(NotOwned), false; }
      var r := FundingRef(owner, client);
      var prior := FindByReference(entries, r, TransferOut);
      if prior.Some? {
        var destination := FindByReference(entries, r, TransferIn);
        if prior.value.user != owner || prior.value.available != -minor || destination.None?
            || destination.value.user != AgentWallet(agent) {
          return Some(ReferenceConflict), false;
        }
        return None, true;
      }
      var savedAccounts, savedEntries := accounts, entries;
      fault := ChangeCredit(owner, r, TransferOut, -minor, 0);
      if fault.None? { fault := ChangeCredit(AgentWallet(agent), r, TransferIn, minor, 0); }
      if fault.Some? { Rollback(savedAccounts, savedEntries); }
    }

    /** busy is how many attempts in a row find the database locked; each is rolled back whole. */
    method FundOwnedAgent(owner: Principal, agent: AgentId, minor: int, client: ClientRef, owned: bool, busy: nat)
      returns (fault: Option<Code>, replayed: bool)
      modifies this`accounts, this`entries
      ensures busy > 4 ==> fault == Some(StorageBusy) && Contents() == old(Contents())
      ensures busy <= 4 ==>
                var o := FundAgent(old(Contents()), owner, agent, minor, client, owned);
                Did(o) && fault == (if o.Refused? then Some(o.code) else None) && replayed == o.Replayed?
    {
      var attempt := 0;
      while attempt < busy
        invariant attempt <= busy && attempt <= 4
        invariant Contents() == old(Contents())
      {
        if attempt >= 4 { return Some(StorageBusy), false; }
        attempt := attempt + 1;
      }
      fault, replayed := FundOwnedAgentOnce(owner, agent, minor, client, owned);
    }

    method OpenDeposit(u: Principal, amount: int, payer: Payer, client: ClientRef, newId: DepositId, supported: bool)
      returns (fault: Option<Code>, replayed: bool)
      modifies this`deposits
      ensures var o := CreateDeposit(old(Contents()), u, amount, payer, client, newId, supported);
              Did(o) && fault == (if o.Refused? then Some(o.code) else None) && replayed == o.Replayed?
    {
      if exists d | d in deposits :: deposits[d].user == u && deposits[d].client == client {
        if exists d | d in deposits ::
            deposits[d].user == u && deposits[d].client == client && deposits[d].amount == amount
            && deposits[d].payer == payer {
          return None, true;
        }
        return Some(ReferenceConflict), false;
      }
      if !supported || amount <= 0 || newId in deposits { return Some(Unavailable), false; }
      deposits := deposits[newId := Deposit(u, client, amount, payer, None, false)];
      return None, false;
    }

    method SaveDepositHash(u: Principal, d: DepositId, h: Hash, proofOk: bool)
      returns (fault: Option<Code>, replayed: bool)
      modifies this`deposits
      ensures var o := SaveHash(old(Contents()), u, d, h, proofOk);
              Did(o) && fault == (if o.Refused? then Some(o.code) else None) && replayed == o.Replayed?
      ensures fault.None? && !replayed ==> d in deposits && deposits[d].user == u && deposits[d].hash == Some(h)
    {
      if d !in deposits || deposits[d].user != u { return Some(NotFound), false; }
      var intent := deposits[d];
      if intent.hash.Some? && intent.hash.value != h { return Some(HashConflict), false; }
      if intent.confirmed { return None, true; }
      if !proofOk { return Some(InvalidProof), false; }
      if exists e | e in deposits :: e != d && deposits[e].hash == Some(h) { return Some(HashConflict), false; }
      deposits := deposits[d := intent.(hash := Some(h))];
      return None, false;
    }

    /** Runs only for a call whose hash was saved and whose transfer the chain confirmed exactly. */
    method CreditSavedDeposit(u: Principal, d: DepositId, h: Hash) returns (fault: Option<Code>, replayed: bool)
      requires d in deposits && deposits[d].user == u && deposits[d].hash == Some(h)
      modifies this
      ensures var o := CreditDeposit(old(Contents()), u, d, h);
              Did(o) && fault == (if o.Refused? then Some(o.code) else None) && replayed == o.Replayed?
    {
      var intent := deposits[d];
      if intent.confirmed { return None, true; }
      if h in receipts { return Some(ProofAlreadyUsed), false; }
      var savedReceipts := receipts;
      receipts := receipts + {h};
      fault := ChangeCredit(u, DepositRef(d), DepositKind, intent.amount, 0);
      if fault.Some? {
        receipts := savedReceipts;
        return fault, false;
      }
      deposits := deposits[d := intent.(confirmed := true)];
      return None, false;
    }
  }
}
