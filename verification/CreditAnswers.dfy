/**
 * Exactly when the ledger lets money move, and where it goes, stated on the log: what its entries sum to, and which of
 * them have been posted.
 */
module CreditAnswers {
  import opened Options
  import opened CreditLedger
  import opened CreditRuns
  import E = ContractEscrow

  predicate Posted(es: seq<Entry>, u: Principal, r: Reference, k: Kind) {
    exists i | 0 <= i < |es| :: es[i].user == u && es[i].reference == r && es[i].kind == k
  }

  predicate WholeCents(x: int) { -9_007_199_254_740_991 <= x <= 9_007_199_254_740_991 }

  /** What the entries after the first of a log add for one user. */
  predicate Moves(was: seq<Entry>, now: seq<Entry>, u: Principal, available: int, escrow: int) {
    Available(now, u) == Available(was, u) + available && Escrow(now, u) == Escrow(was, u) + escrow
  }

  lemma OneEntryMoves(es: seq<Entry>, e: Entry, u: Principal)
    ensures Moves(es, es + [e], u, if u == e.user then e.available else 0, if u == e.user then e.escrow else 0)
  {
    LastOf(es, e);
  }

  // ---- one leg ----

  /**
   * A leg goes through exactly for safe amounts that leave neither of the user's sums negative, under a reference and
   * kind the user has not been posted before; a balance may be used up to the last cent.
   */
  lemma LegIff(s: Tables, u: Principal, r: Reference, k: Kind, available: int, escrow: int)
    requires Balanced(s)
    ensures var o := Change(s, u, r, k, available, escrow);
            && (o.Committed? <==>
                  && WholeCents(available) && WholeCents(escrow) && !Posted(s.entries, u, r, k)
                  && 0 <= Available(s.entries, u) + available && 0 <= Escrow(s.entries, u) + escrow)
            && (o.Committed? ==>
                  && Balanced(o.tables) && o.tables.entries == s.entries + [Entry(u, r, k, available, escrow)]
                  && o.tables.deposits == s.deposits && o.tables.receipts == s.receipts)
            && (o == Refused(InsufficientCredit) ==>
                  Available(s.entries, u) + available < 0 || Escrow(s.entries, u) + escrow < 0)
            && (o == Refused(DuplicateEntry) ==> Posted(s.entries, u, r, k))
  {
    assert BalancedFor(s, u);
    var o := Change(s, u, r, k, available, escrow);
    if o.Committed? {
      ChangeIsLeg(s, u, r, k, available, escrow);
      LegKeepsBalances(s, o.tables, Entry(u, r, k, available, escrow));
    }
  }

  lemma PostedAfter(es: seq<Entry>, e: Entry, u: Principal, r: Reference, k: Kind)
    ensures Posted(es + [e], u, r, k) <==> Posted(es, u, r, k) || (e.user == u && e.reference == r && e.kind == k)
  {
    HasAfter(es, e, u, r, k);
    assert Posted(es + [e], u, r, k) <==> HasEntry(es + [e], u, r, k);
    assert Posted(es, u, r, k) <==> HasEntry(es, u, r, k);
  }

  // ---- reservations ----

  predicate Affordable(s: Tables, a: Reservation) {
    && a.total == a.seller + a.fee && a.seller > 0 && a.fee >= 0 && WholeCents(a.total)
    && a.total <= Available(s.entries, a.buyer)
    && !Posted(s.entries, a.buyer, RefOf(a.deal), Purchase)
    && (a.fee > 0 ==> !Posted(s.entries, a.feeRecipient, RefOf(a.deal), Fee))
  }

  /**
   * A reservation commits exactly when its parts add up, the buyer's log covers the whole price, and neither of its
   * entries was posted before.
   */
  lemma ReservationIff(s: Tables, a: Reservation)
    requires Balanced(s)
    ensures Reserve(s, a).Committed? <==> Affordable(s, a)
  {
    var r := RefOf(a.deal);
    assert BalancedFor(s, a.buyer);
    LegIff(s, a.buyer, r, Purchase, -a.total, a.seller);
    var one := Change(s, a.buyer, r, Purchase, -a.total, a.seller);
    if one.Committed? && a.fee > 0 {
      LegIff(one.tables, a.feeRecipient, r, Fee, a.fee, 0);
      PostedAfter(s.entries, Entry(a.buyer, r, Purchase, -a.total, a.seller), a.feeRecipient, r, Fee);
      assert BalancedFor(one.tables, a.feeRecipient);
    }
  }

  /** It takes the total from the buyer, holds the seller's part and pays the fee. */
  lemma ReservationMoves(s: Tables, a: Reservation, u: Principal)
    requires Reserve(s, a).Committed?
    ensures Moves(s.entries, Reserve(s, a).tables.entries, u,
                  (if u == a.buyer then -a.total else 0) + (if u == a.feeRecipient then a.fee else 0),
                  if u == a.buyer then a.seller else 0)
  {
    var s1, e, f := ReserveLegs(s, a);
    OneEntryMoves(s.entries, e, u);
    OneEntryMoves(s1.entries, f, u);
  }

  // ---- settlements and releases ----

  predicate Settleable(s: Tables, t: Trade, buyerMinor: int) {
    && WholeCents(buyerMinor) && 0 <= buyerMinor <= t.total
    && Reserved(s.entries, t.buyer, TradeRef(t.id)) == t.total && Posted(s.entries, t.buyer, TradeRef(t.id), Purchase)
    && !Posted(s.entries, t.buyer, TradeRef(t.id), Settlement)
    && (buyerMinor < t.total ==> !Posted(s.entries, t.seller, TradeRef(t.id), Sale))
  }

  /** A settlement commits exactly once for each matching reservation, with any split of it into whole cents. */
  lemma SettlementIff(s: Tables, t: Trade, buyerMinor: int)
    requires Inv(s)
    ensures Settle(s, t, buyerMinor).Committed? <==> Settleable(s, t, buyerMinor)
  {
    var r := TradeRef(t.id);
    SettlementNeverLacksEscrow(s, t, buyerMinor);
    assert Posted(s.entries, t.buyer, r, Purchase) <==> FindEntry(s.entries, t.buyer, r, Purchase).Some?;
  }

  /** It frees the whole reservation, returns the buyer's part and pays the seller the rest. */
  lemma SettlementMoves(s: Tables, t: Trade, buyerMinor: int, u: Principal)
    requires Settle(s, t, buyerMinor).Committed?
    ensures Moves(s.entries, Settle(s, t, buyerMinor).tables.entries, u,
                  (if u == t.buyer then buyerMinor else 0) + (if u == t.seller then t.total - buyerMinor else 0),
                  if u == t.buyer then -t.total else 0)
  {
    var s1, e, f := SettleLegs(s, t, buyerMinor);
    OneEntryMoves(s.entries, e, u);
    OneEntryMoves(s1.entries, f, u);
  }

  predicate Held(s: Tables, p: Party, minor: int, refund: int, op: Operation) {
    && Posted(s.entries, p.buyer, ContractRef(p.contract), Purchase)
    && WholeCents(minor) && 0 < minor && 0 <= refund <= minor
    && minor <= Remainder(s.entries, p.buyer, ContractRef(p.contract))
    && !Posted(s.entries, p.buyer, ContractRef(p.contract), ContractSettlement(op))
    && (refund < minor ==>
          p.seller.Some? && !Posted(s.entries, p.seller.value, ContractRef(p.contract), ContractSale(op)))
  }

  /**
   * A release from a contract commits exactly when the contract still holds the amount and the operation was not posted
   * before.
   */
  lemma ReleaseIff(s: Tables, p: Party, minor: int, refund: int, op: Operation)
    requires Inv(s)
    ensures Distribute(s, p, minor, refund, op).Committed? <==> Held(s, p, minor, refund, op)
  {
    var r := ContractRef(p.contract);
    E.ReleasesNeverLackEscrow(s, p, minor, refund, op);
    assert Posted(s.entries, p.buyer, r, Purchase) <==> HasEntry(s.entries, p.buyer, r, Purchase);
    assert Posted(s.entries, p.buyer, r, ContractSettlement(op))
        <==> HasEntry(s.entries, p.buyer, r, ContractSettlement(op));
  }

  /** It frees the amount, returns the refund and pays the seller the rest. */
  lemma ReleaseMoves(s: Tables, p: Party, minor: int, refund: int, op: Operation, u: Principal)
    requires Distribute(s, p, minor, refund, op).Committed?
    ensures Moves(s.entries, Distribute(s, p, minor, refund, op).tables.entries, u,
                  (if u == p.buyer then refund else 0) + (if Some(u) == p.seller then minor - refund else 0),
                  if u == p.buyer then -minor else 0)
  {
    var s1, e, f := DistributeLegs(s, p, minor, refund, op);
    OneEntryMoves(s.entries, e, u);
    OneEntryMoves(s1.entries, f, u);
  }

  // ---- transfers to agents ----

  predicate Transferable(s: Tables, owner: Principal, agent: AgentId, minor: int, client: ClientRef, owned: bool) {
    && owned && WholeCents(minor) && minor <= Available(s.entries, owner)
    && (forall i | 0 <= i < |s.entries| ::
        !(s.entries[i].reference == FundingRef(owner, client) && s.entries[i].kind == TransferOut))
    && (owner == AgentWallet(agent) || 0 <= Available(s.entries, AgentWallet(agent)) + minor)
  }

  lemma {:induction false} FoundIfPosted(es: seq<Entry>, r: Reference, k: Kind)
    ensures FindByReference(es, r, k).None? <==> forall i | 0 <= i < |es| :: !(es[i].reference == r && es[i].kind == k)
  {
    if es != [] {
      FoundIfPosted(es[1..], r, k);
      assert es == [es[0]] + es[1..];
      forall i | 0 <= i < |es[1..]| ensures es[1..][i] == es[i + 1] {}
    }
  }

  /**
   * An owner's transfer commits exactly under an unused reference, for an agent the owner has, within what the owner's
   * log sums to, down to the last cent.
   */
  lemma TransferIff(s: Tables, owner: Principal, agent: AgentId, minor: int, client: ClientRef, owned: bool)
    requires Inv(s)
    ensures FundAgent(s, owner, agent, minor, client, owned).Committed?
       <==> Transferable(s, owner, agent, minor, client, owned)
  {
    var r, wallet := FundingRef(owner, client), AgentWallet(agent);
    var first := Entry(owner, r, TransferOut, -minor, 0);
    FoundIfPosted(s.entries, r, TransferOut);
    assert BalancedFor(s, owner) && BalancedFor(s, wallet);
    if FindByReference(s.entries, r, TransferOut).None? {
      NoIncomingWithoutOutgoing(s.entries, r);
      FoundIfPosted(s.entries, r, TransferIn);
      LegIff(s, owner, r, TransferOut, -minor, 0);
      var one := Change(s, owner, r, TransferOut, -minor, 0);
      if one.Committed? {
        LegIff(one.tables, wallet, r, TransferIn, minor, 0);
        PostedAfter(s.entries, first, wallet, r, TransferIn);
        OneEntryMoves(s.entries, first, wallet);
        assert BalancedFor(one.tables, wallet);
      }
    }
  }

  /** The agent gets what the owner gives. */
  lemma TransferMoves(s: Tables, owner: Principal, agent: AgentId, minor: int, client: ClientRef, owned: bool,
      u: Principal)
    requires FundAgent(s, owner, agent, minor, client, owned).Committed?
    ensures Moves(s.entries, FundAgent(s, owner, agent, minor, client, owned).tables.entries, u,
                  (if u == owner then -minor else 0) + (if u == AgentWallet(agent) then minor else 0), 0)
  {
    var s1, e, f := FundLegs(s, owner, agent, minor, client, owned);
    OneEntryMoves(s.entries, e, u);
    OneEntryMoves(s1.entries, f, u);
  }

  // ---- deposits ----

  /**
   * A deposit is opened exactly under a reference its user has not used, on a supported network, for a positive sum.
   */
  lemma OpeningIff(s: Tables, u: Principal, amount: int, payer: Payer, client: ClientRef, id: DepositId,
      supported: bool)
    ensures var o := CreateDeposit(s, u, amount, payer, client, id, supported);
            var unused := forall d | d in s.deposits :: !(s.deposits[d].user == u && s.deposits[d].client == client);
            && (o.Committed? <==> unused && supported && amount > 0 && id !in s.deposits)
            && (o.Committed? ==>
                o.tables == s.(deposits := s.deposits[id := Deposit(u, client, amount, payer, None, false)]))
            && (o.Replayed? <==> exists d | d in s.deposits ::
                  && s.deposits[d].user == u && s.deposits[d].client == client
                  && s.deposits[d].amount == amount && s.deposits[d].payer == payer)
  {
  }

  predicate MayPin(pinned: Option<Hash>, h: Hash) { pinned.None? || pinned.value == h }

  /**
   * A hash is pinned exactly by the deposit's own user, with a payer's proof, to a deposit that has none or this one,
   * and only if no other deposit has it.
   */
  lemma PinningIff(s: Tables, u: Principal, d: DepositId, h: Hash, proofOk: bool)
    ensures var o := SaveHash(s, u, d, h, proofOk);
            && (o.Committed? <==>
                  && d in s.deposits && s.deposits[d].user == u && MayPin(s.deposits[d].hash, h)
                  && !s.deposits[d].confirmed && proofOk
                  && forall e | e in s.deposits && e != d :: s.deposits[e].hash != Some(h))
            && (o.Committed? ==> o.tables == s.(deposits := s.deposits[d := s.deposits[d].(hash := Some(h))]))
            && (o.Replayed? <==>
                  && d in s.deposits && s.deposits[d].user == u && MayPin(s.deposits[d].hash, h)
                  && s.deposits[d].confirmed)
  {
  }

  /**
   * A confirmed transfer credits its deposit exactly while the deposit is pending and no other payment was received
   * with its hash; the user gains the amount of the deposit.
   */
  lemma CreditingIff(s: Tables, u: Principal, d: DepositId, h: Hash, v: Principal)
    requires Inv(s) && d in s.deposits && s.deposits[d].user == u
    ensures var o := CreditDeposit(s, u, d, h);
            && (o.Committed? <==> !s.deposits[d].confirmed && h !in s.receipts && WholeCents(s.deposits[d].amount))
            && (o.Replayed? <==> s.deposits[d].confirmed)
            && (o.Committed? ==>
                  && o.tables.deposits == s.deposits[d := s.deposits[d].(confirmed := true)]
                  && o.tables.receipts == s.receipts + {h}
                  && Moves(s.entries, o.tables.entries, v, if v == u then s.deposits[d].amount else 0, 0))
  {
    var s0, amount := s.(receipts := s.receipts + {h}), s.deposits[d].amount;
    SameMoney(s, s0);
    LegIff(s0, u, DepositRef(d), DepositKind, amount, 0);
    assert BalancedFor(s0, u);
    OneEntryMoves(s.entries, Entry(u, DepositRef(d), DepositKind, amount, 0), v);
    assert s.deposits[d].confirmed <==> HasEntry(s.entries, u, DepositRef(d), DepositKind);
  }
}
