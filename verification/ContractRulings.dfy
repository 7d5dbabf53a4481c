/**
 * Rulings and the credit ledger they pay from, run side by side: funding, releases, whole refunds and resolutions each
 * change the books and the ledger in one transaction (lib/contract-settlement.ts,
 * app/api/admin/contracts/disputes/[id]/resolve/route.ts).
 */
module ContractRulings {
  import opened Options
  import A = Adjudication
  import R = AdjudicationRuns
  import L = CreditLedger
  import C = CreditRuns
  import E = ContractEscrow

  /** Every user id, an agent's synthetic one too, names one account. */
  function AccountOf(u: A.UserId): L.Principal { L.Person(u) }

  /** closed holds the contracts that were cancelled or expired before any work; they never leave that state. */
  datatype Joint = Joint(world: R.World, ledger: C.World, closed: set<A.ContractId>)

  datatype Event =
    | Open(contract: A.ContractId, use: A.Use, feeRecipient: L.Principal, total: int, fee: int)
    | Rule(resolution: R.Event)
    | Release(accepted: A.ContractId, milestone: A.MilestoneId, ids: R.Ids)
    | Close(unstarted: A.ContractId, entry: A.EntryId)
    | Money(entries: C.Event)      // any other use of the ledger
    | Casework(change: R.Event)    // milestones, disputes and drawings

  // ---- one transaction over both ----

  function PartyOf(use: A.Use, c: A.ContractId): L.Party {
    L.Party(c, AccountOf(use.buyer), Some(AccountOf(use.seller)))
  }

  function Releasing(use: A.Use, c: A.ContractId, m: A.MilestoneId, refund: int): C.Event
    requires m in use.frozen
  {
    C.DistributeFor(PartyOf(use, c), use.frozen[m], refund, L.OfMilestone(m))
  }

  predicate Covers(w: C.World, e: C.Event) { C.OutcomeOf(w, e).Committed? }

  /** Both sides change, or neither does. */
  function Together(j: Joint, we: R.Event, le: C.Event): Joint {
    var w := R.Apply(j.world, we);
    if w == j.world || !Covers(j.ledger, le) then j else j.(world := w, ledger := C.Apply(j.ledger, le))
  }

  /** A contract in dispute is neither cancelled nor expired. */
  predicate Arguable(j: Joint, dispute: A.DisputeId) {
    R.Disputed(j.world.books, dispute) && j.world.books.disputes[dispute].contract !in j.closed
  }

  function AfterRuling(j: Joint, e: R.Event): Joint
    requires e.Resolve? && Arguable(j, e.dispute)
  {
    var d := j.world.books.disputes[e.dispute];
    var use, m := j.world.books.uses[d.contract], d.milestone.value;
    var shares := A.Distribution(e.ruling, use.frozen[m], e.percent);
    if shares.None? then j
    else if e.ruling == A.Redo then j.(world := R.Apply(j.world, e))
    else PaidRuling(j, e, Releasing(use, d.contract, m, shares.value.buyer))
  }

  function PaidRuling(j: Joint, e: R.Event, le: C.Event): Joint
    requires e.Resolve?
  {
    Together(j, e.(covered := Covers(j.ledger, le)), le)
  }

  function AfterRelease(j: Joint, c: A.ContractId, m: A.MilestoneId, ids: R.Ids): Joint {
    if c !in j.world.books.uses || c in j.closed || m !in j.world.books.uses[c].frozen then j
    else
      var le := Releasing(j.world.books.uses[c], c, m, 0);
      Together(j, R.Distribute(c, m, 0, Covers(j.ledger, le), ids), le)
  }

  ghost function Whole(use: A.Use): int { C.Sum(E.Amounts(use.frozen)) }

  ghost function Refunding(use: A.Use, c: A.ContractId): C.Event {
    C.DistributeFor(PartyOf(use, c), Whole(use), Whole(use), L.WholeRefund)
  }

  ghost function RefundRow(use: A.Use, c: A.ContractId, id: A.EntryId): A.Posting {
    A.Posting(id, use.buyer, c, A.OtherKind("contract_settlement:refund"), Whole(use), -Whole(use))
  }

  function Closed(j: Joint, c: A.ContractId, le: C.Event, row: A.Posting): Joint {
    Joint(R.Apply(j.world, R.PostOther(row)), C.Apply(j.ledger, le), j.closed + {c})
  }

  ghost function AfterClose(j: Joint, c: A.ContractId, id: A.EntryId): Joint {
    if c !in j.world.books.uses || c in j.closed then j
    else
      var use := j.world.books.uses[c];
      if Covers(j.ledger, Refunding(use, c)) then Closed(j, c, Refunding(use, c), RefundRow(use, c, id)) else j
  }

  /** Nothing was reserved for the contract before, and its milestones add up to what is reserved now. */
  ghost predicate Fundable(j: Joint, c: A.ContractId, use: A.Use, total: int) {
    && c !in j.world.books.uses && c !in j.closed
    && !C.KindInLog(j.ledger.tables.entries, L.ContractRef(c), L.Purchase)
    && (forall m | m in use.frozen :: use.frozen[m] > 0) && Whole(use) == total
  }

  function Reserving(e: Event): C.Event
    requires e.Open?
  {
    C.ReserveFor(L.Reservation(L.OnContract(e.contract), AccountOf(e.use.buyer), e.feeRecipient, e.total + e.fee,
                               e.total, e.fee))
  }

  function Opened(j: Joint, e: Event): Joint
    requires e.Open?
  {
    j.(world := R.Apply(j.world, R.AddUse(e.contract, e.use)), ledger := C.Apply(j.ledger, Reserving(e)))
  }

  ghost function AfterOpen(j: Joint, e: Event): Joint
    requires e.Open?
  {
    if Fundable(j, e.contract, e.use, e.total) && Covers(j.ledger, Reserving(e)) then Opened(j, e) else j
  }

  /** Reservations and releases of a reviewed contract are made by the transactions above only. */
  predicate Reserved(j: Joint, e: C.Event) {
    || (e.DistributeFor? && e.party.contract in j.world.books.uses)
    || (e.ReserveFor? && e.reservation.deal.OnContract? && e.reservation.deal.contract in j.world.books.uses)
  }

  predicate Plain(e: R.Event) { e.AddMilestone? || e.MoveMilestone? || e.Draw? || e.OpenDispute? }

  ghost function Apply(j: Joint, e: Event): Joint {
    match e
    case Open(_, _, _, _, _) => AfterOpen(j, e)
    case Rule(r) => if r.Resolve? && Arguable(j, r.dispute) then AfterRuling(j, r) else j
    case Release(c, m, ids) => AfterRelease(j, c, m, ids)
    case Close(c, id) => AfterClose(j, c, id)
    case Money(le) => if Reserved(j, le) then j else j.(ledger := C.Apply(j.ledger, le))
    case Casework(we) => if Plain(we) then j.(world := R.Apply(j.world, we)) else j
  }

  // ---- what links the two ----

  /** A funded contract in the ledger: one reservation, releases that follow its milestones, and the books agreeing. */
  ghost predicate Sound(es: seq<L.Entry>, ps: seq<A.Posting>, c: A.ContractId, buyer: L.Principal, plan: E.Plan,
      active: bool)
  {
    var r := L.ContractRef(c);
    && (forall m | m in plan :: plan[m] > 0)
    && L.HasEntry(es, buyer, r, L.Purchase)
    && (forall v | L.HasEntry(es, v, r, L.Purchase) :: v == buyer)
    && C.Reserved(es, buyer, r) == C.Sum(E.Amounts(plan))
    && (active ==> E.Planned(es, buyer, r, plan))
    && (forall m :: E.Settled(es, buyer, r, m) <==> IsSettled(ps, c, m))
  }

  predicate IsSettled(ps: seq<A.Posting>, c: A.ContractId, m: A.MilestoneId) {
    A.About(ps, c, A.Settlement(m)) != []
  }

  ghost predicate SoundIn(j: Joint, c: A.ContractId)
    requires c in j.world.books.uses
  {
    Sound(j.ledger.tables.entries, j.world.books.postings, c, AccountOf(j.world.books.uses[c].buyer),
          j.world.books.uses[c].frozen, c !in j.closed)
  }

  ghost predicate Linked(j: Joint) { forall c | c in j.world.books.uses :: SoundIn(j, c) }

  ghost predicate Inv(j: Joint) { R.Inv(j.world) && C.WorldInv(j.ledger) && Linked(j) }

  lemma EmptyTablesAreSound()
    ensures Inv(Joint(R.World(A.Books(map[], map[], map[], []), map[]),
                      C.World(L.Tables(map[], [], map[], {}), {}), {}))
  {
    C.EmptyLedgerIsSound();
  }
}
