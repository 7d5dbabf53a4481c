/** What a funded contract's escrow is good for (lib/contract-settlement.ts). */
module ContractEscrow {
  import opened Options
  import opened CreditLedger
  import opened CreditRuns

  // ---- a release never fails for lack of credit ----

  lemma RemaindersAreCovered(s: Tables, p: Party)
    requires Inv(s) && HasEntry(s.entries, p.buyer, ContractRef(p.contract), Purchase)
    ensures Remainder(s.entries, p.buyer, ContractRef(p.contract)) <= BalanceOf(s, p.buyer).escrow
  {
    OutstandingCovers(s.entries, s.entries, p.buyer, ContractRef(p.contract));
    assert BalancedFor(s, p.buyer);
  }

  lemma ReleaseLegCommits(s: Tables, p: Party, minor: int, refund: int, op: Operation)
    requires Inv(s) && Releasable(s, p, minor, refund)
    ensures var first := Change(s, p.buyer, ContractRef(p.contract), ContractSettlement(op), refund, -minor);
            if HasEntry(s.entries, p.buyer, ContractRef(p.contract), ContractSettlement(op)) then
              first == Refused(DuplicateEntry)
            else
              && first.Committed? && Balanced(first.tables)
              && first.tables.entries
                 == s.entries + [Entry(p.buyer, ContractRef(p.contract), ContractSettlement(op), refund, -minor)]
  {
    var r := ContractRef(p.contract);
    RemaindersAreCovered(s, p);
    assert BalancedFor(s, p.buyer);
    if !HasEntry(s.entries, p.buyer, r, ContractSettlement(op)) {
      ChangeIsLeg(s, p.buyer, r, ContractSettlement(op), refund, -minor);
      var first := Change(s, p.buyer, r, ContractSettlement(op), refund, -minor);
      LegKeepsBalances(s, first.tables, Entry(p.buyer, r, ContractSettlement(op), refund, -minor));
    }
  }

  lemma SellerLegCommits(s: Tables, s1: Tables, p: Party, minor: int, refund: int, op: Operation)
    requires Balanced(s1) && p.seller.Some? && Safe(minor) && 0 <= refund < minor
    requires s1.entries == s.entries + [Entry(p.buyer, ContractRef(p.contract), ContractSettlement(op), refund, -minor)]
    ensures var second := Change(s1, p.seller.value, ContractRef(p.contract), ContractSale(op), minor - refund, 0);
            if HasEntry(s.entries, p.seller.value, ContractRef(p.contract), ContractSale(op)) then
              second == Refused(DuplicateEntry)
            else second.Committed?
  {
    var r := ContractRef(p.contract);
    assert BalancedFor(s1, p.seller.value);
    HasAfter(s.entries, Entry(p.buyer, r, ContractSettlement(op), refund, -minor), p.seller.value, r, ContractSale(op));
  }

  /**
   * A release commits exactly when the contract still holds the amount and neither entry was posted before, with a
   * seller to pay whatever does not go back; the buyer's account never lacks the credit.
   */
  lemma ReleasesNeverLackEscrow(s: Tables, p: Party, minor: int, refund: int, op: Operation)
    requires Inv(s)
    ensures Distribute(s, p, minor, refund, op).Committed? <==>
              && Releasable(s, p, minor, refund)
              && !HasEntry(s.entries, p.buyer, ContractRef(p.contract), ContractSettlement(op))
              && (minor == refund
                  || (p.seller.Some? && !HasEntry(s.entries, p.seller.value, ContractRef(p.contract),
                      ContractSale(op))))
    ensures Distribute(s, p, minor, refund, op) != Refused(InsufficientCredit)
  {
    if Releasable(s, p, minor, refund) {
      ReleaseLegCommits(s, p, minor, refund, op);
      var first := Change(s, p.buyer, ContractRef(p.contract), ContractSettlement(op), refund, -minor);
      if first.Committed? && refund < minor && p.seller.Some? {
        SellerLegCommits(s, first.tables, p, minor, refund, op);
      }
    }
  }

  // ---- releases that follow the milestones ----

  /** The frozen amount of every milestone. */
  type Plan = map<MilestoneId, nat>

  predicate FollowsPlan(e: Entry, u: Principal, r: Reference, plan: Plan) {
    e.user == u && e.reference == r && e.kind.ContractSettlement? ==>
      e.kind.release.OfMilestone? && e.kind.release.milestone in plan
          && e.escrow == -(plan[e.kind.release.milestone] as int)
  }

  ghost predicate Planned(es: seq<Entry>, u: Principal, r: Reference, plan: Plan) {
    forall i | 0 <= i < |es| :: FollowsPlan(es[i], u, r, plan)
  }

  function Settled(es: seq<Entry>, u: Principal, r: Reference, m: MilestoneId): bool {
    HasEntry(es, u, r, ContractSettlement(OfMilestone(m)))
  }

  function Paid(es: seq<Entry>, u: Principal, r: Reference, plan: Plan): map<MilestoneId, int> {
    map m | m in plan && Settled(es, u, r, m) :: plan[m]
  }

  lemma SettledAfter(es: seq<Entry>, e: Entry, u: Principal, r: Reference, m: MilestoneId)
    ensures Settled(es + [e], u, r, m) <==>
              Settled(es, u, r, m) || (e.user == u && e.reference == r && e.kind == ContractSettlement(OfMilestone(m)))
  {
    HasAfter(es, e, u, r, ContractSettlement(OfMilestone(m)));
  }

  predicate IsRelease(e: Entry, u: Principal, r: Reference) {
    e.user == u && e.reference == r && e.kind.ContractSettlement?
  }

  lemma OtherEntriesPayNothing(es: seq<Entry>, e: Entry, u: Principal, r: Reference, plan: Plan)
    requires !IsRelease(e, u, r)
    ensures Paid(es + [e], u, r, plan) == Paid(es, u, r, plan)
  {
    forall m ensures Settled(es + [e], u, r, m) <==> Settled(es, u, r, m) { SettledAfter(es, e, u, r, m); }
  }

  lemma ReleasesPayTheirMilestone(es: seq<Entry>, e: Entry, u: Principal, r: Reference, plan: Plan)
    requires IsRelease(e, u, r) && FollowsPlan(e, u, r, plan) && !HasEntry(es, u, r, e.kind)
    ensures Sum(Paid(es + [e], u, r, plan)) == Sum(Paid(es, u, r, plan)) - e.escrow
  {
    var n := e.kind.release.milestone;
    forall m ensures Settled(es + [e], u, r, m) <==> Settled(es, u, r, m) || m == n { SettledAfter(es, e, u, r, m); }
    assert Paid(es + [e], u, r, plan) == Paid(es, u, r, plan)[n := plan[n]];
    assert n !in Paid(es, u, r, plan);
    SumUpdate(Paid(es, u, r, plan), n, plan[n]);
  }

  /** What a contract still holds is what was reserved less the milestones paid. */
  lemma {:induction false} RemainderIsUnpaid(es: seq<Entry>, u: Principal, r: Reference, plan: Plan)
    requires Logged(es) && r.ContractRef? && Planned(es, u, r, plan)
    ensures Remainder(es, u, r) == Reserved(es, u, r) - Sum(Paid(es, u, r, plan))
  {
    if es == [] {
      assert Paid(es, u, r, plan) == map[];
    } else {
      var rest, last := es[..|es| - 1], es[|es| - 1];
      assert es == rest + [last];
      assert Planned(rest, u, r, plan) && FollowsPlan(last, u, r, plan);
      RemainderIsUnpaid(rest, u, r, plan);
      RemainderAfter(rest, last, u, r);
      ReservedAfter(rest, last, u, r);
      if IsRelease(last, u, r) {
        ReleasesPayTheirMilestone(rest, last, u, r, plan);
      } else {
        OtherEntriesPayNothing(rest, last, u, r, plan);
      }
    }
  }

  lemma {:induction false} SumOfPart(part: map<MilestoneId, int>, whole: map<MilestoneId, int>)
    requires forall k | k in part :: k in whole && whole[k] == part[k]
    requires forall k | k in whole :: whole[k] >= 0
    ensures Sum(part) <= Sum(whole)
    decreases |whole|
  {
    if whole == map[] {
      assert part == map[];
    } else {
      var k :| k in whole;
      SumRemove(whole, k);
      assert k !in whole - {k} && |(whole - {k}).Keys| < |whole.Keys| by {
        assert (whole - {k}).Keys == whole.Keys - {k};
      }
      if k in part {
        SumRemove(part, k);
        SumOfPart(part - {k}, whole - {k});
      } else {
        SumOfPart(part, whole - {k});
      }
    }
  }

  function Amounts(plan: Plan): map<MilestoneId, int> { map m | m in plan :: plan[m] }

  /** As long as releases follow the milestones, every milestone not yet settled is still held in full. */
  lemma UnpaidMilestonesAreHeld(es: seq<Entry>, u: Principal, r: Reference, plan: Plan, m: MilestoneId)
    requires Logged(es) && r.ContractRef? && Planned(es, u, r, plan)
    requires Sum(Amounts(plan)) == Reserved(es, u, r) && m in plan && !Settled(es, u, r, m)
    ensures Remainder(es, u, r) >= plan[m]
  {
    RemainderIsUnpaid(es, u, r, plan);
    SumUpdate(Paid(es, u, r, plan), m, plan[m]);
    SumOfPart(Paid(es, u, r, plan)[m := plan[m]], Amounts(plan));
  }

  lemma {:induction false} ReleaseHasPurchase(es: seq<Entry>, u: Principal, r: Reference, op: Operation)
    requires Logged(es) && HasEntry(es, u, r, ContractSettlement(op))
    ensures HasEntry(es, u, r, Purchase)
  {
    var rest, last := es[..|es| - 1], es[|es| - 1];
    assert es == rest + [last];
    HasAfter(rest, last, u, r, ContractSettlement(op));
    HasAfter(rest, last, u, r, Purchase);
    if HasEntry(rest, u, r, ContractSettlement(op)) { ReleaseHasPurchase(rest, u, r, op); }
  }

  /** Behind every contract sale stand a release of the same operation and the reservation it drew on. */
  lemma {:induction false} ContractSaleTrail(es: seq<Entry>, v: Principal, r: Reference, op: Operation)
    returns (buyer: Principal)
    requires Logged(es) && HasEntry(es, v, r, ContractSale(op))
    ensures HasEntry(es, buyer, r, ContractSettlement(op)) && HasEntry(es, buyer, r, Purchase)
  {
    var rest, last := es[..|es| - 1], es[|es| - 1];
    assert es == rest + [last];
    HasAfter(rest, last, v, r, ContractSale(op));
    if HasEntry(rest, v, r, ContractSale(op)) {
      buyer := ContractSaleTrail(rest, v, r, op);
    } else {
      var i :| 0 <= i < |rest| && rest[i].kind == ContractSettlement(op) && rest[i].reference == r;
      buyer := rest[i].user;
      ReleaseHasPurchase(rest, buyer, r, op);
    }
    HasAfter(rest, last, buyer, r, ContractSettlement(op));
    HasAfter(rest, last, buyer, r, Purchase);
  }

  /**
   * A contract funded for its milestones, one buyer and a seller: each milestone not yet settled can still be, with
   * every legal split.
   */
  lemma EveryUnpaidMilestoneCanBePaid(s: Tables, p: Party, plan: Plan, m: MilestoneId, refund: int)
    requires Inv(s) && p.seller.Some?
    requires forall u | HasEntry(s.entries, u, ContractRef(p.contract), Purchase) :: u == p.buyer
    requires HasEntry(s.entries, p.buyer, ContractRef(p.contract), Purchase)
    requires Planned(s.entries, p.buyer, ContractRef(p.contract), plan)
    requires Sum(Amounts(plan)) == Reserved(s.entries, p.buyer, ContractRef(p.contract))
    requires m in plan && !Settled(s.entries, p.buyer, ContractRef(p.contract), m) && 0 < plan[m]
        && 0 <= refund <= plan[m]
    ensures Distribute(s, p, plan[m], refund, OfMilestone(m)).Committed?
  {
    var r := ContractRef(p.contract);
    UnpaidMilestonesAreHeld(s.entries, p.buyer, r, plan, m);
    RemainderBounds(s.entries, p.buyer, r);
    OutstandingCovers(s.entries, s.entries, p.buyer, r);
    if HasEntry(s.entries, p.seller.value, r, ContractSale(OfMilestone(m))) {
      var buyer := ContractSaleTrail(s.entries, p.seller.value, r, OfMilestone(m));
    }
    ReleasesNeverLackEscrow(s, p, plan[m], refund, OfMilestone(m));
  }

  // ---- over runs ----

  /** Every release of this contract by this buyer is of one milestone, for its frozen amount. */
  ghost predicate ReleasesFollow(es: seq<Event>, c: ContractId, u: Principal, plan: Plan) {
    forall k | 0 <= k < |es| && es[k].DistributeFor? && es[k].party.contract == c && es[k].party.buyer == u ::
      es[k].op.OfMilestone? && es[k].op.milestone in plan && es[k].released == plan[es[k].op.milestone]
  }

  predicate OwnRelease(e: Event, c: ContractId, u: Principal) {
    e.DistributeFor? && e.party.contract == c && e.party.buyer == u
  }

  /** Only a distribution releases contract escrow, and only its own amount under its own contract and operation. */
  lemma NewReleases(w: World, e: Event)
    ensures var was, now := w.tables.entries, Apply(w, e).tables.entries;
            forall i | |was| <= i < |now| && now[i].kind.ContractSettlement? ::
              && e.DistributeFor? && now[i].user == e.party.buyer && now[i].reference == ContractRef(e.party.contract)
              && now[i].kind.release == e.op && now[i].escrow == -e.released
  {
    match e
    case ReserveFor(_) =>
    case SettleFor(_, _) =>
    case DistributeFor(_, _, _, _) =>
    case Fund(_, _, _, _, _) =>
    case Credit(_, _, _) =>
    case _ =>
  }

  lemma StepKeepsPlan(w: World, e: Event, c: ContractId, u: Principal, plan: Plan)
    requires Planned(w.tables.entries, u, ContractRef(c), plan)
    requires OwnRelease(e, c, u) ==> e.op.OfMilestone? && e.op.milestone in plan && e.released == plan[e.op.milestone]
    ensures Planned(Apply(w, e).tables.entries, u, ContractRef(c), plan)
  {
    var was, now := w.tables.entries, Apply(w, e).tables.entries;
    StepGrowsLog(w, e);
    NewReleases(w, e);
    forall i | 0 <= i < |now| ensures FollowsPlan(now[i], u, ContractRef(c), plan) {
      if i < |was| { assert now[i] == was[i]; }
    }
  }

  lemma {:induction false} PlansAreKept(ws: seq<World>, es: seq<Event>, c: ContractId, u: Principal, plan: Plan, i: nat,
      j: nat)
    requires Run(ws, es) && i <= j <= |es| && ReleasesFollow(es, c, u, plan)
    requires Planned(ws[i].tables.entries, u, ContractRef(c), plan)
    ensures Planned(ws[j].tables.entries, u, ContractRef(c), plan)
    decreases j - i
  {
    if i < j {
      StepKeepsPlan(ws[i], es[i], c, u, plan);
      PlansAreKept(ws, es, c, u, plan, i + 1, j);
    }
  }
}
