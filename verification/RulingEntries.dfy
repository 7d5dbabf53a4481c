/** What single entries of the ledger and postings of the books do to the link between them. */
module RulingEntries {
  import A = Adjudication
  import R = AdjudicationRuns
  import L = CreditLedger
  import C = CreditRuns
  import E = ContractEscrow
  import opened ContractRulings

  // ---- entries and one contract ----

  predicate Quiet(e: L.Entry, c: A.ContractId) {
    e.reference != L.ContractRef(c) || !(e.kind.Purchase? || e.kind.ContractSettlement?)
  }

  lemma QuietEntryKeepsSound(es: seq<L.Entry>, e: L.Entry, ps: seq<A.Posting>, c: A.ContractId, buyer: L.Principal,
      plan: E.Plan, active: bool)
    requires Sound(es, ps, c, buyer, plan, active) && Quiet(e, c)
    ensures Sound(es + [e], ps, c, buyer, plan, active)
  {
    var r := L.ContractRef(c);
    forall v ensures L.HasEntry(es + [e], v, r, L.Purchase) <==> L.HasEntry(es, v, r, L.Purchase) {
      C.HasAfter(es, e, v, r, L.Purchase);
    }
    C.FindAfter(es, e, buyer, r, L.Purchase);
    forall m ensures E.Settled(es + [e], buyer, r, m) <==> E.Settled(es, buyer, r, m) {
      E.SettledAfter(es, e, buyer, r, m);
    }
  }

  lemma {:induction false} QuietEntriesKeepSound(es: seq<L.Entry>, more: seq<L.Entry>, ps: seq<A.Posting>,
      c: A.ContractId, buyer: L.Principal, plan: E.Plan, active: bool)
    requires Sound(es, ps, c, buyer, plan, active) && forall i | 0 <= i < |more| :: Quiet(more[i], c)
    ensures Sound(es + more, ps, c, buyer, plan, active)
  {
    if more == [] {
      assert es + more == es;
    } else {
      var last := |more| - 1;
      QuietEntriesKeepSound(es, more[..last], ps, c, buyer, plan, active);
      QuietEntryKeepsSound(es + more[..last], more[last], ps, c, buyer, plan, active);
      assert es + more == es + more[..last] + [more[last]];
    }
  }

  /** A release of one milestone, posted on both sides. */
  lemma ReleaseKeepsSound(es: seq<L.Entry>, e: L.Entry, ps: seq<A.Posting>, qs: seq<A.Posting>, c: A.ContractId,
      buyer: L.Principal, plan: E.Plan, m: A.MilestoneId)
    requires Sound(es, ps, c, buyer, plan, true) && m in plan
    requires e.user == buyer && e.reference == L.ContractRef(c) && e.kind == L.ContractSettlement(L.OfMilestone(m))
    requires e.escrow == -(plan[m] as int)
    requires forall n :: IsSettled(qs, c, n) <==> IsSettled(ps, c, n) || n == m
    ensures Sound(es + [e], qs, c, buyer, plan, true)
  {
    var r := L.ContractRef(c);
    forall v ensures L.HasEntry(es + [e], v, r, L.Purchase) <==> L.HasEntry(es, v, r, L.Purchase) {
      C.HasAfter(es, e, v, r, L.Purchase);
    }
    C.FindAfter(es, e, buyer, r, L.Purchase);
    forall n ensures E.Settled(es + [e], buyer, r, n) <==> E.Settled(es, buyer, r, n) || n == m {
      E.SettledAfter(es, e, buyer, r, n);
    }
  }

  /** A whole refund settles no milestone; the contract is closed with it. */
  lemma RefundKeepsSound(es: seq<L.Entry>, e: L.Entry, ps: seq<A.Posting>, c: A.ContractId, buyer: L.Principal,
      plan: E.Plan, active: bool)
    requires Sound(es, ps, c, buyer, plan, active)
    requires e.kind == L.ContractSettlement(L.WholeRefund)
    ensures Sound(es + [e], ps, c, buyer, plan, false)
  {
    var r := L.ContractRef(c);
    forall v ensures L.HasEntry(es + [e], v, r, L.Purchase) <==> L.HasEntry(es, v, r, L.Purchase) {
      C.HasAfter(es, e, v, r, L.Purchase);
    }
    C.FindAfter(es, e, buyer, r, L.Purchase);
    forall n ensures E.Settled(es + [e], buyer, r, n) <==> E.Settled(es, buyer, r, n) {
      E.SettledAfter(es, e, buyer, r, n);
    }
  }

  /** The reservation that opens a contract, before which nothing can have been released. */
  lemma ReservationOpensSound(es: seq<L.Entry>, e: L.Entry, ps: seq<A.Posting>, c: A.ContractId, buyer: L.Principal,
      plan: E.Plan)
    requires C.Logged(es) && !C.KindInLog(es, L.ContractRef(c), L.Purchase)
    requires e.user == buyer && e.reference == L.ContractRef(c) && e.kind == L.Purchase
    requires e.escrow == C.Sum(E.Amounts(plan)) && forall m | m in plan :: plan[m] > 0
    requires forall m :: !IsSettled(ps, c, m)
    ensures Sound(es + [e], ps, c, buyer, plan, true)
  {
    var r := L.ContractRef(c);
    forall v ensures L.HasEntry(es + [e], v, r, L.Purchase) <==> v == buyer { C.HasAfter(es, e, v, r, L.Purchase); }
    C.FindAfter(es, e, buyer, r, L.Purchase);
    forall op ensures !L.HasEntry(es, buyer, r, L.ContractSettlement(op)) {
      if L.HasEntry(es, buyer, r, L.ContractSettlement(op)) { E.ReleaseHasPurchase(es, buyer, r, op); }
    }
    forall m ensures !E.Settled(es + [e], buyer, r, m) { E.SettledAfter(es, e, buyer, r, m); }
    forall i | 0 <= i < |es + [e]| ensures E.FollowsPlan((es + [e])[i], buyer, r, plan) {
      assert i < |es| && E.IsRelease(es[i], buyer, r) ==>
          L.HasEntry(es, buyer, r, L.ContractSettlement(es[i].kind.release));
    }
  }

  lemma PostingsOfOthers(es: seq<L.Entry>, ps: seq<A.Posting>, qs: seq<A.Posting>, c: A.ContractId,
      buyer: L.Principal, plan: E.Plan, active: bool)
    requires Sound(es, ps, c, buyer, plan, active)
    requires forall n :: IsSettled(qs, c, n) <==> IsSettled(ps, c, n)
    ensures Sound(es, qs, c, buyer, plan, active)
  {
  }

  // ---- what one transaction writes on each side ----

  lemma LegsSettle(ps: seq<A.Posting>, use: A.Use, c: A.ContractId, m: A.MilestoneId, amount: nat, refund: int,
      ids: R.Ids, d: A.ContractId, n: A.MilestoneId)
    ensures IsSettled(ps + R.Legs(use, c, m, amount, refund, ids), d, n) <==> IsSettled(ps, d, n) || (d == c && n == m)
  {
    var legs := R.Legs(use, c, m, amount, refund, ids);
    A.AboutConcat(ps, legs, d, A.Settlement(n));
    R.AboutLegs(use, c, m, amount, refund, ids, d, n);
  }

  /** What a step of the books that pays for a milestone posts. */
  ghost predicate Pays(w: R.World, we: R.Event, c: A.ContractId, m: A.MilestoneId, refund: int, ids: R.Ids)
    requires c in w.books.uses && m in w.books.uses[c].frozen
  {
    var use, after := w.books.uses[c], R.Apply(w, we).books;
    && after.uses == w.books.uses
    && after.postings == w.books.postings + R.Legs(use, c, m, use.frozen[m], refund, ids)
  }

  lemma RulingPays(w: R.World, e: R.Event)
    requires e.Resolve? && e.ruling != A.Redo && R.Disputed(w.books, e.dispute) && R.Apply(w, e) != w
    ensures var d := w.books.disputes[e.dispute];
            var shares := A.Distribution(e.ruling, w.books.uses[d.contract].frozen[d.milestone.value], e.percent);
            shares.Some? && Pays(w, e, d.contract, d.milestone.value, shares.value.buyer, e.ids)
  {
  }

  lemma ReleasePays(w: R.World, c: A.ContractId, m: A.MilestoneId, covered: bool, ids: R.Ids)
    requires c in w.books.uses && m in w.books.uses[c].frozen
    requires R.Apply(w, R.Distribute(c, m, 0, covered, ids)) != w
    ensures Pays(w, R.Distribute(c, m, 0, covered, ids), c, m, 0, ids)
  {
  }

  /** A committed distribution logs its settlement, and a sale if anything is left for the seller. */
  lemma DistributionLogs(w: C.World, e: C.Event) returns (first: L.Entry, more: seq<L.Entry>)
    requires e.DistributeFor? && Covers(w, e)
    ensures C.Apply(w, e).tables.entries == w.tables.entries + [first] + more
    ensures first == L.Entry(e.party.buyer, L.ContractRef(e.party.contract), L.ContractSettlement(e.op), e.refund,
        -e.released)
    ensures forall i, d | 0 <= i < |more| :: Quiet(more[i], d)
    ensures forall i | 0 <= i < |more| :: more[i].reference == L.ContractRef(e.party.contract)
  {
    var s1, f, g := C.DistributeLegs(w.tables, e.party, e.released, e.refund, e.op);
    first := f;
    more := if e.released == e.refund then [] else [g];
    assert w.tables.entries + [first] + [] == w.tables.entries + [first];
  }
}
