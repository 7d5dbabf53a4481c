/** What the agreement of books and ledger is worth to a ruling, a release and a refund. */
module RulingGuarantees {
  import A = Adjudication
  import R = AdjudicationRuns
  import L = CreditLedger
  import C = CreditRuns
  import E = ContractEscrow
  import opened ContractRulings
  import opened RulingEntries

  /** The ledger covers every milestone of an open contract that the books have not settled, under every legal split. */
  lemma UnsettledIsCovered(j: Joint, c: A.ContractId, m: A.MilestoneId, refund: int)
    requires Inv(j) && c in j.world.books.uses && c !in j.closed && m in j.world.books.uses[c].frozen
    requires !IsSettled(j.world.books.postings, c, m) && 0 <= refund <= j.world.books.uses[c].frozen[m]
    ensures Covers(j.ledger, Releasing(j.world.books.uses[c], c, m, refund))
    ensures j.world.books.uses[c].frozen[m] > 0
  {
    var use := j.world.books.uses[c];
    assert SoundIn(j, c);
    E.EveryUnpaidMilestoneCanBePaid(j.ledger.tables, PartyOf(use, c), use.frozen, m, refund);
  }

  lemma RecordedDisputesAreResolved(w: R.World, id: A.DisputeId)
    requires R.Inv(w) && id in w.operations
    ensures !R.Disputed(w.books, id)
  {
    assert w.operations[id].facts.dispute == id && A.Validate(w.books, w.operations[id]).Some?;
  }

  /**
   * An open dispute is resolved by every ruling that can be distributed, and by no other: the money is there, the
   * record validates, and both sides change in one transaction.
   */
  lemma RulingCommits(j: Joint, e: R.Event)
    requires Inv(j) && e.Resolve? && Arguable(j, e.dispute)
    ensures var d := j.world.books.disputes[e.dispute];
            var use, m := j.world.books.uses[d.contract], d.milestone.value;
            var shares, j' := A.Distribution(e.ruling, use.frozen[m], e.percent), AfterRuling(j, e);
            && (j' != j <==> shares.Some?)
            && (shares.Some? ==>
                  && e.dispute in j'.world.operations && j'.world.operations[e.dispute].facts.ruling == e.ruling
                  && A.Validate(j'.world.books, j'.world.operations[e.dispute]).Some?
                  && j'.ledger == if e.ruling == A.Redo then j.ledger
                                  else C.Apply(j.ledger, Releasing(use, d.contract, m, shares.value.buyer)))
  {
    var d := j.world.books.disputes[e.dispute];
    var use, m := j.world.books.uses[d.contract], d.milestone.value;
    var shares := A.Distribution(e.ruling, use.frozen[m], e.percent);
    if shares.Some? {
      if e.ruling == A.Redo {
        ResolutionRecords(j.world, e);
      } else {
        A.RulingsConserveTheAmount(e.ruling, use.frozen[m], e.percent);
        UnsettledIsCovered(j, d.contract, m, shares.value.buyer);
        ResolutionRecords(j.world, e.(covered := true));
      }
    }
  }

  /** On the side of the books, a resolution that is covered commits and is recorded. */
  lemma ResolutionRecords(w: R.World, e: R.Event)
    requires R.Inv(w) && e.Resolve? && R.Disputed(w.books, e.dispute)
    requires var d := w.books.disputes[e.dispute];
             var amount := w.books.uses[d.contract].frozen[d.milestone.value];
             A.Distribution(e.ruling, amount, e.percent).Some? && (e.ruling == A.Redo || (e.covered && amount > 0))
    ensures var w' := R.Apply(w, e);
            && w' != w && e.dispute in w'.operations && w'.operations[e.dispute].facts.ruling == e.ruling
            && A.Validate(w'.books, w'.operations[e.dispute]).Some?
  {
    if e.dispute in w.operations {
      RecordedDisputesAreResolved(w, e.dispute);
    } else {
      R.ResolutionsRecord(w, e);
    }
  }

  /** The release of an accepted milestone commits as well, once and in full. */
  lemma ReleaseCommits(j: Joint, c: A.ContractId, m: A.MilestoneId, ids: R.Ids)
    requires Inv(j) && c in j.world.books.uses && c !in j.closed && m in j.world.books.uses[c].frozen
    ensures var j' := AfterRelease(j, c, m, ids);
            if IsSettled(j.world.books.postings, c, m) then j' == j
            else
              && IsSettled(j'.world.books.postings, c, m)
              && j'.ledger == C.Apply(j.ledger, Releasing(j.world.books.uses[c], c, m, 0)) && j'.ledger != j.ledger
  {
    var use := j.world.books.uses[c];
    ReleaseRecords(j.world, c, m, Covers(j.ledger, Releasing(use, c, m, 0)), ids);
    if !IsSettled(j.world.books.postings, c, m) {
      UnsettledIsCovered(j, c, m, 0);
      var first, more := DistributionLogs(j.ledger, Releasing(use, c, m, 0));
      assert |C.Apply(j.ledger, Releasing(use, c, m, 0)).tables.entries| > |j.ledger.tables.entries|;
    }
  }

  /** On the side of the books, a release changes them exactly when it is covered and the milestone not yet settled. */
  lemma ReleaseRecords(w: R.World, c: A.ContractId, m: A.MilestoneId, covered: bool, ids: R.Ids)
    requires R.PostingsSound(w.books) && c in w.books.uses && m in w.books.uses[c].frozen
    ensures var w' := R.Apply(w, R.Distribute(c, m, 0, covered, ids));
            if covered && w.books.uses[c].frozen[m] > 0 && !IsSettled(w.books.postings, c, m)
            then w' != w && IsSettled(w'.books.postings, c, m) else w' == w
  {
    var use := w.books.uses[c];
    PayingNeeds(w.books, c, m, covered, ids);
    LegsSettle(w.books.postings, use, c, m, use.frozen[m], 0, ids, c, m);
  }

  /** The books let a milestone be paid exactly when it is covered and not yet settled. */
  lemma PayingNeeds(b: A.Books, c: A.ContractId, m: A.MilestoneId, covered: bool, ids: R.Ids)
    requires R.PostingsSound(b) && c in b.uses && m in b.uses[c].frozen
    ensures R.Pay(b, c, m, 0, covered, ids).Some? <==>
        covered && b.uses[c].frozen[m] > 0 && !IsSettled(b.postings, c, m)
  {
    R.AboutIsPosted(b.postings, c, A.Settlement(m));
    R.AboutIsPosted(b.postings, c, A.Sale(m));
    assert R.MilestoneSound(b, c, m);
  }

  lemma PositiveSum(part: map<A.MilestoneId, int>, k: A.MilestoneId)
    requires k in part && forall i | i in part :: part[i] > 0
    ensures C.Sum(part) > 0
  {
    C.SumRemove(part, k);
    E.SumOfPart(map[], part - {k});
  }

  /**
   * A cancelled or expired contract gets its whole reservation back exactly when none of its milestones has been
   * settled, whatever state the milestones imply.
   */
  lemma RefundCommitsIffUnstarted(j: Joint, c: A.ContractId, id: A.EntryId)
    requires Inv(j) && c in j.world.books.uses && c !in j.closed
    ensures var use, j' := j.world.books.uses[c], AfterClose(j, c, id);
            if forall m | m in use.frozen :: !IsSettled(j.world.books.postings, c, m)
            then j' == Closed(j, c, Refunding(use, c), RefundRow(use, c, id)) && j' != j
            else j' == j
  {
    assert SoundIn(j, c);
    WholeIsCoveredIffUnstarted(j.ledger, j.world.books.postings, c, j.world.books.uses[c]);
  }

  lemma WholeIsCoveredIffUnstarted(w: C.World, ps: seq<A.Posting>, c: A.ContractId, use: A.Use)
    requires C.WorldInv(w) && Sound(w.tables.entries, ps, c, AccountOf(use.buyer), use.frozen, true)
    ensures Covers(w, Refunding(use, c)) <==> forall m | m in use.frozen :: !IsSettled(ps, c, m)
  {
    RemainderIsWholeIffUnpaid(w.tables.entries, ps, c, AccountOf(use.buyer), use.frozen);
    E.ReleasesNeverLackEscrow(w.tables, PartyOf(use, c), Whole(use), Whole(use), L.WholeRefund);
  }

  lemma RemainderIsWholeIffUnpaid(es: seq<L.Entry>, ps: seq<A.Posting>, c: A.ContractId, buyer: L.Principal,
      plan: E.Plan)
    requires C.Logged(es) && Sound(es, ps, c, buyer, plan, true)
    ensures var r, whole := L.ContractRef(c), C.Sum(E.Amounts(plan));
            && L.Safe(whole) && whole > 0 && !L.HasEntry(es, buyer, r, L.ContractSettlement(L.WholeRefund))
            && (L.Remainder(es, buyer, r) >= whole <==> forall m | m in plan :: !IsSettled(ps, c, m))
  {
    var r := L.ContractRef(c);
    var paid := E.Paid(es, buyer, r, plan);
    E.RemainderIsUnpaid(es, buyer, r, plan);
    C.OutstandingCovers(es, es, buyer, r);
    if m :| m in plan && IsSettled(ps, c, m) {
      assert m in paid;
      PositiveSum(paid, m);
    } else {
      assert paid == map[];
    }
  }
}
