/** Every transaction keeps books and ledger in agreement. */
module RulingSteps {
  import A = Adjudication
  import R = AdjudicationRuns
  import L = CreditLedger
  import C = CreditRuns
  import opened ContractRulings
  import opened RulingEntries

  // ---- every transaction keeps the link ----

  lemma TogetherKeepsContract(j: Joint, we: R.Event, c: A.ContractId, m: A.MilestoneId, refund: int, ids: R.Ids,
      d: A.ContractId)
    requires Linked(j) && c in j.world.books.uses && c !in j.closed && m in j.world.books.uses[c].frozen
    requires d in j.world.books.uses
    requires Pays(j.world, we, c, m, refund, ids) && Covers(j.ledger, Releasing(j.world.books.uses[c], c, m, refund))
    ensures var es := C.Apply(j.ledger, Releasing(j.world.books.uses[c], c, m, refund)).tables.entries;
            Sound(es, R.Apply(j.world, we).books.postings, d, AccountOf(j.world.books.uses[d].buyer),
                  j.world.books.uses[d].frozen, d !in j.closed)
  {
    var use, le := j.world.books.uses[c], Releasing(j.world.books.uses[c], c, m, refund);
    var es, ps, qs := j.ledger.tables.entries, j.world.books.postings, R.Apply(j.world, we).books.postings;
    var first, more := DistributionLogs(j.ledger, le);
    var buyer, plan := AccountOf(j.world.books.uses[d].buyer), j.world.books.uses[d].frozen;
    assert SoundIn(j, d);
    forall n ensures IsSettled(qs, d, n) <==> IsSettled(ps, d, n) || (d == c && n == m) {
      LegsSettle(ps, use, c, m, use.frozen[m], refund, ids, d, n);
    }
    if d == c {
      ReleaseKeepsSound(es, first, ps, qs, c, buyer, plan, m);
    } else {
      QuietEntryKeepsSound(es, first, ps, d, buyer, plan, d !in j.closed);
      PostingsOfOthers(es + [first], ps, qs, d, buyer, plan, d !in j.closed);
    }
    QuietEntriesKeepSound(es + [first], more, qs, d, buyer, plan, d !in j.closed);
  }

  lemma TogetherKeepsLink(j: Joint, we: R.Event, c: A.ContractId, m: A.MilestoneId, refund: int, ids: R.Ids)
    requires Linked(j) && c in j.world.books.uses && c !in j.closed && m in j.world.books.uses[c].frozen
    requires R.Apply(j.world, we) != j.world ==> Pays(j.world, we, c, m, refund, ids)
    ensures Linked(Together(j, we, Releasing(j.world.books.uses[c], c, m, refund)))
  {
    var le := Releasing(j.world.books.uses[c], c, m, refund);
    var j' := Together(j, we, le);
    if j' != j {
      forall d | d in j'.world.books.uses ensures SoundIn(j', d) { TogetherKeepsContract(j, we, c, m, refund, ids, d); }
    }
  }

  /** The same contracts, buyers and frozen amounts. */
  ghost predicate SameUses(us: map<A.ContractId, A.Use>, vs: map<A.ContractId, A.Use>) {
    forall c | c in vs :: c in us && vs[c].buyer == us[c].buyer && vs[c].frozen == us[c].frozen
  }

  /** A step of the books that posts nothing for a milestone and keeps the uses, beside a ledger that stays. */
  lemma BooksAloneKeepLink(j: Joint, we: R.Event)
    requires Linked(j)
    requires R.Apply(j.world, we).books.postings == j.world.books.postings
    requires SameUses(j.world.books.uses, R.Apply(j.world, we).books.uses)
    ensures Linked(j.(world := R.Apply(j.world, we)))
  {
    var j' := j.(world := R.Apply(j.world, we));
    forall d | d in j'.world.books.uses ensures SoundIn(j', d) { assert SoundIn(j, d); }
  }

  lemma PlainStepsPostNothing(w: R.World, we: R.Event)
    requires Plain(we)
    ensures R.Apply(w, we).books.postings == w.books.postings && SameUses(w.books.uses, R.Apply(w, we).books.uses)
  {
  }

  lemma RedoPostsNothing(w: R.World, e: R.Event)
    requires e.Resolve? && e.ruling == A.Redo
    ensures R.Apply(w, e).books.postings == w.books.postings && R.Apply(w, e).books.uses == w.books.uses
  {
  }

  lemma RedoKeepsLink(j: Joint, e: R.Event)
    requires Linked(j) && e.Resolve? && e.ruling == A.Redo
    ensures Linked(j.(world := R.Apply(j.world, e)))
  {
    RedoPostsNothing(j.world, e);
    BooksAloneKeepLink(j, e);
  }

  lemma RulingKeepsLink(j: Joint, e: R.Event)
    requires Linked(j) && e.Resolve? && Arguable(j, e.dispute)
    ensures Linked(AfterRuling(j, e))
  {
    var d := j.world.books.disputes[e.dispute];
    var shares :=
      A.Distribution(e.ruling, j.world.books.uses[d.contract].frozen[d.milestone.value], e.percent);
    if e.ruling == A.Redo {
      RedoKeepsLink(j, e);
    } else if shares.Some? {
      PaidRulingKeepsLink(j, e, d.contract, d.milestone.value, shares.value.buyer);
    }
  }

  lemma PaidRulingKeepsLink(j: Joint, e: R.Event, c: A.ContractId, m: A.MilestoneId, refund: int)
    requires Linked(j) && e.Resolve? && Arguable(j, e.dispute) && e.ruling != A.Redo
    requires var d := j.world.books.disputes[e.dispute]; d.contract == c && d.milestone.value == m
    requires var shares := A.Distribution(e.ruling, j.world.books.uses[c].frozen[m], e.percent);
             shares.Some? && shares.value.buyer == refund
    ensures Linked(PaidRuling(j, e, Releasing(j.world.books.uses[c], c, m, refund)))
  {
    var we := e.(covered := Covers(j.ledger, Releasing(j.world.books.uses[c], c, m, refund)));
    if R.Apply(j.world, we) != j.world { RulingPays(j.world, we); }
    TogetherKeepsLink(j, we, c, m, refund, we.ids);
  }

  lemma ReleaseKeepsLink(j: Joint, c: A.ContractId, m: A.MilestoneId, ids: R.Ids)
    requires Linked(j)
    ensures Linked(AfterRelease(j, c, m, ids))
  {
    if c in j.world.books.uses && c !in j.closed && m in j.world.books.uses[c].frozen {
      var covered := Covers(j.ledger, Releasing(j.world.books.uses[c], c, m, 0));
      if R.Apply(j.world, R.Distribute(c, m, 0, covered, ids)) != j.world { ReleasePays(j.world, c, m, covered, ids); }
      TogetherKeepsLink(j, R.Distribute(c, m, 0, covered, ids), c, m, 0, ids);
    }
  }

  lemma OtherPostingSettlesNothing(ps: seq<A.Posting>, p: A.Posting, c: A.ContractId, n: A.MilestoneId)
    requires p.kind.OtherKind?
    ensures IsSettled(ps + [p], c, n) <==> IsSettled(ps, c, n)
  {
    A.AboutConcat(ps, [p], c, A.Settlement(n));
    R.AboutOne(p, c, A.Settlement(n));
  }

  lemma OtherPostingAppends(w: R.World, p: A.Posting)
    requires p.kind.OtherKind?
    ensures R.Apply(w, R.PostOther(p)).books == w.books.(postings := w.books.postings + [p])
  {
  }

  lemma CloseKeepsLink(j: Joint, c: A.ContractId, id: A.EntryId)
    requires Linked(j)
    ensures Linked(AfterClose(j, c, id))
  {
    if c in j.world.books.uses && c !in j.closed {
      var use := j.world.books.uses[c];
      if Covers(j.ledger, Refunding(use, c)) { ClosingKeepsLink(j, c, Refunding(use, c), RefundRow(use, c, id)); }
    }
  }

  lemma ClosingKeepsLink(j: Joint, c: A.ContractId, le: C.Event, row: A.Posting)
    requires Linked(j) && row.kind.OtherKind?
    requires le.DistributeFor? && le.party.contract == c && le.op == L.WholeRefund && Covers(j.ledger, le)
    ensures Linked(Closed(j, c, le, row))
  {
    var j' := Closed(j, c, le, row);
    OtherPostingAppends(j.world, row);
    var first, more := DistributionLogs(j.ledger, le);
    forall d | d in j'.world.books.uses ensures SoundIn(j', d) { RefundKeepsContract(j, c, row, first, more, d); }
  }

  lemma RefundKeepsContract(j: Joint, c: A.ContractId, row: A.Posting, first: L.Entry, more: seq<L.Entry>,
      d: A.ContractId)
    requires Linked(j) && d in j.world.books.uses && row.kind.OtherKind?
    requires first.reference == L.ContractRef(c) && first.kind == L.ContractSettlement(L.WholeRefund)
    requires forall i | 0 <= i < |more| :: Quiet(more[i], d)
    ensures Sound(j.ledger.tables.entries + [first] + more, j.world.books.postings + [row], d,
                  AccountOf(j.world.books.uses[d].buyer), j.world.books.uses[d].frozen, d !in j.closed + {c})
  {
    var es, ps := j.ledger.tables.entries, j.world.books.postings;
    var buyer, plan, active := AccountOf(j.world.books.uses[d].buyer), j.world.books.uses[d].frozen,
        d !in j.closed + {c};
    assert SoundIn(j, d);
    if d == c {
      RefundKeepsSound(es, first, ps, d, buyer, plan, d !in j.closed);
    } else {
      QuietEntryKeepsSound(es, first, ps, d, buyer, plan, active);
    }
    forall n ensures IsSettled(ps + [row], d, n) <==> IsSettled(ps, d, n) { OtherPostingSettlesNothing(ps, row, d, n); }
    PostingsOfOthers(es + [first], ps, ps + [row], d, buyer, plan, active);
    QuietEntriesKeepSound(es + [first], more, ps + [row], d, buyer, plan, active);
  }

  /** A committed reservation logs its purchase, and a fee if there is one. */
  lemma ReservationLogs(w: C.World, e: Event) returns (first: L.Entry, more: seq<L.Entry>)
    requires e.Open? && Covers(w, Reserving(e))
    ensures C.Apply(w, Reserving(e)).tables.entries == w.tables.entries + [first] + more
    ensures first == L.Entry(AccountOf(e.use.buyer), L.ContractRef(e.contract), L.Purchase, -(e.total + e.fee), e.total)
    ensures forall i, d | 0 <= i < |more| :: Quiet(more[i], d)
  {
    var s1, f, fee := C.ReserveLegs(w.tables, Reserving(e).reservation);
    first := f;
    more := if e.fee == 0 then [] else [fee];
    assert w.tables.entries + [first] + [] == w.tables.entries + [first];
  }

  lemma NewUseOnly(w: R.World, c: A.ContractId, use: A.Use)
    requires c !in w.books.uses
    ensures R.Apply(w, R.AddUse(c, use)).books == w.books.(uses := w.books.uses[c := use])
  {
  }

  lemma OpenKeepsLink(j: Joint, e: Event)
    requires Linked(j) && R.PostingsSound(j.world.books) && C.Logged(j.ledger.tables.entries) && e.Open?
    ensures Linked(AfterOpen(j, e))
  {
    if Fundable(j, e.contract, e.use, e.total) && Covers(j.ledger, Reserving(e)) {
      var j' := Opened(j, e);
      NewUseOnly(j.world, e.contract, e.use);
      var first, more := ReservationLogs(j.ledger, e);
      forall d | d in j'.world.books.uses ensures SoundIn(j', d) { OpenKeepsContract(j, e, first, more, d); }
    }
  }

  lemma OpenKeepsContract(j: Joint, e: Event, first: L.Entry, more: seq<L.Entry>, d: A.ContractId)
    requires Linked(j) && R.PostingsSound(j.world.books) && C.Logged(j.ledger.tables.entries)
    requires e.Open? && Fundable(j, e.contract, e.use, e.total)
    requires d in j.world.books.uses || d == e.contract
    requires first == L.Entry(AccountOf(e.use.buyer), L.ContractRef(e.contract), L.Purchase, -(e.total + e.fee),
        e.total)
    requires forall i | 0 <= i < |more| :: Quiet(more[i], d)
    ensures var use := if d == e.contract then e.use else j.world.books.uses[d];
            Sound(j.ledger.tables.entries + [first] + more, j.world.books.postings, d, AccountOf(use.buyer), use.frozen,
                  d !in j.closed)
  {
    var es, ps := j.ledger.tables.entries, j.world.books.postings;
    var use := if d == e.contract then e.use else j.world.books.uses[d];
    if d == e.contract {
      forall m ensures !IsSettled(ps, d, m) { assert R.MilestoneSound(j.world.books, d, m); }
      ReservationOpensSound(es, first, ps, d, AccountOf(e.use.buyer), e.use.frozen);
    } else {
      assert SoundIn(j, d);
      QuietEntryKeepsSound(es, first, ps, d, AccountOf(use.buyer), use.frozen, d !in j.closed);
    }
    QuietEntriesKeepSound(es + [first], more, ps, d, AccountOf(use.buyer), use.frozen, d !in j.closed);
  }

  /** Any other use of the ledger logs nothing that a reviewed contract reads. */
  lemma MoneyIsQuiet(w: C.World, e: C.Event, c: A.ContractId)
    requires !(e.DistributeFor? && e.party.contract == c)
    requires !(e.ReserveFor? && e.reservation.deal == L.OnContract(c))
    ensures var was, now := w.tables.entries, C.Apply(w, e).tables.entries;
            was <= now && forall i | |was| <= i < |now| :: Quiet(now[i], c)
  {
    match e
    case ReserveFor(_) =>
    case SettleFor(_, _) =>
    case DistributeFor(_, _, _, _) =>
    case Fund(_, _, _, _, _) =>
    case Credit(_, _, _) =>
    case _ =>
  }

  lemma MoneyKeepsLink(j: Joint, e: C.Event)
    requires Linked(j) && !Reserved(j, e)
    ensures Linked(j.(ledger := C.Apply(j.ledger, e)))
  {
    var j' := j.(ledger := C.Apply(j.ledger, e));
    var was, now := j.ledger.tables.entries, j'.ledger.tables.entries;
    forall d | d in j'.world.books.uses ensures SoundIn(j', d) {
      assert SoundIn(j, d);
      MoneyIsQuiet(j.ledger, e, d);
      QuietEntriesKeepSound(was, now[|was|..], j.world.books.postings, d, AccountOf(j.world.books.uses[d].buyer),
                            j.world.books.uses[d].frozen, d !in j.closed);
      assert was + now[|was|..] == now;
    }
  }

  lemma StepKeepsLink(j: Joint, e: Event)
    requires Inv(j)
    ensures Linked(Apply(j, e))
  {
    match e
    case Open(_, _, _, _, _) => OpenKeepsLink(j, e);
    case Rule(r) => if r.Resolve? && Arguable(j, r.dispute) { RulingKeepsLink(j, r); }
    case Release(c, m, ids) => ReleaseKeepsLink(j, c, m, ids);
    case Close(c, id) => CloseKeepsLink(j, c, id);
    case Money(le) => if !Reserved(j, le) { MoneyKeepsLink(j, le); }
    case Casework(we) => if Plain(we) {
        PlainStepsPostNothing(j.world, we);
        BooksAloneKeepLink(j, we);
      }
  }

  // ---- each side by itself ----

  /** Either side of a joint step is a step of its own model, or stays. */
  ghost predicate Projects(j: Joint, after: Joint, we: R.Event, le: C.Event) {
    && (after.world == j.world || after.world == R.Apply(j.world, we))
    && (after.ledger == j.ledger || after.ledger == C.Apply(j.ledger, le))
  }

  lemma RulingProjects(j: Joint, e: R.Event) returns (we: R.Event, le: C.Event)
    requires e.Resolve? && Arguable(j, e.dispute)
    ensures Projects(j, AfterRuling(j, e), we, le)
  {
    var d := j.world.books.disputes[e.dispute];
    var use, m := j.world.books.uses[d.contract], d.milestone.value;
    var shares := A.Distribution(e.ruling, use.frozen[m], e.percent);
    we, le := e, C.ReceiptElsewhere(0);
    if shares.Some? && e.ruling != A.Redo {
      le := Releasing(use, d.contract, m, shares.value.buyer);
      we := e.(covered := Covers(j.ledger, le));
    }
  }

  lemma StepProjects(j: Joint, e: Event) returns (we: R.Event, le: C.Event)
    ensures Projects(j, Apply(j, e), we, le)
  {
    we, le := R.AddMilestone(0, 0), C.ReceiptElsewhere(0);
    match e
    case Open(c, use, _, _, _) => we, le := R.AddUse(c, use), Reserving(e);
    case Rule(r) => if r.Resolve? && Arguable(j, r.dispute) { we, le := RulingProjects(j, r); }
    case Release(c, m, ids) =>
      if c in j.world.books.uses && m in j.world.books.uses[c].frozen {
        le := Releasing(j.world.books.uses[c], c, m, 0);
        we := R.Distribute(c, m, 0, Covers(j.ledger, le), ids);
      }
    case Close(c, id) =>
      if c in j.world.books.uses {
        le := Refunding(j.world.books.uses[c], c);
        we := R.PostOther(RefundRow(j.world.books.uses[c], c, id));
      }
    case Money(other) => le := other;
    case Casework(other) => we := other;
  }

  lemma SidesKeepTheirs(j: Joint, after: Joint, we: R.Event, le: C.Event)
    requires R.Inv(j.world) && C.WorldInv(j.ledger) && Projects(j, after, we, le)
    ensures R.Inv(after.world) && C.WorldInv(after.ledger)
  {
    R.StepKeepsInv(j.world, we);
    C.StepKeepsInv(j.ledger, le);
  }

  lemma StepKeepsInv(j: Joint, e: Event)
    requires Inv(j)
    ensures Inv(Apply(j, e))
  {
    StepKeepsLink(j, e);
    var we, le := StepProjects(j, e);
    SidesKeepTheirs(j, Apply(j, e), we, le);
  }

  // ---- runs ----

  ghost predicate Follows(j: Joint, e: Event, after: Joint) { after == Apply(j, e) }

  ghost predicate Run(js: seq<Joint>, es: seq<Event>) {
    && |js| == |es| + 1
    && Inv(js[0])
    && forall k | 0 <= k < |es| :: Follows(js[k], es[k], js[k + 1])
  }

  lemma NextKeepsInv(j: Joint, e: Event, after: Joint)
    requires Inv(j) && Follows(j, e, after)
    ensures Inv(after)
  {
    StepKeepsInv(j, e);
  }

  lemma {:induction false} ReachableInv(js: seq<Joint>, es: seq<Event>, k: nat)
    requires Run(js, es) && k <= |es|
    ensures Inv(js[k])
  {
    if k > 0 {
      ReachableInv(js, es, k - 1);
      NextKeepsInv(js[k - 1], es[k - 1], js[k]);
    }
  }
}
