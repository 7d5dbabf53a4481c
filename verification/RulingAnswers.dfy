/**
 * Which rulings, releases, refunds and readings succeed and what they write, stated on the rows of books and ledger
 * (app/api/admin/contracts/disputes/[id]/resolve/route.ts, lib/contract-original-adjudication.ts,
 * lib/contract-settlement.ts).
 */
module RulingAnswers {
  import opened Options
  import opened JsonValues
  import S = ContractStates
  import A = Adjudication
  import R = AdjudicationRuns
  import L = CreditLedger
  import C = CreditRuns
  import E = ContractEscrow
  import M = CreditAnswers
  import G = RulingGuarantees
  import opened ContractRulings

  // ---- shares ----

  /** A split needs a finite share from 0 to 100; every other ruling needs none. */
  predicate CanBeShared(ruling: A.Ruling, percent: Option<Num>) {
    ruling != A.Split || (percent.Some? && percent.value.Finite? && 0.0 <= percent.value.amount <= 100.0)
  }

  /** Who gets what of an amount in cents under a ruling. */
  ghost predicate Shared(ruling: A.Ruling, amount: nat, percent: Option<Num>, refund: int, credit: int) {
    match ruling
    case Redo => refund == 0 && credit == 0
    case BuyerWin => refund == amount && credit == 0
    case SellerWin => refund == 0 && credit == amount
    case Split =>
      && percent.Some? && percent.value.Finite? && 0 <= refund && 0 <= credit && refund + credit == amount
      && var exact := amount as real * percent.value.amount / 100.0;
         -0.5 <= exact - credit as real < 0.5
  }

  lemma DistributionIff(ruling: A.Ruling, amount: nat, percent: Option<Num>)
    ensures var d := A.Distribution(ruling, amount, percent);
            && (d.Some? <==> CanBeShared(ruling, percent))
            && (d.Some? ==> Shared(ruling, amount, percent, d.value.buyer, d.value.seller))
  {
    if CanBeShared(ruling, percent) && ruling == A.Split {
      var p := percent.value.amount;
      var seller := A.Round(A.ExactSellerShare(amount, p));
      A.SplitIsTheNearestCent(amount, p, seller);
      A.RulingsConserveTheAmount(ruling, amount, percent);
      ExactShare(amount, p);
    }
  }

  // ---- postings ----

  predicate IsAbout(p: A.Posting, c: A.ContractId, k: A.Kind) { p.reference == c && p.kind == k }

  predicate NothingAbout(ps: seq<A.Posting>, c: A.ContractId, k: A.Kind) {
    forall i | 0 <= i < |ps| :: !IsAbout(ps[i], c, k)
  }

  /** p is the one posting of that kind about the contract, at place i. */
  predicate OnlyAt(ps: seq<A.Posting>, c: A.ContractId, k: A.Kind, p: A.Posting, i: nat) {
    && i < |ps| && ps[i] == p && IsAbout(p, c, k)
    && forall j | 0 <= j < |ps| :: IsAbout(ps[j], c, k) ==> j == i
  }

  predicate OnlyAbout(ps: seq<A.Posting>, c: A.ContractId, k: A.Kind, p: A.Posting) {
    exists i | 0 <= i < |ps| :: OnlyAt(ps, c, k, p, i)
  }

  lemma {:induction false} NothingIff(ps: seq<A.Posting>, c: A.ContractId, k: A.Kind)
    ensures A.About(ps, c, k) == [] <==> NothingAbout(ps, c, k)
  {
    if ps != [] {
      NothingIff(ps[1..], c, k);
      forall i | 0 <= i < |ps[1..]| ensures ps[1..][i] == ps[i + 1] {}
      assert NothingAbout(ps, c, k) <==> !IsAbout(ps[0], c, k) && NothingAbout(ps[1..], c, k);
    }
  }

  lemma {:induction false} OnlyIff(ps: seq<A.Posting>, c: A.ContractId, k: A.Kind, p: A.Posting)
    ensures A.About(ps, c, k) == [p] <==> OnlyAbout(ps, c, k, p)
  {
    if ps != [] {
      OnlyIff(ps[1..], c, k, p);
      NothingIff(ps[1..], c, k);
      forall i | 0 <= i < |ps[1..]| ensures ps[1..][i] == ps[i + 1] {}
      if IsAbout(ps[0], c, k) {
        assert OnlyAt(ps, c, k, p, 0) <==> ps[0] == p && NothingAbout(ps[1..], c, k);
        forall i: nat ensures OnlyAt(ps, c, k, p, i) ==> i == 0 {}
        OneAndNoMore(ps[0], A.About(ps[1..], c, k), p);
      } else {
        forall i: nat ensures OnlyAt(ps, c, k, p, i) ==> i > 0 && OnlyAt(ps[1..], c, k, p, i - 1) {}
        forall i: nat ensures OnlyAt(ps[1..], c, k, p, i) ==> OnlyAt(ps, c, k, p, i + 1) {}
        assert [] + A.About(ps[1..], c, k) == A.About(ps[1..], c, k);
      }
    }
  }

  lemma OneAndNoMore(x: A.Posting, rest: seq<A.Posting>, p: A.Posting)
    ensures [x] + rest == [p] <==> x == p && rest == []
  {
    if [x] + rest == [p] { assert |[x] + rest| == 1 && ([x] + rest)[0] == x; }
    assert [x] + [] == [x];
  }

  // ---- reading a ruling back ----

  /** The log shows the buyer's part of the frozen amount, and the seller's if there is one, each once. */
  predicate PaidOut(ps: seq<A.Posting>, f: A.Facts) {
    && f.settlement.Some?
    && OnlyAbout(ps, f.contract, A.Settlement(f.milestone), A.Posting(f.settlement.value, f.buyer, f.contract,
        A.Settlement(f.milestone), f.refund, -(f.amount as int)))
    && if f.credit == 0 then f.sale.None? && NothingAbout(ps, f.contract, A.Sale(f.milestone))
       else
         && f.sale.Some?
         && OnlyAbout(ps, f.contract, A.Sale(f.milestone), A.Posting(f.sale.value, f.seller, f.contract,
             A.Sale(f.milestone), f.credit, 0))
  }

  lemma PostingsIff(ps: seq<A.Posting>, f: A.Facts)
    ensures A.MatchesPostings(ps, f)
       <==> if f.ruling == A.Redo then f.settlement == None && f.sale == None else PaidOut(ps, f)
  {
    var entries, sales := A.About(ps, f.contract, A.Settlement(f.milestone)),
        A.About(ps, f.contract, A.Sale(f.milestone));
    AllAbout(ps, f.contract, A.Settlement(f.milestone));
    AllAbout(ps, f.contract, A.Sale(f.milestone));
    NothingIff(ps, f.contract, A.Sale(f.milestone));
    if f.settlement.Some? {
      OnlyIff(ps, f.contract, A.Settlement(f.milestone), A.Posting(f.settlement.value, f.buyer, f.contract,
          A.Settlement(f.milestone), f.refund, -(f.amount as int)));
    }
    if f.sale.Some? {
      OnlyIff(ps, f.contract, A.Sale(f.milestone), A.Posting(f.sale.value, f.seller, f.contract,
          A.Sale(f.milestone), f.credit, 0));
    }
  }

  lemma {:induction false} AllAbout(ps: seq<A.Posting>, c: A.ContractId, k: A.Kind)
    ensures forall i | 0 <= i < |A.About(ps, c, k)| :: IsAbout(A.About(ps, c, k)[i], c, k)
  {
    if ps != [] { AllAbout(ps[1..], c, k); }
  }

  /** The ruling itself, without postings, is what recording it again would note. */
  predicate TrueToTheBooks(b: A.Books, row: A.Row) {
    var f := row.facts;
    && f.dispute in b.disputes && f.contract in b.uses
    && b.disputes[f.dispute] == A.Dispute(f.contract, Some(f.milestone), true, Some(f.ruling), Some(f.resolvedAt))
    && f.milestone in b.milestones && b.milestones[f.milestone].contract == f.contract
    && f.milestone in b.uses[f.contract].frozen && b.uses[f.contract].frozen[f.milestone] == f.amount
    && var use := b.uses[f.contract];
       f.authorization == use.authorization && f.authorityHash == use.authorityHash
           && f.buyer == use.buyer && f.seller == use.seller
  }

  /**
   * A recorded ruling is read back exactly while dispute, authority, frozen amount and milestone are those it names,
   * its shares are those the ruling gives, the log shows exactly its postings (a redo names none), and its hash is its
   * own.
   */
  lemma ReadsBackIff(b: A.Books, row: A.Row)
    ensures A.Validate(b, row).Some? <==>
              var f := row.facts;
              && TrueToTheBooks(b, row) && row.decision == A.Digest(f)
              && (f.ruling != A.Split ==> f.percent == None)
              && CanBeShared(f.ruling, f.percent) && Shared(f.ruling, f.amount, f.percent, f.refund, f.credit)
              && (if f.ruling == A.Redo then f.settlement == None && f.sale == None else PaidOut(b.postings, f))
  {
    var f := row.facts;
    DistributionIff(f.ruling, f.amount, f.percent);
    PostingsIff(b.postings, f);
    if CanBeShared(f.ruling, f.percent) && Shared(f.ruling, f.amount, f.percent, f.refund, f.credit) {
      SharesAreUnique(f.ruling, f.amount, f.percent, f.refund, f.credit);
    }
  }

  lemma ExactShare(amount: nat, p: real)
    ensures A.ExactSellerShare(amount, p) == amount as real * p / 100.0
  {
  }

  lemma SharesAreUnique(ruling: A.Ruling, amount: nat, percent: Option<Num>, refund: int, credit: int)
    requires CanBeShared(ruling, percent) && Shared(ruling, amount, percent, refund, credit)
    ensures A.Distribution(ruling, amount, percent) == Some(A.Shares(refund, credit))
  {
    if ruling == A.Split {
      ExactShare(amount, percent.value.amount);
      A.SplitIsTheNearestCent(amount, percent.value.amount, credit);
    }
  }

  // ---- rulings ----

  /** An unresolved dispute about a milestone in dispute of an open contract, nothing of it settled yet. */
  predicate OpenToRuling(j: Joint, id: A.DisputeId, c: A.ContractId, m: A.MilestoneId) {
    var b := j.world.books;
    && id in b.disputes && b.disputes[id].contract == c && b.disputes[id].milestone == Some(m)
    && !b.disputes[id].resolved
    && InOpenContract(j, c, m)
    && m in b.milestones && b.milestones[m].contract == c && b.milestones[m].state == S.InDispute
    && NothingAbout(b.postings, c, A.Settlement(m))
  }

  lemma ArguableIff(j: Joint, id: A.DisputeId, c: A.ContractId, m: A.MilestoneId)
    requires id in j.world.books.disputes ==>
        j.world.books.disputes[id].contract == c && j.world.books.disputes[id].milestone == Some(m)
    ensures Arguable(j, id) <==> OpenToRuling(j, id, c, m)
  {
    NothingIff(j.world.books.postings, c, A.Settlement(m));
  }

  /** A ruling takes effect exactly on such a dispute, with shares that can be computed; the money is always there. */
  lemma RulingIff(j: Joint, e: R.Event, c: A.ContractId, m: A.MilestoneId)
    requires Inv(j) && e.Resolve?
    requires e.dispute in j.world.books.disputes ==>
        && j.world.books.disputes[e.dispute].contract == c && j.world.books.disputes[e.dispute].milestone == Some(m)
    ensures Apply(j, Rule(e)) != j <==> OpenToRuling(j, e.dispute, c, m) && CanBeShared(e.ruling, e.percent)
  {
    ArguableIff(j, e.dispute, c, m);
    if Arguable(j, e.dispute) {
      G.RulingCommits(j, e);
      DistributionIff(e.ruling, j.world.books.uses[c].frozen[m], e.percent);
    }
  }

  function MilestoneAfter(ruling: A.Ruling): S.Milestone {
    match ruling
    case Redo => S.Active
    case BuyerWin => S.Returned
    case SellerWin => S.Paid
    case Split => S.Paid
  }

  /** What a resolution changes in the books. */
  predicate Resolved(b: A.Books, after: A.Books, e: R.Event, c: A.ContractId, m: A.MilestoneId)
    requires e.Resolve? && m in b.milestones
  {
    && after.disputes == b.disputes[e.dispute := A.Dispute(c, Some(m), true, Some(e.ruling), Some(e.now))]
    && after.milestones == b.milestones[m := b.milestones[m].(state := MilestoneAfter(e.ruling))]
    && after.uses == b.uses
  }

  /** Who ruled what, when, on which frozen amount, and how it was shared. */
  ghost predicate Noted(f: A.Facts, e: R.Event, c: A.ContractId, m: A.MilestoneId, amount: nat)
    requires e.Resolve?
  {
    && f.dispute == e.dispute && f.decidedBy == e.actor && f.ruling == e.ruling && f.resolvedAt == e.now
    && f.percent == (if e.ruling == A.Split then e.percent else None)
    && f.contract == c && f.milestone == m && f.amount == amount
    && Shared(e.ruling, amount, e.percent, f.refund, f.credit)
  }

  lemma SettledBooks(b: A.Books, e: R.Event)
    requires e.Resolve? && R.Disputed(b, e.dispute)
    requires R.Settled(b, e.dispute, e.ruling, e.percent, e.now, e.covered, e.ids).Some?
    ensures var c, m := b.disputes[e.dispute].contract, b.disputes[e.dispute].milestone.value;
            Resolved(b, R.Settled(b, e.dispute, e.ruling, e.percent, e.now, e.covered, e.ids).value, e, c, m)
  {
    assert R.StateAfter(e.ruling) == MilestoneAfter(e.ruling);
  }

  lemma RowNotes(b: A.Books, after: A.Books, e: R.Event, c: A.ContractId, m: A.MilestoneId)
    requires e.Resolve? && m in b.milestones && Resolved(b, after, e, c, m) && c in b.uses && m in b.uses[c].frozen
    requires A.RulingRow(after, e.dispute, e.actor, R.RecordedPercent(e.ruling, e.percent)).Some?
    ensures var row := A.RulingRow(after, e.dispute, e.actor, R.RecordedPercent(e.ruling, e.percent)).value;
            Noted(row.facts, e, c, m, b.uses[c].frozen[m])
  {
    DistributionIff(e.ruling, b.uses[c].frozen[m], R.RecordedPercent(e.ruling, e.percent));
  }

  lemma ResolutionWrites(w: R.World, e: R.Event)
    requires e.Resolve? && R.Disputed(w.books, e.dispute) && R.Apply(w, e) != w
    ensures var c, m := w.books.disputes[e.dispute].contract, w.books.disputes[e.dispute].milestone.value;
            var after := R.Apply(w, e);
            && Resolved(w.books, after.books, e, c, m) && e.dispute in after.operations
            && after.operations == w.operations[e.dispute := after.operations[e.dispute]]
            && Noted(after.operations[e.dispute].facts, e, c, m, w.books.uses[c].frozen[m])
  {
    SettledBooks(w.books, e);
    var c, m := w.books.disputes[e.dispute].contract, w.books.disputes[e.dispute].milestone.value;
    RowNotes(w.books, R.Apply(w, e).books, e, c, m);
  }

  /**
   * A ruling resolves the dispute, moves the milestone and nothing else in the books, and records who ruled what, when,
   * on which frozen amount, and how it was shared.
   */
  lemma RulingWrites(j: Joint, e: R.Event, c: A.ContractId, m: A.MilestoneId)
    requires Inv(j) && e.Resolve? && OpenToRuling(j, e.dispute, c, m) && CanBeShared(e.ruling, e.percent)
    ensures var b, after := j.world.books, Apply(j, Rule(e)).world;
            && Resolved(b, after.books, e, c, m) && e.dispute in after.operations
            && after.operations == j.world.operations[e.dispute := after.operations[e.dispute]]
            && Noted(after.operations[e.dispute].facts, e, c, m, b.uses[c].frozen[m])
            && Apply(j, Rule(e)).closed == j.closed
  {
    RulingIff(j, e, c, m);
    ArguableIff(j, e.dispute, c, m);
    var covered := RuledBooks(j, e, c, m);
    ResolutionWrites(j.world, e.(covered := covered));
  }

  /** The step that a ruling takes on the side of the books. */
  lemma RuledBooks(j: Joint, e: R.Event, c: A.ContractId, m: A.MilestoneId) returns (covered: bool)
    requires e.Resolve? && Arguable(j, e.dispute) && Apply(j, Rule(e)) != j
    ensures Apply(j, Rule(e)).world == R.Apply(j.world, e.(covered := covered))
    ensures R.Apply(j.world, e.(covered := covered)) != j.world
  {
    covered := if e.ruling == A.Redo then e.covered else true;
  }

  /** On the ledger it frees the amount, returns the buyer's part and pays the seller's; a redo moves nothing. */
  lemma RulingMoves(j: Joint, e: R.Event, c: A.ContractId, m: A.MilestoneId, u: L.Principal)
    requires Inv(j) && e.Resolve? && OpenToRuling(j, e.dispute, c, m) && CanBeShared(e.ruling, e.percent)
    ensures var after, use := Apply(j, Rule(e)), j.world.books.uses[c];
            var buyer, seller := AccountOf(use.buyer), AccountOf(use.seller);
            && e.dispute in after.world.operations
            && var f := after.world.operations[e.dispute].facts;
               M.Moves(j.ledger.tables.entries, after.ledger.tables.entries, u,
                       (if u == buyer then f.refund else 0) + (if u == seller then f.credit else 0),
                       if u == buyer && e.ruling != A.Redo then -(f.amount as int) else 0)
  {
    RulingWrites(j, e, c, m);
    ArguableIff(j, e.dispute, c, m);
    G.RulingCommits(j, e);
    var amount := j.world.books.uses[c].frozen[m];
    DistributionIff(e.ruling, amount, e.percent);
    var f := Apply(j, Rule(e)).world.operations[e.dispute].facts;
    SharesAreUnique(e.ruling, amount, e.percent, f.refund, f.credit);
    if e.ruling != A.Redo { PaidOutMoves(j, c, m, f.refund, u); }
  }

  lemma PaidOutMoves(j: Joint, c: A.ContractId, m: A.MilestoneId, refund: int, u: L.Principal)
    requires c in j.world.books.uses && m in j.world.books.uses[c].frozen
    requires Covers(j.ledger, Releasing(j.world.books.uses[c], c, m, refund))
    ensures var use := j.world.books.uses[c];
            var after := C.Apply(j.ledger, Releasing(use, c, m, refund));
            var buyer, seller := AccountOf(use.buyer), AccountOf(use.seller);
            M.Moves(j.ledger.tables.entries, after.tables.entries, u,
                    (if u == buyer then refund else 0) + (if u == seller then use.frozen[m] - refund else 0),
                    if u == buyer then -(use.frozen[m] as int) else 0)
  {
    var use := j.world.books.uses[c];
    M.ReleaseMoves(j.ledger.tables, PartyOf(use, c), use.frozen[m], refund, L.OfMilestone(m), u);
  }

  // ---- releases, refunds and openings ----

  predicate InOpenContract(j: Joint, c: A.ContractId, m: A.MilestoneId) {
    c in j.world.books.uses && c !in j.closed && m in j.world.books.uses[c].frozen
  }

  lemma OthersAreNotReleased(j: Joint, c: A.ContractId, m: A.MilestoneId, ids: R.Ids)
    requires !InOpenContract(j, c, m)
    ensures Apply(j, Release(c, m, ids)) == j
  {
  }

  lemma ReleaseStep(j: Joint, c: A.ContractId, m: A.MilestoneId, ids: R.Ids)
    ensures Apply(j, Release(c, m, ids)) == AfterRelease(j, c, m, ids)
  {
  }

  lemma ReleasedUnlessSettled(j: Joint, c: A.ContractId, m: A.MilestoneId, ids: R.Ids)
    requires Inv(j) && InOpenContract(j, c, m)
    ensures AfterRelease(j, c, m, ids) != j <==> !IsSettled(j.world.books.postings, c, m)
  {
    G.ReleaseCommits(j, c, m, ids);
  }

  /** An accepted milestone is released exactly once, while its contract is open. */
  lemma ReleaseIff(j: Joint, c: A.ContractId, m: A.MilestoneId, ids: R.Ids)
    requires Inv(j)
    ensures Apply(j, Release(c, m, ids)) != j
       <==> InOpenContract(j, c, m) && NothingAbout(j.world.books.postings, c, A.Settlement(m))
  {
    if InOpenContract(j, c, m) {
      NothingIff(j.world.books.postings, c, A.Settlement(m));
      ReleasedUnlessSettled(j, c, m, ids);
      ReleaseStep(j, c, m, ids);
    } else {
      OthersAreNotReleased(j, c, m, ids);
    }
  }

  /** The seller gets the whole frozen amount out of what the contract holds. */
  lemma ReleaseMoves(j: Joint, c: A.ContractId, m: A.MilestoneId, ids: R.Ids, u: L.Principal)
    requires Inv(j) && Apply(j, Release(c, m, ids)) != j
    ensures c in j.world.books.uses && m in j.world.books.uses[c].frozen
    ensures var use := j.world.books.uses[c];
            M.Moves(j.ledger.tables.entries, Apply(j, Release(c, m, ids)).ledger.tables.entries, u,
                    if u == AccountOf(use.seller) then use.frozen[m] else 0,
                    if u == AccountOf(use.buyer) then -(use.frozen[m] as int) else 0)
  {
    PaidOutMoves(j, c, m, 0, u);
  }

  /** It changes no use, dispute, milestone or recorded ruling. */
  lemma ReleasesOnlyPost(j: Joint, c: A.ContractId, m: A.MilestoneId, ids: R.Ids)
    ensures var was, now := j.world, Apply(j, Release(c, m, ids)).world;
            && now.operations == was.operations
            && now.books == was.books.(postings := now.books.postings)
            && Apply(j, Release(c, m, ids)).closed == j.closed
  {
  }

  predicate Unstarted(ps: seq<A.Posting>, c: A.ContractId, use: A.Use) {
    forall m | m in use.frozen :: NothingAbout(ps, c, A.Settlement(m))
  }

  lemma UnstartedIff(ps: seq<A.Posting>, c: A.ContractId, use: A.Use)
    ensures Unstarted(ps, c, use) <==> forall m | m in use.frozen :: !IsSettled(ps, c, m)
  {
    forall m ensures IsSettled(ps, c, m) <==> !NothingAbout(ps, c, A.Settlement(m)) {
      NothingIff(ps, c, A.Settlement(m));
    }
  }

  lemma OthersAreNotRefunded(j: Joint, c: A.ContractId, id: A.EntryId)
    requires c !in j.world.books.uses || c in j.closed
    ensures Apply(j, Close(c, id)) == j
  {
  }

  lemma CloseStep(j: Joint, c: A.ContractId, id: A.EntryId)
    ensures Apply(j, Close(c, id)) == AfterClose(j, c, id)
  {
  }

  lemma RefundedIfUnstarted(j: Joint, c: A.ContractId, id: A.EntryId)
    requires Inv(j) && c in j.world.books.uses && c !in j.closed
    ensures AfterClose(j, c, id) != j
       <==> forall m | m in j.world.books.uses[c].frozen :: !IsSettled(j.world.books.postings, c, m)
  {
    G.RefundCommitsIffUnstarted(j, c, id);
  }

  /** A contract is refunded whole exactly while it is open and nothing of it has been settled. */
  lemma RefundIff(j: Joint, c: A.ContractId, id: A.EntryId)
    requires Inv(j)
    ensures Apply(j, Close(c, id)) != j
       <==> && c in j.world.books.uses && c !in j.closed
            && Unstarted(j.world.books.postings, c, j.world.books.uses[c])
  {
    if c in j.world.books.uses && c !in j.closed {
      RefundedIfUnstarted(j, c, id);
      UnstartedIff(j.world.books.postings, c, j.world.books.uses[c]);
      CloseStep(j, c, id);
    } else {
      OthersAreNotRefunded(j, c, id);
    }
  }

  lemma WholeMoves(w: C.World, use: A.Use, c: A.ContractId, u: L.Principal)
    requires Covers(w, Refunding(use, c))
    ensures var whole, buyer := C.Sum(E.Amounts(use.frozen)), AccountOf(use.buyer);
            M.Moves(w.tables.entries, C.Apply(w, Refunding(use, c)).tables.entries, u,
                    if u == buyer then whole else 0, if u == buyer then -whole else 0)
  {
    M.ReleaseMoves(w.tables, PartyOf(use, c), Whole(use), Whole(use), L.WholeRefund, u);
  }

  /** The buyer gets the sum of all milestones back, and the contract is closed. */
  lemma RefundMoves(j: Joint, c: A.ContractId, id: A.EntryId, u: L.Principal)
    requires Apply(j, Close(c, id)) != j
    ensures c in j.world.books.uses && Apply(j, Close(c, id)).closed == j.closed + {c}
    ensures var use := j.world.books.uses[c];
            var whole, buyer := C.Sum(E.Amounts(use.frozen)), AccountOf(use.buyer);
            M.Moves(j.ledger.tables.entries, Apply(j, Close(c, id)).ledger.tables.entries, u,
                    if u == buyer then whole else 0, if u == buyer then -whole else 0)
  {
    WholeMoves(j.ledger, j.world.books.uses[c], c, u);
  }

  function ReservationOf(e: Event): L.Reservation
    requires e.Open?
  {
    L.Reservation(L.OnContract(e.contract), AccountOf(e.use.buyer), e.feeRecipient, e.total + e.fee, e.total, e.fee)
  }

  predicate NeverReserved(es: seq<L.Entry>, r: L.Reference) {
    forall i | 0 <= i < |es| :: !(es[i].reference == r && es[i].kind == L.Purchase)
  }

  lemma FundableIff(j: Joint, c: A.ContractId, use: A.Use, total: int)
    ensures Fundable(j, c, use, total)
       <==> && c !in j.world.books.uses && c !in j.closed
            && NeverReserved(j.ledger.tables.entries, L.ContractRef(c))
            && (forall m | m in use.frozen :: use.frozen[m] > 0) && C.Sum(E.Amounts(use.frozen)) == total
  {
  }

  lemma OpensWhenFunded(j: Joint, e: Event)
    requires e.Open?
    ensures Apply(j, e) != j <==> Fundable(j, e.contract, e.use, e.total) && Covers(j.ledger, Reserving(e))
  {
  }

  lemma CoveredIffAffordable(w: C.World, e: Event)
    requires C.WorldInv(w) && e.Open?
    ensures Covers(w, Reserving(e)) <==> M.Affordable(w.tables, ReservationOf(e))
  {
    M.ReservationIff(w.tables, ReservationOf(e));
  }

  /**
   * A contract is funded exactly once, for milestones of positive amounts that add up to what is reserved, by a buyer
   * whose log covers them and the fee.
   */
  lemma OpeningIff(j: Joint, e: Event)
    requires Inv(j) && e.Open?
    ensures Apply(j, e) != j
       <==> && e.contract !in j.world.books.uses && e.contract !in j.closed
            && NeverReserved(j.ledger.tables.entries, L.ContractRef(e.contract))
            && (forall m | m in e.use.frozen :: e.use.frozen[m] > 0)
            && C.Sum(E.Amounts(e.use.frozen)) == e.total
            && M.Affordable(j.ledger.tables, ReservationOf(e))
  {
    FundableIff(j, e.contract, e.use, e.total);
    OpensWhenFunded(j, e);
    CoveredIffAffordable(j.ledger, e);
  }
}
