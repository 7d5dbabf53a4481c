/**
 * Admin rulings on original contracts: the split, and the record that pins its postings
 * (lib/contract-original-adjudication.ts).
 */
module Adjudication {
  import opened Options
  import opened JsonValues
  import ContractStates

  type ContractId = nat
  type MilestoneId = nat
  type DisputeId = nat
  type UserId = nat
  type EntryId = nat

  datatype Ruling = Redo | BuyerWin | SellerWin | Split

  datatype Shares = Shares(buyer: int, seller: int)

  /** Math.round: to the nearest integer, halves upward. */
  function Round(x: real): int { (x + 0.5).Floor }

  function ExactSellerShare(amount: nat, percent: real): real { amount as real / 100.0 * percent }

  /** None when the program refuses to compute a distribution. */
  function Distribution(ruling: Ruling, amount: nat, percent: Option<Num>): Option<Shares> {
    match ruling
    case Redo => Some(Shares(0, 0))
    case BuyerWin => Some(Shares(amount, 0))
    case SellerWin => Some(Shares(0, amount))
    case Split =>
      if percent.None? || percent.value.NonFinite? || percent.value.amount < 0.0 || percent.value.amount > 100.0
      then None
      else
        var seller := Round(ExactSellerShare(amount, percent.value.amount));
        Some(Shares(amount - seller, seller))
  }

  /** Every ruling but a redo hands out the frozen amount, whole and in non-negative shares. */
  lemma RulingsConserveTheAmount(ruling: Ruling, amount: nat, percent: Option<Num>)
    requires Distribution(ruling, amount, percent).Some? && ruling != Redo
    ensures var s := Distribution(ruling, amount, percent).value;
            0 <= s.buyer && 0 <= s.seller && s.buyer + s.seller == amount
  {
    if ruling == Split { ShareBounds(amount, percent.value.amount); }
  }

  lemma ShareBounds(amount: nat, percent: real)
    requires 0.0 <= percent <= 100.0
    ensures 0.0 <= ExactSellerShare(amount, percent) <= amount as real
  {
    var unit := amount as real / 100.0;
    assert 0.0 <= unit;
    assert 0.0 <= unit * percent by { Product(unit, 0.0, percent); }
    assert unit * percent <= unit * 100.0 by { Product(unit, percent, 100.0); }
  }

  lemma Product(k: real, a: real, b: real)
    requires 0.0 <= k && a <= b
    ensures k * a <= k * b
  {
  }

  /** A split gives the seller the one whole number of cents within half a cent of the exact share, halves going up. */
  lemma SplitIsTheNearestCent(amount: nat, percent: real, seller: int)
    requires 0.0 <= percent <= 100.0
    ensures Distribution(Split, amount, Some(Finite(percent))) == Some(Shares(amount - seller, seller))
       <==> ExactSellerShare(amount, percent) - 0.5 < seller as real <= ExactSellerShare(amount, percent) + 0.5
  {
  }

  // ---- the record ----

  datatype Kind = Settlement(milestone: MilestoneId) | Sale(milestone: MilestoneId) | OtherKind(name: string)

  datatype Posting = Posting(id: EntryId, user: UserId, reference: ContractId, kind: Kind, available: int, escrow: int)

  datatype Dispute = Dispute(contract: ContractId, milestone: Option<MilestoneId>, resolved: bool,
      ruling: Option<Ruling>, resolvedAt: Option<nat>)

  /** The original reviewed use of a contract, with the amounts frozen at approval. */
  datatype Use = Use(authorization: nat, authorityHash: nat, buyer: UserId, seller: UserId,
      frozen: map<MilestoneId, nat>, remaining: int)

  datatype MilestoneRow = MilestoneRow(contract: ContractId, state: ContractStates.Milestone, submission: Option<nat>)

  datatype Facts = Facts(
    dispute: DisputeId, contract: ContractId, milestone: MilestoneId, authorization: nat, authorityHash: nat,
    buyer: UserId, seller: UserId, decidedBy: UserId, ruling: Ruling, percent: Option<Num>, amount: nat,
    refund: int, credit: int, settlement: Option<EntryId>, sale: Option<EntryId>, resolvedAt: nat)

  /** The decision hash, taken as injective: it determines the facts it was computed from. */
  datatype Digest = Digest(of: Facts)

  datatype Row = Row(facts: Facts, decision: Digest)

  datatype Books = Books(uses: map<ContractId, Use>, disputes: map<DisputeId, Dispute>,
                         milestones: map<MilestoneId, MilestoneRow>, postings: seq<Posting>)

  datatype Report = Report(facts: Facts, postingConfirmed: bool, selected: Option<nat>, state: ContractStates.Milestone,
      remaining: int)

  function About(postings: seq<Posting>, contract: ContractId, kind: Kind): seq<Posting> {
    if postings == [] then []
    else
      (if postings[0].reference == contract && postings[0].kind == kind then [postings[0]] else [])
      + About(postings[1..], contract, kind)
  }

  /** The row agrees with the frozen terms, the resolved dispute and its own hash. */
  predicate MatchesAuthority(b: Books, row: Row) {
    var f := row.facts;
    && f.contract in b.uses
    && f.dispute in b.disputes
    && var use := b.uses[f.contract];
    && var dispute := b.disputes[f.dispute];
    && f.milestone in use.frozen
    && f.authorization == use.authorization && f.authorityHash == use.authorityHash
    && f.buyer == use.buyer && f.seller == use.seller
    && dispute.contract == f.contract && dispute.milestone == Some(f.milestone) && dispute.resolved
    && dispute.ruling == Some(f.ruling) && dispute.resolvedAt == Some(f.resolvedAt)
    && use.frozen[f.milestone] == f.amount
    && row.decision == Digest(f)
    && (f.ruling == Split || f.percent == None)
  }

  /** The log holds exactly the postings this ruling caused. */
  predicate MatchesPostings(postings: seq<Posting>, f: Facts) {
    if f.ruling == Redo then f.settlement == None && f.sale == None
    else
      var entries, sales := About(postings, f.contract, Settlement(f.milestone)),
          About(postings, f.contract, Sale(f.milestone));
      && |entries| == 1 && Some(entries[0].id) == f.settlement && entries[0].user == f.buyer
      && entries[0].available == f.refund && entries[0].escrow == -(f.amount as int)
      && if f.credit != 0 then
           |sales| == 1 && Some(sales[0].id) == f.sale && sales[0].user == f.seller
           && sales[0].available == f.credit && sales[0].escrow == 0
         else sales == [] && f.sale == None
  }

  function Validate(b: Books, row: Row): Option<Report> {
    var f := row.facts;
    if !MatchesAuthority(b, row) then None
    else if Distribution(f.ruling, f.amount, f.percent) != Some(Shares(f.refund, f.credit)) then None
    else if !MatchesPostings(b.postings, f) then None
    else if !(f.milestone in b.milestones && b.milestones[f.milestone].contract == f.contract) then None
    else
      var m := b.milestones[f.milestone];
      Some(Report(f, f.ruling != Redo, m.submission, m.state, b.uses[f.contract].remaining))
  }

  function FirstId(ps: seq<Posting>): Option<EntryId> {
    if ps == [] then None else Some(ps[0].id)
  }

  /** The row that recording a ruling inserts; None when it refuses before inserting. */
  function RulingRow(b: Books, dispute: DisputeId, actor: UserId, percent: Option<Num>): Option<Row> {
    if dispute !in b.disputes then None
    else
      var d := b.disputes[dispute];
      if d.milestone == None || !d.resolved || d.ruling == None || d.resolvedAt == None then None
      else if d.contract !in b.uses || d.milestone.value !in b.uses[d.contract].frozen then None
      else
        var use, m := b.uses[d.contract], d.milestone.value;
        var shares := Distribution(d.ruling.value, use.frozen[m], percent);
        var debit := FirstId(About(b.postings, d.contract, Settlement(m)));
        var sale := FirstId(About(b.postings, d.contract, Sale(m)));
        if shares == None || (d.ruling == Some(Redo) && (debit != None || sale != None)) then None
        else
          var f := Facts(dispute, d.contract, m, use.authorization, use.authorityHash, use.buyer, use.seller, actor,
                         d.ruling.value, percent, use.frozen[m], shares.value.buyer, shares.value.seller, debit, sale,
                             d.resolvedAt.value);
          Some(Row(f, Digest(f)))
  }

  class AdjudicationStore {
    var books: Books
    var operations: map<DisputeId, Row>

    constructor (books: Books)
      ensures this.books == books && operations == map[]
    {
      this.books := books;
      operations := map[];
    }

    /** Inserts the row and validates it inside one transaction: a failed validation leaves nothing behind. */
    method Record(dispute: DisputeId, actor: UserId, percent: Option<Num>) returns (report: Option<Report>)
      modifies this`operations
      ensures report.Some? <==>
              && dispute !in old(operations)
              && RulingRow(books, dispute, actor, percent).Some?
              && Validate(books, RulingRow(books, dispute, actor, percent).value).Some?
      ensures report.Some? ==>
              && report == Validate(books, RulingRow(books, dispute, actor, percent).value)
              && operations == old(operations)[dispute := RulingRow(books, dispute, actor, percent).value]
      ensures report.None? ==> operations == old(operations)
    {
      var row := RulingRow(books, dispute, actor, percent);
      if row.None? || dispute in operations { return None; }
      var before := operations;
      operations := operations[dispute := row.value];
      report := Validate(books, row.value);
      if report.None? { operations := before; }
    }

    /** Reads a recorded ruling back and re-validates it against today's books. */
    method Inspect(dispute: DisputeId) returns (report: Option<Report>)
      ensures report == if dispute in operations then Validate(books, operations[dispute]) else None
    {
      if dispute !in operations { return None; }
      report := Validate(books, operations[dispute]);
    }
  }

  // ---- what a recorded ruling keeps ----

  /**
   * The ruling's own dispute, authority and frozen terms are as they were, and the log has only grown; anything else
   * may differ.
   */
  ghost predicate GrewTo(b: Books, c: Books, row: Row, later: seq<Posting>) {
    var f := row.facts;
    && c.postings == b.postings + later
    && f.dispute in b.disputes && f.dispute in c.disputes && c.disputes[f.dispute] == b.disputes[f.dispute]
    && f.contract in b.uses && f.contract in c.uses
    && c.uses[f.contract].(remaining := 0) == b.uses[f.contract].(remaining := 0)
    && f.milestone in c.milestones && c.milestones[f.milestone].contract == f.contract
  }

  lemma {:induction false} AboutConcat(a: seq<Posting>, b: seq<Posting>, contract: ContractId, kind: Kind)
    ensures About(a + b, contract, kind) == About(a, contract, kind) + About(b, contract, kind)
  {
    if a == [] {
      assert a + b == b;
    } else {
      var rest := a[1..] + b;
      assert (a + b)[1..] == rest && (a + b)[0] == a[0];
      AboutConcat(a[1..], b, contract, kind);
    }
  }

  /**
   * A ruling other than redo keeps validating, with the same facts, exactly as long as nothing further is posted
   * for its own milestone; a redo keeps validating whatever is posted.
   */
  lemma RecordedRulingsSurvive(b: Books, c: Books, row: Row, later: seq<Posting>)
    requires Validate(b, row).Some? && GrewTo(b, c, row, later)
    ensures row.facts.ruling == Redo ==> Validate(c, row).Some?
    ensures row.facts.ruling != Redo ==>
              (Validate(c, row).Some? <==> (About(later, row.facts.contract, Settlement(row.facts.milestone)) == []
                                            && About(later, row.facts.contract, Sale(row.facts.milestone)) == []))
    ensures Validate(c, row).Some? ==>
              && Validate(c, row).value.facts == Validate(b, row).value.facts == row.facts
              && Validate(c, row).value.postingConfirmed == Validate(b, row).value.postingConfirmed
  {
    var f := row.facts;
    AboutConcat(b.postings, later, f.contract, Settlement(f.milestone));
    AboutConcat(b.postings, later, f.contract, Sale(f.milestone));
    var u, w := b.uses[f.contract], c.uses[f.contract];
    assert w.(remaining := 0).frozen == u.(remaining := 0).frozen;
    assert MatchesAuthority(c, row) by {
      assert w.authorization == w.(remaining := 0).authorization && w.authorityHash == w.(remaining := 0).authorityHash;
      assert w.buyer == w.(remaining := 0).buyer && w.seller == w.(remaining := 0).seller;
    }
  }

  function Deltas(ps: seq<Posting>): int {
    if ps == [] then 0 else ps[0].available + ps[0].escrow + Deltas(ps[1..])
  }

  /** The postings a validated ruling pins move the frozen amount out of escrow and nothing else. */
  lemma ValidatedPostingsConserve(b: Books, row: Row)
    requires Validate(b, row).Some? && row.facts.ruling != Redo
    ensures Deltas(About(b.postings, row.facts.contract, Settlement(row.facts.milestone)))
          + Deltas(About(b.postings, row.facts.contract, Sale(row.facts.milestone))) == 0
  {
    var f := row.facts;
    RulingsConserveTheAmount(f.ruling, f.amount, f.percent);
    var entries, sales := About(b.postings, f.contract, Settlement(f.milestone)),
        About(b.postings, f.contract, Sale(f.milestone));
    assert entries[1..] == [] && (sales != [] ==> sales[1..] == []);
  }

  /**
   * Corollary of the injective digest: a stored row altered in any field, the hash left as recorded, no longer
   * validates.
   */
  lemma AlteredRowsAreRefused(b: Books, row: Row, altered: Facts)
    requires Validate(b, row).Some? && altered != row.facts
    ensures Validate(b, row.(facts := altered)).None?
  {
    assert row.decision == Digest(row.facts);
  }

  /** When recording succeeds: the log already holds the postings the ruling implies, and only those. */
  lemma RecordingNeedsItsPostings(b: Books, dispute: DisputeId, actor: UserId, percent: Option<Num>)
    requires RulingRow(b, dispute, actor, percent).Some?
    requires var f := RulingRow(b, dispute, actor, percent).value.facts;
             f.milestone in b.milestones && b.milestones[f.milestone].contract == f.contract
    ensures var row := RulingRow(b, dispute, actor, percent).value;
            Validate(b, row).Some? <==>
              && (row.facts.ruling == Split || percent == None)
              && MatchesPostings(b.postings, row.facts)
  {
  }
}
