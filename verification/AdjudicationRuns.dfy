/**
 * What recorded rulings are worth over whole runs: uses, disputes and postings keep growing, milestones keep moving,
 * and the same milestone may be disputed and ruled on again (app/api/admin/contracts/disputes,
 * lib/contract-settlement.ts).
 */
module AdjudicationRuns {
  import opened Options
  import opened JsonValues
  import opened Adjudication
  import ContractStates

  datatype World = World(books: Books, operations: map<DisputeId, Row>)

  /** The ids generated for the entries of one distribution. */
  datatype Ids = Ids(settlement: EntryId, sale: EntryId)

  datatype Event =
    | AddUse(contract: ContractId, use: Use)
    | AddMilestone(newMilestone: MilestoneId, owner: ContractId)
    | MoveMilestone(milestone: MilestoneId, state: ContractStates.Milestone, submission: Option<nat>)
    | Draw(drawn: ContractId, remaining: int)
    | OpenDispute(id: DisputeId, disputed: ContractId, about: MilestoneId)
    | Resolve(dispute: DisputeId, ruling: Ruling, percent: Option<Num>, actor: UserId, now: nat, covered: bool,
        ids: Ids)
    | Distribute(released: ContractId, of: MilestoneId, refund: nat, enough: bool, entries: Ids)
    | PostOther(posting: Posting)

  // ---- postings ----

  predicate Posted(ps: seq<Posting>, user: UserId, c: ContractId, k: Kind) {
    exists i | 0 <= i < |ps| :: ps[i].user == user && ps[i].reference == c && ps[i].kind == k
  }

  /** One distribution of a milestone's amount: the buyer's leg, and the seller's if anything is left for the seller. */
  function Legs(use: Use, c: ContractId, m: MilestoneId, amount: nat, refund: int, ids: Ids): seq<Posting> {
    [Posting(ids.settlement, use.buyer, c, Settlement(m), refund, -(amount as int))]
    + if amount > refund then [Posting(ids.sale, use.seller, c, Sale(m), amount - refund, 0)] else []
  }

  /** Refused without escrow to cover it, and by the unique index on user, reference and kind. */
  function Pay(b: Books, c: ContractId, m: MilestoneId, refund: int, covered: bool, ids: Ids): Option<Books>
    requires c in b.uses && m in b.uses[c].frozen
  {
    var use, amount := b.uses[c], b.uses[c].frozen[m];
    if !covered || amount == 0 || refund < 0 || refund > amount then None
    else if Posted(b.postings, use.buyer, c, Settlement(m)) then None
    else if amount > refund && Posted(b.postings, use.seller, c, Sale(m)) then None
    else Some(b.(postings := b.postings + Legs(use, c, m, amount, refund, ids)))
  }

  // ---- resolving a dispute ----

  predicate Disputed(b: Books, id: DisputeId) {
    && id in b.disputes
    && var d := b.disputes[id];
       && !d.resolved && d.milestone.Some?
       && d.contract in b.uses && d.milestone.value in b.uses[d.contract].frozen
       && d.milestone.value in b.milestones && b.milestones[d.milestone.value].contract == d.contract
       && b.milestones[d.milestone.value].state == ContractStates.InDispute
       && About(b.postings, d.contract, Settlement(d.milestone.value)) == []
  }

  /** A share is recorded only with a split. */
  function RecordedPercent(ruling: Ruling, percent: Option<Num>): Option<Num> {
    if ruling == Split then percent else None
  }

  function StateAfter(ruling: Ruling): ContractStates.Milestone {
    match ruling
    case Redo => ContractStates.Active
    case BuyerWin => ContractStates.Returned
    case _ => ContractStates.Paid
  }

  /**
   * The books once the dispute is resolved, the money distributed and the milestone moved; None when the distribution
   * is refused.
   */
  function Settled(b: Books, id: DisputeId, ruling: Ruling, percent: Option<Num>, now: nat, covered: bool,
      ids: Ids): Option<Books>
    requires Disputed(b, id)
  {
    var d := b.disputes[id];
    var c, m := d.contract, d.milestone.value;
    var shares := Distribution(ruling, b.uses[c].frozen[m], percent);
    var paid :=
      if shares.None? then None
      else if ruling == Redo then Some(b)
      else Pay(b, c, m, shares.value.buyer, covered, ids);
    if paid.None? then None
    else
      Some(paid.value.(disputes := b.disputes[id := d.(resolved := true, ruling := Some(ruling),
          resolvedAt := Some(now))],
                       milestones := b.milestones[m := b.milestones[m].(state := StateAfter(ruling))]))
  }

  /** The whole resolving transaction: it commits only if the ruling it records validates. */
  function AfterResolve(w: World, e: Event): World
    requires e.Resolve?
  {
    if !Disputed(w.books, e.dispute) then w
    else
      var settled := Settled(w.books, e.dispute, e.ruling, e.percent, e.now, e.covered, e.ids);
      if settled.None? || e.dispute in w.operations then w
      else
        var row := RulingRow(settled.value, e.dispute, e.actor, RecordedPercent(e.ruling, e.percent));
        if row.None? || Validate(settled.value, row.value).None? then w
        else World(settled.value, w.operations[e.dispute := row.value])
  }

  function Apply(w: World, e: Event): World {
    var b := w.books;
    match e
    case AddUse(c, use) => if c in b.uses then w else w.(books := b.(uses := b.uses[c := use]))
    case AddMilestone(m, c) =>
      if m in b.milestones then
        w
      else w.(books := b.(milestones := b.milestones[m := MilestoneRow(c, ContractStates.Pending, None)]))
    case MoveMilestone(m, state, x) =>
      if m in b.milestones then
        w.(books := b.(milestones := b.milestones[m := b.milestones[m].(state := state, submission := x)]))
      else w
    case Draw(c, remaining) =>
      if c in b.uses then w.(books := b.(uses := b.uses[c := b.uses[c].(remaining := remaining)])) else w
    case OpenDispute(id, c, m) =>
      if id in b.disputes then
        w
      else w.(books := b.(disputes := b.disputes[id := Dispute(c, Some(m), false, None, None)]))
    case Resolve(_, _, _, _, _, _, _) => AfterResolve(w, e)
    case Distribute(c, m, refund, enough, ids) =>
      if c in b.uses && m in b.uses[c].frozen then
        var paid := Pay(b, c, m, refund, enough, ids);
        if paid.Some? then w.(books := paid.value) else w
      else w
    case PostOther(p) => if p.kind.OtherKind? then w.(books := b.(postings := b.postings + [p])) else w
  }

  // ---- the invariant ----

  /** A milestone is settled at most once, by its contract's buyer, and sold at most once, behind a settlement. */
  predicate MilestoneSound(b: Books, c: ContractId, m: MilestoneId) {
    var settled, sold := About(b.postings, c, Settlement(m)), About(b.postings, c, Sale(m));
    && |settled| <= 1 && |sold| <= |settled|
    && (settled != [] ==> c in b.uses && settled[0].user == b.uses[c].buyer)
  }

  ghost predicate PostingsSound(b: Books) { forall c, m :: MilestoneSound(b, c, m) }

  /** Every recorded ruling belongs to its resolved dispute and validates against the books. */
  ghost predicate RulingsStand(w: World) {
    forall id | id in w.operations :: w.operations[id].facts.dispute == id && Validate(w.books, w.operations[id]).Some?
  }

  ghost predicate Inv(w: World) { PostingsSound(w.books) && RulingsStand(w) }

  ghost predicate Run(ws: seq<World>, es: seq<Event>) {
    && |ws| == |es| + 1
    && Inv(ws[0])
    && forall k | 0 <= k < |es| :: ws[k + 1] == Apply(ws[k], es[k])
  }

  /** Empty tables are a sound start. */
  lemma EmptyTablesAreSound()
    ensures Inv(World(Books(map[], map[], map[], []), map[]))
  {
  }

  // ---- how postings grow ----

  lemma AboutOne(p: Posting, c: ContractId, k: Kind)
    ensures About([p], c, k) == if p.reference == c && p.kind == k then [p] else []
  {
    assert [p][1..] == [];
  }

  lemma {:induction false} AboutIsPosted(ps: seq<Posting>, c: ContractId, k: Kind)
    ensures forall p | p in About(ps, c, k) :: p in ps && p.reference == c && p.kind == k && Posted(ps, p.user, c, k)
    ensures About(ps, c, k) == [] ==> forall u :: !Posted(ps, u, c, k)
    ensures About(ps, c, k) != [] ==> Posted(ps, About(ps, c, k)[0].user, c, k)
  {
    if ps != [] {
      AboutIsPosted(ps[1..], c, k);
      assert ps == [ps[0]] + ps[1..];
      forall u ensures Posted(ps, u, c, k) <==>
          Posted(ps[1..], u, c, k) || (ps[0].user == u && ps[0].reference == c && ps[0].kind == k) {
        if Posted(ps[1..], u, c, k) {
          var i :| 0 <= i < |ps[1..]| && ps[1..][i].user == u && ps[1..][i].reference == c && ps[1..][i].kind == k;
          assert ps[i + 1] == ps[1..][i];
        }
        if i :| 0 <= i < |ps| && ps[i].user == u && ps[i].reference == c && ps[i].kind == k {
          if i > 0 { assert ps[1..][i - 1] == ps[i]; }
        }
      }
    }
  }

  /** What a distribution adds about one milestone, and about no other. */
  lemma AboutLegs(use: Use, c: ContractId, m: MilestoneId, amount: nat, refund: int, ids: Ids, d: ContractId,
      n: MilestoneId)
    ensures var legs := Legs(use, c, m, amount, refund, ids);
            && About(legs, d, Settlement(n))
               == (if d == c && n == m then [Posting(ids.settlement, use.buyer, c, Settlement(m), refund,
                   -(amount as int))] else [])
            && About(legs, d, Sale(n))
               == (if d == c && n == m && amount > refund
                   then [Posting(ids.sale, use.seller, c, Sale(m), amount - refund, 0)] else [])
  {
    var first := Posting(ids.settlement, use.buyer, c, Settlement(m), refund, -(amount as int));
    var rest := if amount > refund then [Posting(ids.sale, use.seller, c, Sale(m), amount - refund, 0)] else [];
    AboutConcat([first], rest, d, Settlement(n));
    AboutConcat([first], rest, d, Sale(n));
    AboutOne(first, d, Settlement(n));
    AboutOne(first, d, Sale(n));
    if amount > refund {
      AboutOne(rest[0], d, Settlement(n));
      AboutOne(rest[0], d, Sale(n));
    }
  }

  /** A milestone the buyer was not charged for is neither settled nor sold. */
  lemma UnpaidIsUnsettled(b: Books, c: ContractId, m: MilestoneId)
    requires PostingsSound(b) && c in b.uses && !Posted(b.postings, b.uses[c].buyer, c, Settlement(m))
    ensures About(b.postings, c, Settlement(m)) == [] && About(b.postings, c, Sale(m)) == []
  {
    AboutIsPosted(b.postings, c, Settlement(m));
    assert MilestoneSound(b, c, m);
  }

  lemma PayKeepsPostings(b: Books, c: ContractId, m: MilestoneId, refund: int, covered: bool, ids: Ids)
    requires PostingsSound(b) && c in b.uses && m in b.uses[c].frozen && Pay(b, c, m, refund, covered, ids).Some?
    ensures PostingsSound(Pay(b, c, m, refund, covered, ids).value)
    ensures About(b.postings, c, Settlement(m)) == [] && About(b.postings, c, Sale(m)) == []
  {
    var use, amount, b' := b.uses[c], b.uses[c].frozen[m], Pay(b, c, m, refund, covered, ids).value;
    UnpaidIsUnsettled(b, c, m);
    forall d, n ensures MilestoneSound(b', d, n) {
      assert MilestoneSound(b, d, n);
      AboutConcat(b.postings, Legs(use, c, m, amount, refund, ids), d, Settlement(n));
      AboutConcat(b.postings, Legs(use, c, m, amount, refund, ids), d, Sale(n));
      AboutLegs(use, c, m, amount, refund, ids, d, n);
    }
  }

  // ---- recorded rulings stand ----

  /** Nothing is posted about a milestone that is already settled; elsewhere anything may be. */
  predicate LeavesAlone(later: seq<Posting>, c: ContractId, m: MilestoneId) {
    About(later, c, Settlement(m)) == [] && About(later, c, Sale(m)) == []
  }

  /** The books after a step, compared with those before it. */
  ghost predicate Grows(b: Books, c: Books, later: seq<Posting>) {
    && c.postings == b.postings + later
    && (forall u | u in b.uses :: u in c.uses && c.uses[u].(remaining := 0) == b.uses[u].(remaining := 0))
    && (forall d | d in b.disputes && b.disputes[d].resolved :: d in c.disputes && c.disputes[d] == b.disputes[d])
    && (forall m | m in b.milestones :: m in c.milestones && c.milestones[m].contract == b.milestones[m].contract)
    && (forall u, m | About(b.postings, u, Settlement(m)) != [] :: LeavesAlone(later, u, m))
  }

  lemma GrowthKeepsRulings(w: World, c: Books, later: seq<Posting>, id: DisputeId)
    requires RulingsStand(w) && Grows(w.books, c, later) && id in w.operations
    ensures Validate(c, w.operations[id]).Some? && Validate(c, w.operations[id]).value.facts == w.operations[id].facts
  {
    var row := w.operations[id];
    RecordedRulingsSurvive(w.books, c, row, later);
    if row.facts.ruling != Redo { assert LeavesAlone(later, row.facts.contract, row.facts.milestone); }
  }

  lemma PayGrows(b: Books, c: ContractId, m: MilestoneId, refund: int, covered: bool, ids: Ids)
    returns (later: seq<Posting>)
    requires PostingsSound(b) && c in b.uses && m in b.uses[c].frozen && Pay(b, c, m, refund, covered, ids).Some?
    ensures Grows(b, Pay(b, c, m, refund, covered, ids).value, later)
  {
    later := Legs(b.uses[c], c, m, b.uses[c].frozen[m], refund, ids);
    PayKeepsPostings(b, c, m, refund, covered, ids);
    forall u, n | About(b.postings, u, Settlement(n)) != [] ensures LeavesAlone(later, u, n) {
      AboutLegs(b.uses[c], c, m, b.uses[c].frozen[m], refund, ids, u, n);
    }
  }

  lemma NothingPosted(b: Books, c: Books)
    requires c.postings == b.postings
    requires forall u | u in b.uses :: u in c.uses && c.uses[u].(remaining := 0) == b.uses[u].(remaining := 0)
    requires forall d | d in b.disputes && b.disputes[d].resolved :: d in c.disputes && c.disputes[d] == b.disputes[d]
    requires forall m | m in b.milestones :: m in c.milestones && c.milestones[m].contract == b.milestones[m].contract
    ensures Grows(b, c, [])
    ensures PostingsSound(b) ==> PostingsSound(c)
  {
    assert b.postings + [] == b.postings;
    forall u | u in b.uses ensures c.uses[u].buyer == b.uses[u].buyer {
      assert c.uses[u].(remaining := 0).buyer == b.uses[u].(remaining := 0).buyer;
    }
    forall u, m ensures MilestoneSound(b, u, m) ==> MilestoneSound(c, u, m) {}
  }

  lemma SettledGrows(b: Books, id: DisputeId, ruling: Ruling, percent: Option<Num>, now: nat, covered: bool, ids: Ids)
    returns (later: seq<Posting>)
    requires PostingsSound(b) && Disputed(b, id) && Settled(b, id, ruling, percent, now, covered, ids).Some?
    ensures var c := Settled(b, id, ruling, percent, now, covered, ids).value;
            Grows(b, c, later) && PostingsSound(c)
  {
    var d, c := b.disputes[id], Settled(b, id, ruling, percent, now, covered, ids).value;
    if ruling == Redo {
      later := [];
      NothingPosted(b, c);
    } else {
      var refund := Distribution(ruling, b.uses[d.contract].frozen[d.milestone.value], percent).value.buyer;
      PayKeepsPostings(b, d.contract, d.milestone.value, refund, covered, ids);
      later := PayGrows(b, d.contract, d.milestone.value, refund, covered, ids);
      var paid := Pay(b, d.contract, d.milestone.value, refund, covered, ids).value;
      forall u, m ensures MilestoneSound(c, u, m) { assert MilestoneSound(paid, u, m); }
    }
  }

  lemma OtherPostingsGrow(b: Books, p: Posting)
    requires PostingsSound(b) && p.kind.OtherKind?
    ensures var c := b.(postings := b.postings + [p]); Grows(b, c, [p]) && PostingsSound(c)
  {
    var c := b.(postings := b.postings + [p]);
    forall u, m ensures LeavesAlone([p], u, m) ensures MilestoneSound(c, u, m) {
      assert MilestoneSound(b, u, m);
      AboutOne(p, u, Settlement(m));
      AboutOne(p, u, Sale(m));
      AboutConcat(b.postings, [p], u, Settlement(m));
      AboutConcat(b.postings, [p], u, Sale(m));
    }
  }

  /** No step changes a recorded ruling, and a ruling that a step records validates at once. */
  lemma StepKeepsOperations(w: World, e: Event)
    ensures forall id | id in w.operations ::
        id in Apply(w, e).operations && Apply(w, e).operations[id] == w.operations[id]
    ensures forall id | id in Apply(w, e).operations && id !in w.operations ::
              Apply(w, e).operations[id].facts.dispute == id
                  && Validate(Apply(w, e).books, Apply(w, e).operations[id]).Some?
  {
  }

  /** Every step grows the books soundly. */
  lemma StepGrows(w: World, e: Event) returns (later: seq<Posting>)
    requires Inv(w)
    ensures Grows(w.books, Apply(w, e).books, later) && PostingsSound(Apply(w, e).books)
  {
    var b, b' := w.books, Apply(w, e).books;
    if b' == b {
      later := [];
      NothingPosted(b, b);
    } else {
      match e
      case Resolve(id, r, p, _, now, cov, ids) => later := SettledGrows(b, id, r, p, now, cov, ids);
      case Distribute(c, m, refund, enough, ids) =>
        PayKeepsPostings(b, c, m, refund, enough, ids);
        later := PayGrows(b, c, m, refund, enough, ids);
      case PostOther(p) =>
        later := [p];
        OtherPostingsGrow(b, p);
      case _ =>
        later := [];
        NothingPosted(b, b');
    }
  }

  lemma StepKeepsInv(w: World, e: Event)
    requires Inv(w)
    ensures Inv(Apply(w, e))
  {
    var later := StepGrows(w, e);
    StepKeepsOperations(w, e);
    var w' := Apply(w, e);
    forall id | id in w'.operations
        ensures w'.operations[id].facts.dispute == id && Validate(w'.books, w'.operations[id]).Some? {
      if id in w.operations { GrowthKeepsRulings(w, w'.books, later, id); }
    }
  }

  lemma {:induction false} ReachableInv(ws: seq<World>, es: seq<Event>, k: nat)
    requires Run(ws, es) && k <= |es|
    ensures Inv(ws[k])
  {
    if k > 0 {
      ReachableInv(ws, es, k - 1);
      StepKeepsInv(ws[k - 1], es[k - 1]);
    }
  }

  /**
   * A ruling once recorded is never changed, and in every later state of any run it reads back with the figures
   * recorded: whatever is posted for other milestones, and whatever disputes are opened and ruled on, for the same
   * milestone too.
   */
  lemma {:induction false} RulingsStandForEver(ws: seq<World>, es: seq<Event>, i: nat, j: nat, id: DisputeId)
    requires Run(ws, es) && i <= j <= |es| && id in ws[i].operations
    ensures id in ws[j].operations && ws[j].operations[id] == ws[i].operations[id]
    ensures var report := Validate(ws[j].books, ws[i].operations[id]);
    report.Some? && report.value.facts == ws[i].operations[id].facts
    decreases j - i
  {
    ReachableInv(ws, es, i);
    if i < j {
      StepKeepsOperations(ws[i], es[i]);
      RulingsStandForEver(ws, es, i + 1, j, id);
    }
  }

  // ---- recording never fails ----

  lemma PaidPostings(b: Books, c: ContractId, m: MilestoneId, refund: int, covered: bool, ids: Ids)
    requires PostingsSound(b) && c in b.uses && m in b.uses[c].frozen && Pay(b, c, m, refund, covered, ids).Some?
    ensures var use, amount, after := b.uses[c], b.uses[c].frozen[m], Pay(b, c, m, refund, covered, ids).value.postings;
            && About(after, c, Settlement(m))
                == [Posting(ids.settlement, use.buyer, c, Settlement(m), refund, -(amount as int))]
            && About(after, c, Sale(m)) == if amount > refund
                then [Posting(ids.sale, use.seller, c, Sale(m), amount - refund, 0)] else []
  {
    PayKeepsPostings(b, c, m, refund, covered, ids);
    var legs := Legs(b.uses[c], c, m, b.uses[c].frozen[m], refund, ids);
    AboutConcat(b.postings, legs, c, Settlement(m));
    AboutConcat(b.postings, legs, c, Sale(m));
    AboutLegs(b.uses[c], c, m, b.uses[c].frozen[m], refund, ids, c, m);
  }

  lemma SettledPostings(b: Books, id: DisputeId, ruling: Ruling, percent: Option<Num>, now: nat, covered: bool,
      ids: Ids)
    requires PostingsSound(b) && Disputed(b, id) && ruling != Redo
        && Settled(b, id, ruling, percent, now, covered, ids).Some?
    ensures var d, c := b.disputes[id], Settled(b, id, ruling, percent, now, covered, ids).value;
            var use, m := b.uses[d.contract], d.milestone.value;
            var shares := Distribution(ruling, use.frozen[m], percent).value;
            && About(c.postings, d.contract, Settlement(m))
               == [Posting(ids.settlement, use.buyer, d.contract, Settlement(m), shares.buyer, -(use.frozen[m] as int))]
            && About(c.postings, d.contract, Sale(m))
               == (if shares.seller > 0 then [Posting(ids.sale, use.seller, d.contract, Sale(m), shares.seller, 0)]
                   else [])
  {
    var d := b.disputes[id];
    var use, m := b.uses[d.contract], d.milestone.value;
    RulingsConserveTheAmount(ruling, use.frozen[m], percent);
    PaidPostings(b, d.contract, m, Distribution(ruling, use.frozen[m], percent).value.buyer, covered, ids);
  }

  /**
   * The record never stands in the way: a resolution commits exactly when the dispute is open on a milestone in dispute
   * that nothing was settled for, its ruling can be distributed, and the escrow covers it.
   */
  lemma ResolutionsRecord(w: World, e: Event)
    requires Inv(w) && e.Resolve? && Disputed(w.books, e.dispute) && e.dispute !in w.operations
    ensures var settled := Settled(w.books, e.dispute, e.ruling, e.percent, e.now, e.covered, e.ids);
            if settled.None? then Apply(w, e) == w
            else Apply(w, e).books == settled.value && e.dispute in Apply(w, e).operations
    ensures Settled(w.books, e.dispute, e.ruling, e.percent, e.now, e.covered, e.ids).Some? <==>
              var d := w.books.disputes[e.dispute];
              var amount := w.books.uses[d.contract].frozen[d.milestone.value];
              Distribution(e.ruling, amount, e.percent).Some? && (e.ruling == Redo || (e.covered && amount > 0))
  {
    SettlingNeeds(w.books, e);
    if Settled(w.books, e.dispute, e.ruling, e.percent, e.now, e.covered, e.ids).Some? {
      SettledRulingsValidate(w.books, e);
    }
  }

  lemma SettlingNeeds(b: Books, e: Event)
    requires PostingsSound(b) && e.Resolve? && Disputed(b, e.dispute)
    ensures Settled(b, e.dispute, e.ruling, e.percent, e.now, e.covered, e.ids).Some? <==>
              var d := b.disputes[e.dispute];
              var amount := b.uses[d.contract].frozen[d.milestone.value];
              Distribution(e.ruling, amount, e.percent).Some? && (e.ruling == Redo || (e.covered && amount > 0))
  {
    var d := b.disputes[e.dispute];
    AboutIsPosted(b.postings, d.contract, Settlement(d.milestone.value));
    AboutIsPosted(b.postings, d.contract, Sale(d.milestone.value));
    assert MilestoneSound(b, d.contract, d.milestone.value);
    var amount := b.uses[d.contract].frozen[d.milestone.value];
    if Distribution(e.ruling, amount, e.percent).Some? && e.ruling != Redo {
      RulingsConserveTheAmount(e.ruling, amount, e.percent);
    }
  }

  lemma SettledRulingsValidate(b: Books, e: Event)
    requires PostingsSound(b) && e.Resolve? && Disputed(b, e.dispute)
    requires Settled(b, e.dispute, e.ruling, e.percent, e.now, e.covered, e.ids).Some?
    ensures var c := Settled(b, e.dispute, e.ruling, e.percent, e.now, e.covered, e.ids).value;
            var row := RulingRow(c, e.dispute, e.actor, RecordedPercent(e.ruling, e.percent));
            row.Some? && Validate(c, row.value).Some?
  {
    var d := b.disputes[e.dispute];
    assert MilestoneSound(b, d.contract, d.milestone.value);
    if e.ruling != Redo {
      RulingsConserveTheAmount(e.ruling, b.uses[d.contract].frozen[d.milestone.value], e.percent);
      SettledPostings(b, e.dispute, e.ruling, e.percent, e.now, e.covered, e.ids);
    }
  }

  /**
   * After a redo the same milestone can be disputed and ruled on again, and then both rulings read back as they were
   * recorded.
   */
  lemma RedoThenAnotherRuling(ws: seq<World>, es: seq<Event>, i: nat, j: nat, first: DisputeId, second: DisputeId)
    requires Run(ws, es) && i <= j <= |es| && first in ws[i].operations && second in ws[j].operations && first != second
    requires ws[i].operations[first].facts.ruling == Redo
    requires ws[j].operations[second].facts.contract == ws[i].operations[first].facts.contract
    requires ws[j].operations[second].facts.milestone == ws[i].operations[first].facts.milestone
    ensures Validate(ws[j].books, ws[i].operations[first]).Some?
        && Validate(ws[j].books, ws[j].operations[second]).Some?
    ensures forall k | j <= k <= |es| ::
              Validate(ws[k].books, ws[i].operations[first]).Some?
                  && Validate(ws[k].books, ws[j].operations[second]).Some?
  {
    forall k | j <= k <= |es|
      ensures Validate(ws[k].books, ws[i].operations[first]).Some?
          && Validate(ws[k].books, ws[j].operations[second]).Some?
    {
      RulingsStandForEver(ws, es, i, k, first);
      RulingsStandForEver(ws, es, j, k, second);
    }
  }
}
