/** What holds of buyer decisions over whole runs, whatever else happens to contracts, selections and submissions. */
module AcceptanceRuns {
  import opened Options
  import opened Acceptance
  import S = ContractStates

  /**
   * Acceptances, and what other code does. A selection changes in two ways only: the seller of a reviewed contract
   * submits, which records the submission under the use's own authority and selects it in one transaction, or a
   * contract without a use gets a submission that has no such record. Everything else moves states.
   */
  datatype Event =
    | AcceptCall(contract: ContractId, milestone: MilestoneId, buyer: Person, input: Input)
    | Submit(target: MilestoneId, seller: Person, newSubmission: SubmissionId, content: Content, complete: bool)
    | PlainSubmit(target: MilestoneId, newSubmission: SubmissionId, passed: bool)
    | MoveMilestone(target: MilestoneId, to: S.Milestone)
    | SetContract(id: ContractId, state: S.Contract)
    | AddContract(newContract: ContractId, count: nat)
    | AddUse(funded: ContractId, use: ReviewedUse)

  predicate Submittable(state: S.Milestone) { state in {S.Active, S.ChangesRequested, S.AutoFailed} }

  /** The milestone as a submission leaves it, and the contract with the state its milestones then imply. */
  function Select(s: Tables, m: MilestoneId, x: SubmissionId, passed: bool): Tables
    requires Exists(s, m)
  {
    var row := MilestoneRow(if passed then S.AwaitingBuyerReview else S.AutoFailed, Some(x));
    var rows := s.contracts[m.contract].milestones[m.index := row];
    s.(contracts := s.contracts[m.contract := ContractRow(S.NextContractState(StatesOf(rows)), rows)])
  }

  /** A first submission by the seller of a reviewed contract; only a complete one passes its check. */
  function SubmitReviewed(s: Tables, m: MilestoneId, seller: Person, x: SubmissionId, content: Content, complete: bool)
    : Tables
  {
    if m.contract !in s.uses || s.uses[m.contract].seller != seller || !Exists(s, m) || x in s.submissions
        || s.contracts[m.contract].state !in {S.InProgress, S.AwaitingReview} || !Submittable(RowOf(s, m).state)
    then s
    else
      var use := s.uses[m.contract];
      var op := Submission(m, use.authorization, use.authority, content, !complete, complete);
      Select(s, m, x, complete).(submissions := s.submissions[x := op])
  }

  /** A contract is opened for funding under a review only while nothing has happened to it. */
  predicate Untouched(s: Tables, c: ContractId) {
    && c in s.contracts && s.contracts[c].state == S.Draft
    && forall i | 0 <= i < |s.contracts[c].milestones| :: s.contracts[c].milestones[i] == MilestoneRow(S.Pending, None)
  }

  predicate TakesActions(state: S.Contract) {
    state in {S.InProgress, S.AwaitingReview, S.Disputed}
  }

  function Apply(s: Tables, e: Event): Tables {
    match e
    case AcceptCall(c, m, buyer, input) =>
      var o := Accept(s, c, m, buyer, input);
      if o.Accepted? then o.tables else s
    case Submit(m, seller, x, content, complete) => SubmitReviewed(s, m, seller, x, content, complete)
    case PlainSubmit(m, x, passed) =>
      if m.contract in s.uses || !Exists(s, m) || x in s.submissions || !TakesActions(s.contracts[m.contract].state)
          || !Submittable(RowOf(s, m).state)
      then s
      else Select(s, m, x, passed)
    case MoveMilestone(m, to) =>
      if !Exists(s, m) then s
      else
        var rows := s.contracts[m.contract].milestones[m.index := RowOf(s, m).(state := to)];
        s.(contracts := s.contracts[m.contract := s.contracts[m.contract].(milestones := rows)])
    case SetContract(c, state) =>
      if c in s.contracts then s.(contracts := s.contracts[c := s.contracts[c].(state := state)]) else s
    case AddContract(c, count) =>
      if c in s.contracts then s
      else s.(contracts := s.contracts[c := ContractRow(S.Draft, seq(count, _ => MilestoneRow(S.Pending, None)))])
    case AddUse(c, use) =>
      if c in s.uses || !Untouched(s, c) then s
      else s.(contracts := s.contracts[c := s.contracts[c].(state := S.Funded)], uses := s.uses[c := use])
  }

  ghost predicate Run(ss: seq<Tables>, es: seq<Event>) {
    && |ss| == |es| + 1
    && Inv(ss[0])
    && forall k | 0 <= k < |es| :: ss[k + 1] == Apply(ss[k], es[k])
  }

  /** Empty tables are a sound start. */
  lemma EmptyTablesAreSound()
    ensures Inv(Tables(map[], map[], map[], []))
  {
  }

  /**
   * A selection that points to nothing or to a recorded submission of this milestone under the contract's own
   * authority.
   */
  predicate SelectionRecorded(s: Tables, m: MilestoneId) {
    && Exists(s, m) && m.contract in s.uses
    && match RowOf(s, m).selected
       case None => true
       case Some(x) =>
         && x in s.submissions && s.submissions[x].milestone == m
         && s.submissions[x].authorization == s.uses[m.contract].authorization
         && s.submissions[x].authority == s.uses[m.contract].authority
  }

  /** Every selection of a contract with a reviewed use is on record. */
  ghost predicate Recorded(s: Tables) {
    && (forall c | c in s.uses :: c in s.contracts)
    && forall m: MilestoneId | m.contract in s.uses && Exists(s, m) :: SelectionRecorded(s, m)
  }

  /**
   * At most one decision per submission and per buyer and reference, each backed by the rows it names; and every
   * selection under a reviewed use on record.
   */
  ghost predicate Inv(s: Tables) {
    && (forall i, j | 0 <= i < j < |s.decisions| :: s.decisions[i].submission != s.decisions[j].submission)
    && (forall i, j | 0 <= i < j < |s.decisions| ::
        !(s.decisions[i].buyer == s.decisions[j].buyer && s.decisions[i].reference == s.decisions[j].reference))
    && (forall d | d in s.decisions :: Backed(s, d))
    && Recorded(s)
  }

  predicate Backed(s: Tables, d: Decision) {
    MatchesUse(s, d) && MatchesSubmission(s, d) && d.digest == DigestOf(d) && Exists(s, d.milestone)
  }

  /** Apart from decisions, a step only adds uses, submissions and contracts; milestones keep their places. */
  ghost predicate Grows(s: Tables, s': Tables) {
    && s.decisions <= s'.decisions
    && (forall c | c in s.uses :: c in s'.uses && s'.uses[c] == s.uses[c])
    && (forall x | x in s.submissions :: x in s'.submissions && s'.submissions[x] == s.submissions[x])
    && (forall c | c in s.contracts :: c in s'.contracts && |s'.contracts[c].milestones| == |s.contracts[c].milestones|)
  }

  /** What the tables say at the moment a decision is made, and right after it. */
  ghost predicate Justified(s: Tables, s': Tables, d: Decision) {
    && Exists(s, d.milestone) && Exists(s', d.milestone) && d.submission in s.submissions
    && RowOf(s, d.milestone) == MilestoneRow(S.AwaitingBuyerReview, Some(d.submission))
    && RowOf(s', d.milestone) == MilestoneRow(S.Approved, Some(d.submission))
    && d.contract == d.milestone.contract && s.contracts[d.contract].state in {S.InProgress, S.AwaitingReview}
    && var x := s.submissions[d.submission];
       x.milestone == d.milestone && x.content == d.content && x.complete && !x.autoFailed
  }

  /** A step adds at most one decision, and only a justified one. */
  lemma EachStepIsJustified(s: Tables, e: Event)
    requires Inv(s)
    ensures var s' := Apply(s, e);
            && Grows(s, s')
            && (s'.decisions == s.decisions
                || (e.AcceptCall?
                    && s'.decisions == s.decisions + [NewDecision(s, e.contract, e.milestone, e.buyer, e.input)]
                    && Justified(s, s', s'.decisions[|s.decisions|])
                    && Backed(s', s'.decisions[|s.decisions|])
                    && e.contract in s.uses && !Decided(s.decisions, e.input.submission)
                    && FindByReference(s.decisions, e.buyer, e.input.reference).None?))
  {
    if e.AcceptCall? && Accept(s, e.contract, e.milestone, e.buyer, e.input).Accepted? {
      NewDecisionReads(s, e.contract, e.milestone, e.buyer, e.input);
    }
  }

  lemma BackingLasts(s: Tables, s': Tables, d: Decision)
    requires Grows(s, s') && Backed(s, d)
    ensures Backed(s', d)
  {
  }

  /** An acceptance moves states and leaves every selection where it is. */
  lemma AcceptanceKeepsSelections(s: Tables, c: ContractId, m: MilestoneId, buyer: Person, input: Input,
      other: MilestoneId)
    requires Accept(s, c, m, buyer, input).Accepted? && Exists(s, other)
    ensures var s' := Accept(s, c, m, buyer, input).tables;
            Exists(s', other) && RowOf(s', other).selected == RowOf(s, other).selected
  {
    NewDecisionReads(s, c, m, buyer, input);
  }

  /**
   * A selection changes only by a submission: under a use together with its record, and otherwise only where there is
   * no use.
   */
  lemma SelectionsComeFromSubmissions(s: Tables, e: Event, m: MilestoneId)
    requires Exists(s, m)
    ensures var s' := Apply(s, e);
            Exists(s', m) && RowOf(s', m).selected != RowOf(s, m).selected ==>
              || (e.PlainSubmit? && m.contract !in s'.uses)
              || (e.Submit? && e.target == m && SelectionRecorded(s', m))
  {
    if e.AcceptCall? && Accept(s, e.contract, e.milestone, e.buyer, e.input).Accepted? {
      AcceptanceKeepsSelections(s, e.contract, e.milestone, e.buyer, e.input, m);
    }
  }

  /** A use is added only to a contract that has no selection. */
  lemma UsesStartWithoutSelections(s: Tables, e: Event, m: MilestoneId)
    requires m.contract !in s.uses && m.contract in Apply(s, e).uses && Exists(Apply(s, e), m)
    ensures SelectionRecorded(Apply(s, e), m)
  {
    assert e == AddUse(m.contract, e.use);
  }

  /** No step leaves a selection under a use without its record. */
  lemma SelectionsStayRecorded(s: Tables, e: Event)
    requires Inv(s)
    ensures Recorded(Apply(s, e))
  {
    var s' := Apply(s, e);
    EachStepIsJustified(s, e);
    forall m: MilestoneId | m.contract in s'.uses && Exists(s', m) ensures SelectionRecorded(s', m) {
      if m.contract in s.uses {
        SelectionStaysRecorded(s, e, m);
      } else {
        UsesStartWithoutSelections(s, e, m);
      }
    }
  }

  lemma SelectionStaysRecorded(s: Tables, e: Event, m: MilestoneId)
    requires Recorded(s) && Grows(s, Apply(s, e)) && m.contract in s.uses && Exists(Apply(s, e), m)
    ensures SelectionRecorded(Apply(s, e), m)
  {
    assert Exists(s, m) && SelectionRecorded(s, m);
    SelectionsComeFromSubmissions(s, e, m);
  }

  lemma StepKeepsInv(s: Tables, e: Event)
    requires Inv(s)
    ensures Inv(Apply(s, e)) && Grows(s, Apply(s, e))
  {
    var s' := Apply(s, e);
    EachStepIsJustified(s, e);
    SelectionsStayRecorded(s, e);
    forall d | d in s'.decisions ensures Backed(s', d) {
      if d in s.decisions { BackingLasts(s, s', d); }
    }
    if s'.decisions != s.decisions {
      var n := |s.decisions|;
      forall i | 0 <= i < n
        ensures s'.decisions[i].submission != s'.decisions[n].submission
        ensures !(s'.decisions[i].buyer == s'.decisions[n].buyer
            && s'.decisions[i].reference == s'.decisions[n].reference)
      {
        assert s'.decisions[i] == s.decisions[i];
      }
      forall i, j | 0 <= i < j < n ensures s'.decisions[i] == s.decisions[i] && s'.decisions[j] == s.decisions[j] {}
    }
  }

  lemma {:induction false} DecisionsAreExact(ss: seq<Tables>, es: seq<Event>, k: nat)
    requires Run(ss, es) && k <= |es|
    ensures Inv(ss[k])
  {
    if k > 0 {
      DecisionsAreExact(ss, es, k - 1);
      StepKeepsInv(ss[k - 1], es[k - 1]);
    }
  }

  /** No decision is ever changed or removed, and neither is what it names. */
  lemma {:induction false} DecisionsArePermanent(ss: seq<Tables>, es: seq<Event>, i: nat, j: nat)
    requires Run(ss, es) && i <= j <= |es|
    ensures Grows(ss[i], ss[j])
    decreases j - i
  {
    if i < j {
      DecisionsAreExact(ss, es, i);
      StepKeepsInv(ss[i], es[i]);
      DecisionsArePermanent(ss, es, i + 1, j);
    }
  }

  /** A decision that a step has added is its newest one. */
  lemma NewestIsJustified(s: Tables, e: Event, s': Tables, n: nat)
    requires Inv(s) && s' == Apply(s, e) && |s.decisions| <= n < |s'.decisions|
    ensures e.AcceptCall? && Justified(s, s', s'.decisions[n])
  {
    EachStepIsJustified(s, e);
  }

  /**
   * Every decision made during a run was made by one call that found exactly its submission and content selected and
   * awaiting review.
   */
  lemma {:induction false} EveryDecisionIsJustified(ss: seq<Tables>, es: seq<Event>, k: nat, n: nat) returns (i: nat)
    requires Run(ss, es) && k <= |es| && |ss[0].decisions| <= n < |ss[k].decisions|
    ensures i < k && es[i].AcceptCall? && Justified(ss[i], ss[i + 1], ss[k].decisions[n])
  {
    if n < |ss[k - 1].decisions| {
      i := EveryDecisionIsJustified(ss, es, k - 1, n);
      DecisionsArePermanent(ss, es, k - 1, k);
    } else {
      i := k - 1;
      DecisionsAreExact(ss, es, i);
      NewestIsJustified(ss[i], es[i], ss[k], n);
    }
  }

  // ---- replays ----

  /** A stored decision is the only one its buyer and reference find. */
  lemma FoundAgain(s: Tables, d: Decision)
    requires Inv(s) && d in s.decisions
    ensures FindByReference(s.decisions, d.buyer, d.reference) == Some(d)
  {
    var i :| 0 <= i < |s.decisions| && s.decisions[i] == d;
    var f := FindByReference(s.decisions, d.buyer, d.reference).value;
    var j :| 0 <= j < |s.decisions| && s.decisions[j] == f;
    assert i == j;
  }

  predicate SameCall(d: Decision, c: ContractId, m: MilestoneId, buyer: Person, input: Input) {
    d.contract == c && d.milestone == m && d.buyer == buyer && DigestOf(d).input == input
  }

  /** What every call that names a decision is answered while the milestone looks like this. */
  function OnRecord(s: Tables, d: Decision): Answer
    requires Exists(s, d.milestone)
  {
    var row := RowOf(s, d.milestone);
    Answer(d, row.selected, row.selected == Some(d.submission), row.state)
  }

  /** A decision can always be read back beside the current selection. */
  lemma DecisionsRead(s: Tables, d: Decision)
    requires Inv(s) && d in s.decisions
    ensures Exists(s, d.milestone) && ReadDecision(s, d) == Read(OnRecord(s, d))
  {
    assert Backed(s, d);
    assert SelectionRecorded(s, d.milestone);
  }

  /**
   * What a buyer's reference is worth once a decision carries it: the same call gets that decision back, with the
   * current selection beside it; every other call under the reference is a conflict. Neither writes anything.
   */
  lemma ReferenceIsSpent(s: Tables, d: Decision, c: ContractId, m: MilestoneId, input: Input)
    requires Inv(s) && d in s.decisions && c in s.uses && s.uses[c].buyer == d.buyer && input.reference == d.reference
    ensures Exists(s, d.milestone)
    ensures var o := Accept(s, c, m, d.buyer, input);
            o == if SameCall(d, c, m, d.buyer, input) then Replayed(OnRecord(s, d)) else Refused(ReferenceConflict)
    ensures Apply(s, AcceptCall(c, m, d.buyer, input)) == s
  {
    FoundAgain(s, d);
    DecisionsRead(s, d);
    assert Backed(s, d);
  }

  /**
   * An acceptance made at step i and repeated at any later step is answered with the original decision, whatever has
   * been submitted, moved, disputed or settled in between; it changes nothing, and says that the decision still applies
   * only if the same submission is selected.
   */
  lemma ExactReplayIsHarmless(ss: seq<Tables>, es: seq<Event>, i: nat, j: nat)
    requires Run(ss, es) && i < j < |es|
    requires es[i].AcceptCall? && Accept(ss[i], es[i].contract, es[i].milestone, es[i].buyer, es[i].input).Accepted?
    requires es[j] == es[i]
    ensures ss[j + 1] == ss[j]
    ensures var e := es[i];
            var d := NewDecision(ss[i], e.contract, e.milestone, e.buyer, e.input);
            && Exists(ss[j], e.milestone)
            && Accept(ss[j], e.contract, e.milestone, e.buyer, e.input) == Replayed(OnRecord(ss[j], d))
  {
    var e := es[i];
    var d := NewDecision(ss[i], e.contract, e.milestone, e.buyer, e.input);
    DecisionsAreExact(ss, es, i);
    EachStepIsJustified(ss[i], e);
    NewDecisionReads(ss[i], e.contract, e.milestone, e.buyer, e.input);
    assert ss[i + 1].decisions[|ss[i].decisions|] == d;
    DecisionsArePermanent(ss, es, i, i + 1);
    DecisionsArePermanent(ss, es, i + 1, j);
    assert ss[j].decisions[|ss[i].decisions|] == d;
    DecisionsAreExact(ss, es, j);
    ReferenceIsSpent(ss[j], d, e.contract, e.milestone, e.input);
  }

  /** A submission that carries a decision is never accepted again, under any reference. */
  lemma DecidedSubmissionsStayDecided(s: Tables, d: Decision, c: ContractId, m: MilestoneId, buyer: Person,
      input: Input)
    requires Inv(s) && d in s.decisions && input.submission == d.submission
    ensures !Accept(s, c, m, buyer, input).Accepted?
  {
    if Accept(s, c, m, buyer, input).Accepted? {
      EachStepIsJustified(s, AcceptCall(c, m, buyer, input));
      NewDecisionReads(s, c, m, buyer, input);
    }
  }

  /** Both participants find by reference exactly what a replay answers, and they always find it. */
  lemma LookupAgreesWithReplay(s: Tables, d: Decision, actor: Person)
    requires Inv(s) && d in s.decisions
    requires d.contract in s.uses && actor in {s.uses[d.contract].buyer, s.uses[d.contract].seller}
    ensures var found := Lookup(s, d.contract, d.milestone, actor, d.reference);
            found.Read? && Accept(s, d.contract, d.milestone, d.buyer, DigestOf(d).input) == Replayed(found.value)
  {
    FoundAgain(s, d);
    DecisionsRead(s, d);
    ReferenceIsSpent(s, d, d.contract, d.milestone, DigestOf(d).input);
  }
}
