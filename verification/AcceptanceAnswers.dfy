/**
 * Exactly which acceptances, submissions and lookups succeed, and what they write, stated on the rows themselves
 * (lib/contract-exact-acceptance.ts, lib/contract-original-submissions.ts).
 */
module AcceptanceAnswers {
  import opened Options
  import opened Acceptance
  import opened AcceptanceRuns
  import S = ContractStates

  predicate OnRow(s: Tables, m: MilestoneId) {
    m.contract in s.contracts && m.index < |s.contracts[m.contract].milestones|
  }

  /** The named submission is the selected one, on record for this milestone under the use's own authority. */
  predicate SelectedOnRecord(s: Tables, m: MilestoneId, x: SubmissionId) {
    && OnRow(s, m) && m.contract in s.uses && x in s.submissions
    && s.contracts[m.contract].milestones[m.index].selected == Some(x)
    && var op, use := s.submissions[x], s.uses[m.contract];
       op.milestone == m && op.authorization == use.authorization && op.authority == use.authority
  }

  /** Content, checks and states are those under which a buyer may accept. */
  predicate AwaitsAcceptance(s: Tables, m: MilestoneId, input: Input) {
    && SelectedOnRecord(s, m, input.submission)
    && s.submissions[input.submission].content == input.content
    && s.submissions[input.submission].complete && !s.submissions[input.submission].autoFailed
    && s.contracts[m.contract].milestones[m.index].state == S.AwaitingBuyerReview
    && (s.contracts[m.contract].state == S.InProgress || s.contracts[m.contract].state == S.AwaitingReview)
  }

  predicate NeverDecided(s: Tables, x: SubmissionId) {
    forall i | 0 <= i < |s.decisions| :: s.decisions[i].submission != x
  }

  predicate ReferenceUnused(s: Tables, buyer: Person, r: ClientRef) {
    forall i | 0 <= i < |s.decisions| :: !(s.decisions[i].buyer == buyer && s.decisions[i].reference == r)
  }

  lemma FoundUnlessUnused(s: Tables, buyer: Person, r: ClientRef)
    ensures FindByReference(s.decisions, buyer, r).None? <==> ReferenceUnused(s, buyer, r)
  {
    var f := FindByReference(s.decisions, buyer, r);
    if f.Some? { var i :| 0 <= i < |s.decisions| && s.decisions[i] == f.value; }
  }

  /**
   * A first acceptance is made exactly by the buyer of the reviewed contract, under an unused reference, for the
   * submission that is selected and on record, with exactly its content, passed and complete, never decided before,
   * while it awaits review.
   */
  lemma AcceptanceIff(s: Tables, c: ContractId, m: MilestoneId, buyer: Person, input: Input)
    ensures Accept(s, c, m, buyer, input).Accepted?
       <==> && c in s.uses && s.uses[c].buyer == buyer && m.contract == c
            && ReferenceUnused(s, buyer, input.reference) && NeverDecided(s, input.submission)
            && AwaitsAcceptance(s, m, input)
  {
    FoundUnlessUnused(s, buyer, input.reference);
    if c in s.uses && s.uses[c].buyer == buyer && FindByReference(s.decisions, buyer, input.reference).None?
       && Objection(s, c, m, input).None?
    {
      NewDecisionReads(s, c, m, buyer, input);
    }
  }

  /** It approves that milestone, derives the contract's state anew, and records one decision for this call. */
  lemma AcceptanceWrites(s: Tables, c: ContractId, m: MilestoneId, buyer: Person, input: Input)
    requires Accept(s, c, m, buyer, input).Accepted?
    ensures var s' := Accept(s, c, m, buyer, input).tables;
            && OnRow(s, m) && c in s.uses && c in s'.contracts && |s'.decisions| == |s.decisions| + 1
            && s'.contracts[c].milestones == s.contracts[c].milestones[m.index := MilestoneRow(S.Approved,
                Some(input.submission))]
            && s'.contracts == s.contracts[c := s'.contracts[c]]
            && s'.contracts[c].state == S.NextContractState(StatesOf(s'.contracts[c].milestones))
            && s'.uses == s.uses && s'.submissions == s.submissions
            && s'.decisions[..|s.decisions|] == s.decisions
            && var d := s'.decisions[|s.decisions|];
               && d.submission == input.submission && d.contract == c && d.milestone == m && d.buyer == buyer
               && d.reference == input.reference && d.content == input.content
               && d.authorization == s.uses[c].authorization && d.authority == s.uses[c].authority
  {
    AcceptanceIff(s, c, m, buyer, input);
    NewDecisionReads(s, c, m, buyer, input);
  }

  /** What else a call is answered: the reasons for a refusal are true of the rows. */
  lemma AcceptanceRefusalsAreTrue(s: Tables, c: ContractId, m: MilestoneId, buyer: Person, input: Input)
    requires Inv(s)
    ensures var o := Accept(s, c, m, buyer, input);
            && (o == Refused(ReviewedUseRequired) <==> c !in s.uses)
            && (o == Refused(BuyerRequired) <==> c in s.uses && s.uses[c].buyer != buyer)
            && (o == Refused(FiniteCheckFailed) ==>
                input.submission in s.submissions && !s.submissions[input.submission].complete)
            && (o == Refused(StateChanged) ==> !AwaitsAcceptance(s, m, input))
            && (o == Refused(SubmissionChanged) ==>
                  || !SelectedOnRecord(s, m, input.submission)
                  || s.submissions[input.submission].content != input.content)
            && (o == Refused(ReferenceConflict) ==>
                !ReferenceUnused(s, buyer, input.reference) || !NeverDecided(s, input.submission))
  {
    FoundUnlessUnused(s, buyer, input.reference);
    var f := FindByReference(s.decisions, buyer, input.reference);
    if c in s.uses && s.uses[c].buyer == buyer && f.Some? {
      ReferenceIsSpent(s, f.value, c, m, input);
    } else if c in s.uses && s.uses[c].buyer == buyer && Objection(s, c, m, input).None? {
      NewDecisionReads(s, c, m, buyer, input);
    }
  }

  /** A decision is read exactly by a participant of its contract, under its own milestone and reference. */
  lemma LookupIff(s: Tables, c: ContractId, m: MilestoneId, actor: Person, r: ClientRef)
    requires Inv(s)
    ensures Lookup(s, c, m, actor, r).Read?
       <==> && c in s.uses && (actor == s.uses[c].buyer || actor == s.uses[c].seller)
            && exists i :: 0 <= i < |s.decisions| && s.decisions[i].buyer == s.uses[c].buyer
                && s.decisions[i].reference == r && s.decisions[i].contract == c && s.decisions[i].milestone == m
    ensures Lookup(s, c, m, actor, r).Read? ==>
              var d := Lookup(s, c, m, actor, r).value.decision;
              d in s.decisions && d.contract == c && d.milestone == m && d.reference == r
  {
    if c in s.uses && (actor == s.uses[c].buyer || actor == s.uses[c].seller) {
      if i :| 0 <= i < |s.decisions| && s.decisions[i].buyer == s.uses[c].buyer && s.decisions[i].reference == r {
        FoundAgain(s, s.decisions[i]);
        DecisionsRead(s, s.decisions[i]);
        var f := FindByReference(s.decisions, s.uses[c].buyer, r).value;
        assert f == s.decisions[i];
      }
    }
  }

  /**
   * A stored decision is answered with exactly while use, submission and digest say what it says, and the selection of
   * its milestone is none or one on record; the answer tells whether it still applies to that selection.
   */
  lemma DecisionReadsIff(s: Tables, d: Decision)
    ensures ReadDecision(s, d).Read?
       <==> && d.contract in s.uses && d.milestone.contract == d.contract && OnRow(s, d.milestone)
            && var use, row := s.uses[d.contract], s.contracts[d.contract].milestones[d.milestone.index];
               && use.buyer == d.buyer && use.authorization == d.authorization && use.authority == d.authority
               && (row.selected.Some? ==> SelectedOnRecord(s, d.milestone, row.selected.value))
               && d.submission in s.submissions
               && var x := s.submissions[d.submission];
                  && x.milestone == d.milestone && x.authorization == d.authorization
                  && x.authority == d.authority && x.content == d.content
                  && d.digest == Digest(d.contract, d.milestone, d.buyer, d.authority,
                                        Input(d.reference, d.submission, d.content))
    ensures ReadDecision(s, d).Read? ==>
              && OnRow(s, d.milestone)
              && var answer, row := ReadDecision(s, d).value,
                     s.contracts[d.milestone.contract].milestones[d.milestone.index];
                 && answer.decision == d && answer.selected == row.selected && answer.milestoneState == row.state
                 && (answer.appliesToCurrent <==> row.selected == Some(d.submission))
  {
  }

  predicate MaySubmit(state: S.Milestone) {
    state == S.Active || state == S.ChangesRequested || state == S.AutoFailed
  }

  /**
   * A first submission goes through exactly for the reviewed seller while the contract runs and the milestone takes
   * work; it is recorded under the use's authority and selected at once, and only a complete one awaits review.
   */
  lemma SubmissionIff(s: Tables, m: MilestoneId, seller: Person, x: SubmissionId, content: Content, complete: bool)
    requires x !in s.submissions
    ensures var s' := SubmitReviewed(s, m, seller, x, content, complete);
            if m.contract in s.uses && s.uses[m.contract].seller == seller && OnRow(s, m)
               && s.contracts[m.contract].state in {S.InProgress, S.AwaitingReview}
               && MaySubmit(s.contracts[m.contract].milestones[m.index].state)
            then
              && m.contract in s'.contracts
              && s'.submissions == s.submissions[x := Submission(m, s.uses[m.contract].authorization,
                  s.uses[m.contract].authority, content, !complete, complete)]
              && s'.contracts[m.contract].milestones == s.contracts[m.contract].milestones[m.index := MilestoneRow(
                  if complete then S.AwaitingBuyerReview else S.AutoFailed, Some(x))]
              && s'.contracts == s.contracts[m.contract := s'.contracts[m.contract]]
              && s'.contracts[m.contract].state == S.NextContractState(StatesOf(s'.contracts[m.contract].milestones))
              && s'.uses == s.uses && s'.decisions == s.decisions
            else s' == s
  {
  }
}
