/**
 * The original buyer's exact acceptance of one submission (lib/contract-exact-acceptance.ts). Digests are injective.
 */
module Acceptance {
  import opened Options
  import S = ContractStates

  type ContractId = nat
  type SubmissionId = nat
  type Person = nat
  type ClientRef = nat
  type Content = nat

  /** A milestone belongs to one contract and keeps its place in it. */
  datatype MilestoneId = MilestoneId(contract: ContractId, index: nat)

  datatype MilestoneRow = MilestoneRow(state: S.Milestone, selected: Option<SubmissionId>)

  datatype ContractRow = ContractRow(state: S.Contract, milestones: seq<MilestoneRow>)

  /** The reviewed use that funded a contract. */
  datatype ReviewedUse = ReviewedUse(buyer: Person, seller: Person, authorization: nat, authority: nat)

  /** autoFailed is the stored check result; complete tells that every required artifact has a value. */
  datatype Submission = Submission(milestone: MilestoneId, authorization: nat, authority: nat, content: Content,
      autoFailed: bool, complete: bool)

  datatype Input = Input(reference: ClientRef, submission: SubmissionId, content: Content)

  datatype Digest = Digest(contract: ContractId, milestone: MilestoneId, buyer: Person, authority: nat, input: Input)

  datatype Decision = Decision(submission: SubmissionId, authorization: nat, authority: nat, contract: ContractId,
      milestone: MilestoneId,
                               buyer: Person, reference: ClientRef, digest: Digest, content: Content)

  datatype Tables = Tables(contracts: map<ContractId, ContractRow>, uses: map<ContractId, ReviewedUse>,
                           submissions: map<SubmissionId, Submission>, decisions: seq<Decision>)

  datatype Code =
    | ReviewedUseRequired | BuyerRequired | ReferenceConflict | SubmissionChanged | StateChanged | FiniteCheckFailed
    | RecordInvalid | NotFound | StorageBusy

  datatype View = View(row: MilestoneRow, submission: Option<Submission>)

  datatype Answer = Answer(decision: Decision, selected: Option<SubmissionId>, appliesToCurrent: bool,
      milestoneState: S.Milestone)

  datatype Reading<T> = Read(value: T) | Fault(code: Code)

  datatype Outcome = Accepted(tables: Tables, answer: Answer) | Replayed(answer: Answer) | Refused(code: Code)

  // ---- reading ----

  predicate Exists(s: Tables, m: MilestoneId) {
    m.contract in s.contracts && m.index < |s.contracts[m.contract].milestones|
  }

  function RowOf(s: Tables, m: MilestoneId): MilestoneRow
    requires Exists(s, m)
  {
    s.contracts[m.contract].milestones[m.index]
  }

  /** The current selection of a milestone, as a participant reads it. */
  function Inspect(s: Tables, c: ContractId, m: MilestoneId): Reading<View> {
    if c !in s.uses || m.contract != c || !Exists(s, m) then Fault(NotFound)
    else
      var row := RowOf(s, m);
      match row.selected
      case None => Read(View(row, None))
      case Some(x) =>
        if x !in s.submissions || s.submissions[x].milestone != m then Fault(NotFound)
        else if s.submissions[x].authorization != s.uses[c].authorization
            || s.submissions[x].authority != s.uses[c].authority then Fault(RecordInvalid)
        else Read(View(row, Some(s.submissions[x])))
  }

  function DigestOf(d: Decision): Digest {
    Digest(d.contract, d.milestone, d.buyer, d.authority, Input(d.reference, d.submission, d.content))
  }

  predicate MatchesUse(s: Tables, d: Decision) {
    && d.contract in s.uses
    && s.uses[d.contract].buyer == d.buyer
    && s.uses[d.contract].authorization == d.authorization
    && s.uses[d.contract].authority == d.authority
  }

  predicate MatchesSubmission(s: Tables, d: Decision) {
    && d.submission in s.submissions
    && var x := s.submissions[d.submission];
       d.milestone.contract == d.contract && x.milestone == d.milestone && x.authorization == d.authorization
           && x.authority == d.authority && x.content == d.content
  }

  /** A stored decision, checked again against everything it names, beside the current selection. */
  function ReadDecision(s: Tables, d: Decision): Reading<Answer> {
    if !MatchesUse(s, d) then Fault(RecordInvalid)
    else
      match Inspect(s, d.contract, d.milestone)
      case Fault(code) => Fault(code)
      case Read(view) =>
        if !MatchesSubmission(s, d) || d.digest != DigestOf(d) then Fault(RecordInvalid)
        else Read(Answer(d, view.row.selected, view.row.selected == Some(d.submission), view.row.state))
  }

  function FindByReference(ds: seq<Decision>, buyer: Person, r: ClientRef): (found: Option<Decision>)
    ensures found.Some? ==> found.value in ds && found.value.buyer == buyer && found.value.reference == r
    ensures found.None? ==> forall i | 0 <= i < |ds| :: !(ds[i].buyer == buyer && ds[i].reference == r)
  {
    if ds == [] then None
    else if ds[0].buyer == buyer && ds[0].reference == r then Some(ds[0])
    else
      assert forall i | 1 <= i < |ds| :: ds[i] == ds[1..][i - 1];
      FindByReference(ds[1..], buyer, r)
  }

  predicate Decided(ds: seq<Decision>, x: SubmissionId) {
    exists i | 0 <= i < |ds| :: ds[i].submission == x
  }

  // ---- accepting ----

  function StatesOf(rows: seq<MilestoneRow>): seq<S.Milestone> {
    seq(|rows|, i requires 0 <= i < |rows| => rows[i].state)
  }

  /** The contract after milestone i is approved. */
  function Approve(c: ContractRow, i: nat): ContractRow
    requires i < |c.milestones|
  {
    var rows := c.milestones[i := c.milestones[i].(state := S.Approved)];
    ContractRow(S.NextContractState(StatesOf(rows)), rows)
  }

  /** Why a first acceptance is refused, if it is. */
  function Objection(s: Tables, c: ContractId, m: MilestoneId, input: Input): Option<Code>
    requires c in s.uses
  {
    match Inspect(s, c, m)
    case Fault(code) => Some(code)
    case Read(view) =>
      if view.submission.None? || view.row.selected != Some(input.submission)
          || view.submission.value.content != input.content
      then Some(SubmissionChanged)
      else if Decided(s.decisions, input.submission) then Some(ReferenceConflict)
      else if s.contracts[c].state !in {S.InProgress, S.AwaitingReview} || view.row.state != S.AwaitingBuyerReview
          || view.submission.value.autoFailed
      then Some(StateChanged)
      else if !view.submission.value.complete then Some(FiniteCheckFailed)
      else None
  }

  function NewDecision(s: Tables, c: ContractId, m: MilestoneId, buyer: Person, input: Input): Decision
    requires c in s.uses
  {
    var use := s.uses[c];
    Decision(input.submission, use.authorization, use.authority, c, m, buyer, input.reference,
             Digest(c, m, use.buyer, use.authority, input), input.content)
  }

  function Accept(s: Tables, c: ContractId, m: MilestoneId, buyer: Person, input: Input): Outcome {
    if c !in s.uses then Refused(ReviewedUseRequired)
    else if s.uses[c].buyer != buyer then Refused(BuyerRequired)
    else
      match FindByReference(s.decisions, buyer, input.reference)
      case Some(prior) =>
        if prior.contract != c || prior.milestone != m
            || prior.digest != Digest(c, m, buyer, s.uses[c].authority, input)
        then Refused(ReferenceConflict)
        else (match ReadDecision(s, prior) case Fault(code) => Refused(code) case Read(a) => Replayed(a))
      case None =>
        var objection := Objection(s, c, m, input);
        if objection.Some? then Refused(objection.value)
        else
          var d := NewDecision(s, c, m, buyer, input);
          var s' := s.(contracts := s.contracts[c := Approve(s.contracts[c], m.index)], decisions := s.decisions + [d]);
          match ReadDecision(s', d) case Fault(code) => Refused(code) case Read(a) => Accepted(s', a)
  }

  /** Looking a decision up by its reference, for either participant. */
  function Lookup(s: Tables, c: ContractId, m: MilestoneId, actor: Person, r: ClientRef): Reading<Answer> {
    if c !in s.uses || (actor != s.uses[c].buyer && actor != s.uses[c].seller) then Fault(NotFound)
    else
      match FindByReference(s.decisions, s.uses[c].buyer, r)
      case None => Fault(NotFound)
      case Some(d) => if d.contract != c || d.milestone != m then Fault(NotFound) else ReadDecision(s, d)
  }

  /** The decision just inserted always reads back, so an acceptance is never undone by its own answer. */
  lemma NewDecisionReads(s: Tables, c: ContractId, m: MilestoneId, buyer: Person, input: Input)
    requires c in s.uses && s.uses[c].buyer == buyer && FindByReference(s.decisions, buyer, input.reference).None?
    requires Objection(s, c, m, input).None?
    ensures var o := Accept(s, c, m, buyer, input);
            o.Accepted? && o.answer == Answer(NewDecision(s, c, m, buyer, input), Some(input.submission), true,
                S.Approved)
  {
    var d := NewDecision(s, c, m, buyer, input);
    var s' := s.(contracts := s.contracts[c := Approve(s.contracts[c], m.index)], decisions := s.decisions + [d]);
    assert RowOf(s', m) == MilestoneRow(S.Approved, Some(input.submission));
    assert Inspect(s', c, m) == Read(View(RowOf(s', m), Some(s.submissions[input.submission])));
  }

  /**
   * An acceptance leaves the contract under review, or in dispute if another milestone is; it never closes or pays
   * anything.
   */
  lemma ApprovalOnlyReviews(c: ContractRow, i: nat)
    requires i < |c.milestones| && c.milestones[i].state == S.AwaitingBuyerReview
    ensures Approve(c, i).state == if S.Any(StatesOf(c.milestones), {S.InDispute}) then S.Disputed else S.AwaitingReview
    ensures Approve(c, i).state == S.NextContractState(StatesOf(c.milestones))
    ensures forall j | 0 <= j < |c.milestones| && j != i :: Approve(c, i).milestones[j] == c.milestones[j]
  {
    var was, now := StatesOf(c.milestones), StatesOf(Approve(c, i).milestones);
    assert was[i] == S.AwaitingBuyerReview && now == was[i := S.Approved] && now[i] == S.Approved;
    S.AfterUpdate(was, i, S.Approved, {S.InDispute});
    S.AfterUpdate(was, i, S.Approved, {S.Paid});
    S.AfterUpdate(was, i, S.Approved, {S.Paid, S.Returned});
    S.AfterUpdate(was, i, S.Approved, {S.AwaitingBuyerReview, S.Submitted, S.Approved});
  }

  // ---- the store ----

  class AcceptanceStore {
    var contracts: map<ContractId, ContractRow>
    var uses: map<ContractId, ReviewedUse>
    var submissions: map<SubmissionId, Submission>
    var decisions: seq<Decision>

    ghost function Contents(): Tables
      reads this
    {
      Tables(contracts, uses, submissions, decisions)
    }

    constructor ()
      ensures Contents() == Tables(map[], map[], map[], [])
    {
      contracts, uses, submissions, decisions := map[], map[], map[], [];
    }

    /** One attempt: the milestone, the contract and the decision change together, or nothing does. */
    method AcceptOnce(c: ContractId, m: MilestoneId, buyer: Person, input: Input)
      returns (o: Reading<Answer>, idempotent: bool)
      modifies this`contracts, this`decisions
      ensures match Accept(old(Contents()), c, m, buyer, input)
              case Accepted(s', a) => Contents() == s' && o == Read(a) && !idempotent
              case Replayed(a) => Contents() == old(Contents()) && o == Read(a) && idempotent
              case Refused(code) => Contents() == old(Contents()) && o == Fault(code) && !idempotent
    {
      idempotent := false;
      if c !in uses { return Fault(ReviewedUseRequired), false; }
      var use := uses[c];
      if use.buyer != buyer { return Fault(BuyerRequired), false; }
      var digest := Digest(c, m, use.buyer, use.authority, input);
      var s := Tables(contracts, uses, submissions, decisions);
      var prior := FindByReference(decisions, buyer, input.reference);
      if prior.Some? {
        if prior.value.contract != c || prior.value.milestone != m || prior.value.digest != digest {
          return Fault(ReferenceConflict), false;
        }
        o := ReadDecision(s, prior.value);
        return o, o.Read?;
      }
      var view := Inspect(s, c, m);
      if view.Fault? { return Fault(view.code), false; }
      var row := view.value.row;
      if view.value.submission.None? || row.selected != Some(input.submission)
          || view.value.submission.value.content != input.content {
        return Fault(SubmissionChanged), false;
      }
      var submission := view.value.submission.value;
      if exists i | 0 <= i < |decisions| :: decisions[i].submission == input.submission {
        return Fault(ReferenceConflict), false;
      }
      if contracts[c].state !in {S.InProgress, S.AwaitingReview} || row.state != S.AwaitingBuyerReview
          || submission.autoFailed {
        return Fault(StateChanged), false;
      }
      if !submission.complete { return Fault(FiniteCheckFailed), false; }
      NewDecisionReads(s, c, m, buyer, input);
      // the update's own guard on the selection and the state was met above, in the same transaction
      var rows := contracts[c].milestones[m.index := row.(state := S.Approved)];
      contracts := contracts[c := contracts[c].(milestones := rows)];
      var decision := Decision(input.submission, use.authorization, use.authority, c, m, buyer, input.reference, digest,
          input.content);
      decisions := decisions + [decision];
      contracts := contracts[c := contracts[c].(state := S.NextContractState(StatesOf(rows)))];
      // reading the new decision back cannot fail, so nothing is ever rolled back here
      o := ReadDecision(Tables(contracts, uses, submissions, decisions), decision);
    }

    /** busy is how many attempts in a row meet contention. */
    method AcceptReviewed(c: ContractId, m: MilestoneId, buyer: Person, input: Input, busy: nat)
      returns (o: Reading<Answer>, idempotent: bool)
      modifies this`contracts, this`decisions
      ensures busy >= 6 ==> Contents() == old(Contents()) && o == Fault(StorageBusy)
      ensures busy < 6 ==>
                match Accept(old(Contents()), c, m, buyer, input)
                case Accepted(s', a) => Contents() == s' && o == Read(a) && !idempotent
                case Replayed(a) => Contents() == old(Contents()) && o == Read(a) && idempotent
                case Refused(code) => Contents() == old(Contents()) && o == Fault(code) && !idempotent
    {
      for attempt := 0 to 6
        invariant Contents() == old(Contents()) && attempt <= busy
      {
        if attempt == busy {
          o, idempotent := AcceptOnce(c, m, buyer, input);
          return;
        }
      }
      return Fault(StorageBusy), false;
    }

    method LookupDecision(c: ContractId, m: MilestoneId, actor: Person, r: ClientRef) returns (o: Reading<Answer>)
      ensures o == Lookup(Contents(), c, m, actor, r)
    {
      if c !in uses || actor !in {uses[c].buyer, uses[c].seller} { return Fault(NotFound); }
      var found := FindByReference(decisions, uses[c].buyer, r);
      if found.None? || found.value.contract != c || found.value.milestone != m { return Fault(NotFound); }
      o := ReadDecision(Tables(contracts, uses, submissions, decisions), found.value);
    }
  }
}
