/** Milestone and contract transition tables, and the contract state the milestones imply (lib/contracts-state.ts). */
module ContractStates {

  datatype Contract =
    | Draft | Funded | InProgress | AwaitingReview | Disputed | Completed | Canceled | Expired | Refunded

  datatype Milestone =
    | Pending | Active | Submitted | AutoFailed | AwaitingBuyerReview | ChangesRequested
    | Approved | Paid | InDispute | Returned  // DISPUTED and REFUNDED of a milestone

  function ContractMoves(from: Contract): set<Contract> {
    match from
    case Draft => {Funded, Canceled}
    case Funded => {InProgress, Expired, Refunded, Canceled}
    case InProgress => {AwaitingReview, Disputed, Completed, Expired, Refunded}
    case AwaitingReview => {InProgress, Disputed, Completed}
    case Disputed => {InProgress, Completed, Refunded}
    case Completed => {}
    case Canceled => {}
    case Expired => {Refunded}
    case Refunded => {}
  }

  function MilestoneMoves(from: Milestone): set<Milestone> {
    match from
    case Pending => {Active}
    case Active => {Submitted, InDispute}
    case Submitted => {AutoFailed, AwaitingBuyerReview, ChangesRequested, InDispute}
    case AutoFailed => {Submitted, ChangesRequested, Active, InDispute}
    case AwaitingBuyerReview => {Approved, ChangesRequested, InDispute}
    case ChangesRequested => {Submitted, Active, InDispute}
    case Approved => {Paid, InDispute}
    case Paid => {}
    case InDispute => {Active, Approved, Returned}
    case Returned => {}
  }

  predicate CanTransitionContract(from: Contract, to: Contract) { to in ContractMoves(from) }

  predicate CanTransitionMilestone(from: Milestone, to: Milestone) { to in MilestoneMoves(from) }

  predicate Every(states: seq<Milestone>, allowed: set<Milestone>) {
    forall i | 0 <= i < |states| :: states[i] in allowed
  }

  predicate Any(states: seq<Milestone>, wanted: set<Milestone>) {
    exists i | 0 <= i < |states| :: states[i] in wanted
  }

  function NextContractState(states: seq<Milestone>): Contract {
    if |states| > 0 && Every(states, {Paid}) then Completed
    else if |states| > 0 && Every(states, {Paid, Returned}) then
      if Every(states, {Returned}) then Refunded else Completed
    else if Any(states, {InDispute}) then Disputed
    else if Any(states, {AwaitingBuyerReview, Submitted, Approved}) then AwaitingReview
    else if Any(states, {Active, ChangesRequested, AutoFailed}) then InProgress
    else Funded
  }

  /** Some milestone is in this state. */
  predicate In(states: seq<Milestone>, m: Milestone) { exists i | 0 <= i < |states| :: states[i] == m }

  predicate SomeAwaitsReview(states: seq<Milestone>) {
    In(states, Submitted) || In(states, AwaitingBuyerReview) || In(states, Approved)
  }

  predicate SomeInWork(states: seq<Milestone>) {
    In(states, Active) || In(states, AutoFailed) || In(states, ChangesRequested)
  }

  predicate AllSettled(states: seq<Milestone>) {
    forall i | 0 <= i < |states| :: states[i] == Paid || states[i] == Returned
  }

  /**
   * What the implied state says of the milestones: a dispute outranks a review and a review outranks work; a contract
   * whose milestones are all settled is completed if any was paid, and one with nothing under way is funded.
   */
  lemma ImpliedStateIff(states: seq<Milestone>)
    ensures var s := NextContractState(states);
            && (s == Completed <==> AllSettled(states) && In(states, Paid))
            && (s == Refunded <==> AllSettled(states) && In(states, Returned) && !In(states, Paid))
            && (s == Disputed <==> In(states, InDispute))
            && (s == AwaitingReview <==> !In(states, InDispute) && SomeAwaitsReview(states))
            && (s == InProgress <==> !In(states, InDispute) && !SomeAwaitsReview(states) && SomeInWork(states))
            && (s == Funded <==>
                  && !In(states, InDispute) && !SomeAwaitsReview(states) && !SomeInWork(states)
                  && (In(states, Pending) || states == []))
  {
    assert states != [] ==> In(states, states[0]);
    assert AllSettled(states) <==> Every(states, {Paid, Returned});
    if !Every(states, {Returned}) {
      var i :| 0 <= i < |states| && states[i] !in {Returned};
      assert AllSettled(states) ==> states[i] == Paid;
    }
    if !Every(states, {Paid, Returned}) {
      var i :| 0 <= i < |states| && states[i] !in {Paid, Returned};
      assert In(states, states[i]);
    }
  }

  /** Every change of the derived state that a single allowed milestone transition can cause. */
  predicate DerivedEdge(a: Contract, b: Contract) {
    || (a == Funded && b == InProgress)
    || (a == InProgress && b in {AwaitingReview, Disputed})
    || (a == AwaitingReview && b in {InProgress, Disputed, Completed, Funded})
    || (a == Disputed && b in {InProgress, AwaitingReview, Completed, Refunded, Funded})
  }

  /** The derived edges that the contract table itself does not list. */
  predicate BeyondTheTable(a: Contract, b: Contract) {
    (a == AwaitingReview && b == Funded) || (a == Disputed && b in {AwaitingReview, Funded})
  }

  lemma TableGap(a: Contract, b: Contract)
    ensures DerivedEdge(a, b) ==> (CanTransitionContract(a, b) <==> !BeyondTheTable(a, b))
    ensures BeyondTheTable(a, b) ==> DerivedEdge(a, b) && !CanTransitionContract(a, b)
  {
  }

  /** What an update at i leaves in the list. */
  lemma AfterUpdate(states: seq<Milestone>, i: nat, to: Milestone, w: set<Milestone>)
    requires i < |states|
    ensures Any(states[i := to], w) <==> to in w || exists j | 0 <= j < |states| && j != i :: states[j] in w
    ensures Any(states, w) <==> states[i] in w || exists j | 0 <= j < |states| && j != i :: states[j] in w
    ensures Every(states[i := to], w) <==> to in w && forall j | 0 <= j < |states| && j != i :: states[j] in w
    ensures Every(states, w) <==> states[i] in w && forall j | 0 <= j < |states| && j != i :: states[j] in w
  {
    var after := states[i := to];
    assert after[i] == to;
    if Any(after, w) && to !in w { var j :| 0 <= j < |after| && after[j] in w; assert j != i && states[j] in w; }
    if j :| 0 <= j < |states| && j != i && states[j] in w { assert after[j] in w; }
    if Every(after, w) {
      forall j | 0 <= j < |states| && j != i ensures states[j] in w { assert after[j] == states[j]; }
    }
  }

  lemma EachStepStaysOrFollowsAnEdge(states: seq<Milestone>, i: nat, to: Milestone)
    requires i < |states| && CanTransitionMilestone(states[i], to)
    ensures var a, b := NextContractState(states), NextContractState(states[i := to]);
            a == b || DerivedEdge(a, b)
  {
    AfterUpdate(states, i, to, {Paid});
    AfterUpdate(states, i, to, {Returned});
    AfterUpdate(states, i, to, {Paid, Returned});
    AfterUpdate(states, i, to, {InDispute});
    AfterUpdate(states, i, to, {AwaitingBuyerReview, Submitted, Approved});
    AfterUpdate(states, i, to, {Active, ChangesRequested, AutoFailed});
    match states[i]
    case Pending =>
    case Active =>
    case Submitted =>
    case AutoFailed =>
    case AwaitingBuyerReview =>
    case ChangesRequested =>
    case Approved =>
    case InDispute =>
    case Paid =>
    case Returned =>
  }

  function WitnessFor(a: Contract, b: Contract): (seq<Milestone>, Milestone)
    requires DerivedEdge(a, b)
  {
    match (a, b)
    case (Funded, _) => ([Pending], Active)
    case (InProgress, AwaitingReview) => ([Active], Submitted)
    case (InProgress, _) => ([Active], InDispute)
    case (AwaitingReview, InProgress) => ([Submitted], ChangesRequested)
    case (AwaitingReview, Disputed) => ([Approved], InDispute)
    case (AwaitingReview, Completed) => ([Approved], Paid)
    case (AwaitingReview, _) => ([Approved, Pending], Paid)
    case (Disputed, InProgress) => ([InDispute], Active)
    case (Disputed, AwaitingReview) => ([InDispute], Approved)
    case (Disputed, Completed) => ([InDispute, Paid], Returned)
    case (Disputed, Refunded) => ([InDispute], Returned)
    case _ => ([InDispute, Pending], Returned)
  }

  ghost predicate Realised(a: Contract, b: Contract, states: seq<Milestone>, i: nat, to: Milestone) {
    && i < |states|
    && CanTransitionMilestone(states[i], to)
    && NextContractState(states) == a
    && NextContractState(states[i := to]) == b
  }

  lemma WitnessRealises(a: Contract, b: Contract)
    requires DerivedEdge(a, b)
    ensures Realised(a, b, WitnessFor(a, b).0, 0, WitnessFor(a, b).1)
  {
    var (states, to) := WitnessFor(a, b);
    var after := states[0 := to];
    assert states[0] in states && after[0] == to;
    if |states| == 2 { assert after[1] == states[1]; }
  }

  /** The derived edges are exactly the changes that some allowed milestone transition causes. */
  lemma DerivedEdgesAreExact(a: Contract, b: Contract)
    requires a != b
    ensures DerivedEdge(a, b) <==> exists states, i, to :: Realised(a, b, states, i, to)
  {
    if DerivedEdge(a, b) {
      WitnessRealises(a, b);
    }
    if states: seq<Milestone>, i: nat, to: Milestone :| Realised(a, b, states, i, to) {
      EachStepStaysOrFollowsAnEdge(states, i, to);
    }
  }

  // ---- whole runs ----

  /** One write to the milestone list: nothing (a replay), or one allowed transition of one milestone. */
  ghost predicate Moves(before: seq<Milestone>, after: seq<Milestone>) {
    || after == before
    || exists i: nat, to | i < |before| && CanTransitionMilestone(before[i], to) :: after == before[i := to]
  }

  ghost predicate Run(run: seq<seq<Milestone>>) {
    forall k | 0 <= k < |run| - 1 :: Moves(run[k], run[k + 1])
  }

  /** Once every milestone is paid or refunded nothing moves again, so neither does the derived state. */
  lemma {:induction false} SettledContractsStaySettled(run: seq<seq<Milestone>>, k: nat, m: nat)
    requires Run(run) && k <= m < |run|
    requires Every(run[k], {Paid, Returned})
    ensures run[m] == run[k]
    ensures NextContractState(run[m]) == NextContractState(run[k])
    decreases m - k
  {
    if k < m {
      assert Moves(run[k], run[k + 1]);
      assert forall i | 0 <= i < |run[k]| :: MilestoneMoves(run[k][i]) == {};
      SettledContractsStaySettled(run, k + 1, m);
    }
  }

  /** Along any run the derived state stays, follows the contract table, or takes one of the three further edges. */
  lemma RunsFollowDerivedEdges(run: seq<seq<Milestone>>, k: nat)
    requires Run(run) && k + 1 < |run|
    ensures var a, b := NextContractState(run[k]), NextContractState(run[k + 1]);
            a == b || CanTransitionContract(a, b) || BeyondTheTable(a, b)
  {
    assert Moves(run[k], run[k + 1]);
    if run[k + 1] != run[k] {
      var i: nat, to :| i < |run[k]| && CanTransitionMilestone(run[k][i], to) && run[k + 1] == run[k][i := to];
      EachStepStaysOrFollowsAnEdge(run[k], i, to);
      TableGap(NextContractState(run[k]), NextContractState(run[k + 1]));
    }
  }
}
