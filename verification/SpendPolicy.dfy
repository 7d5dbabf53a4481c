/**
 * Spend ceilings over rolling windows (lib/buyer-spend-policy.ts, lib/agent-spend-policy.ts). Amounts are integer
 * cents, times epoch seconds.
 */
module SpendPolicy {
  import opened Options

  type BuyerId = nat

  const DAY: nat := 86_400

  datatype Trade = Trade(buyer: BuyerId, totalCost: nat, amount: nat, fee: nat, created: nat, cancelled: bool,
      ledger: bool, refunded: bool)

  /** A prepaid session; closedAt is set exactly when its status is closed. */
  datatype Session = Session(buyer: BuyerId, budget: nat, refunded: nat, closedAt: Option<nat>)

  datatype Contract = Contract(buyer: BuyerId, credit: bool, escrow: nat, fundedAt: Option<nat>)

  datatype Book = Book(trades: seq<Trade>, sessions: seq<Session>, contracts: seq<Contract>, now: nat)

  // ---- exposure ----

  function TradeMinor(t: Trade): nat { if t.totalCost > 0 then t.totalCost else t.amount + t.fee }

  function TradeExposure(t: Trade, buyer: BuyerId, since: nat): nat {
    if t.buyer == buyer && t.created >= since && (!t.cancelled || (!t.ledger && !t.refunded)) then TradeMinor(t) else 0
  }

  function SessionExposure(s: Session, buyer: BuyerId, since: nat): nat {
    if s.buyer == buyer && (s.closedAt.None? || s.closedAt.value >= since) && s.refunded <= s.budget
    then s.budget - s.refunded
    else 0
  }

  function ContractExposure(c: Contract, buyer: BuyerId, since: nat): nat {
    if c.buyer == buyer && c.credit && c.fundedAt.Some? && c.fundedAt.value >= since then c.escrow else 0
  }

  function Total(xs: seq<nat>): nat { if xs == [] then 0 else xs[0] + Total(xs[1..]) }

  function TradeColumn(ts: seq<Trade>, buyer: BuyerId, since: nat): seq<nat> {
    seq(|ts|, i requires 0 <= i < |ts| => TradeExposure(ts[i], buyer, since))
  }

  function SessionColumn(ss: seq<Session>, buyer: BuyerId, since: nat): seq<nat> {
    seq(|ss|, i requires 0 <= i < |ss| => SessionExposure(ss[i], buyer, since))
  }

  function ContractColumn(cs: seq<Contract>, buyer: BuyerId, since: nat): seq<nat> {
    seq(|cs|, i requires 0 <= i < |cs| => ContractExposure(cs[i], buyer, since))
  }

  function ReservedSince(b: Book, buyer: BuyerId, since: nat): nat {
    Total(TradeColumn(b.trades, buyer, since)) + Total(SessionColumn(b.sessions, buyer, since))
        + Total(ContractColumn(b.contracts, buyer, since))
  }

  function DayStart(now: nat): nat { now / DAY * DAY }

  /** The start of the UTC month of an instant; the calendar enters only through these two facts. */
  ghost predicate Calendar(month: nat -> nat) {
    (forall t: nat :: month(t) <= t) && (forall t: nat, u: nat :: t <= u ==> month(t) <= month(u))
  }

  // ---- admission ----

  datatype Rail = Ledger | Credit | Mpp | Evm

  datatype Policy = Policy(
    maxPerExecution: Option<nat>, maxDaily: Option<nat>, maxMonthly: Option<nat>, maxRetryBudget: Option<nat>,
    approvalAbove: Option<nat>,
    allowedCapabilities: Option<set<string>>, blockedCapabilities: Option<set<string>>,
    approvedProviders: Option<set<string>>, blockedProviders: Option<set<string>>,
    approvedRails: Option<set<Rail>>, requiredVerification: Option<set<string>>)

  /** thresholdSatisfied stands for a purchase approval that covers this context; providers are compared by id. */
  datatype Context = Context(total: nat, seller: Option<string>, capabilities: Option<set<string>>, rail: Option<Rail>,
                             verification: Option<set<string>>, retrySpend: Option<nat>, thresholdSatisfied: bool)

  datatype Reason =
    | PerExecutionLimit | ApprovalRequired | RetryBudgetExceeded | RailBlocked | ProviderBlocked | CapabilityBlocked
    | VerificationRequired | DailyLimit | MonthlyLimit | AgentPerTradeLimit | AgentDailyLimit

  function Constraint(p: Policy, c: Context): Option<Reason> {
    if p.maxPerExecution.Some? && c.total > p.maxPerExecution.value then Some(PerExecutionLimit)
    else if p.approvalAbove.Some? && c.total > p.approvalAbove.value && !c.thresholdSatisfied
        then Some(ApprovalRequired)
    else if p.maxRetryBudget.Some? && c.retrySpend.Some? && c.retrySpend.value > p.maxRetryBudget.value
        then Some(RetryBudgetExceeded)
    else if p.approvedRails.Some? && (c.rail.None? || c.rail.value !in p.approvedRails.value) then Some(RailBlocked)
    else if p.approvedProviders.Some? && (c.seller.None? || c.seller.value !in p.approvedProviders.value)
        then Some(ProviderBlocked)
    else if p.blockedProviders.Some? && c.seller.Some? && c.seller.value in p.blockedProviders.value
        then Some(ProviderBlocked)
    else if p.allowedCapabilities.Some?
        && (c.capabilities.None? || !(c.capabilities.value <= p.allowedCapabilities.value)) then Some(CapabilityBlocked)
    else if p.blockedCapabilities.Some? && c.capabilities.Some?
        && c.capabilities.value * p.blockedCapabilities.value != {} then Some(CapabilityBlocked)
    else if p.requiredVerification.Some?
        && (c.verification.None? || !(p.requiredVerification.value <= c.verification.value))
        then Some(VerificationRequired)
    else None
  }

  /** What a policy's fixed rules ask of a purchase, rule by rule. */
  predicate Obeys(p: Policy, c: Context) {
    && (p.maxPerExecution.Some? ==> c.total <= p.maxPerExecution.value)
    && (p.approvalAbove.Some? && !c.thresholdSatisfied ==> c.total <= p.approvalAbove.value)
    && (p.maxRetryBudget.Some? && c.retrySpend.Some? ==> c.retrySpend.value <= p.maxRetryBudget.value)
    && (p.approvedRails.Some? ==> exists r | r in p.approvedRails.value :: c.rail == Some(r))
    && (p.approvedProviders.Some? ==> exists s | s in p.approvedProviders.value :: c.seller == Some(s))
    && (p.blockedProviders.Some? ==> forall s | s in p.blockedProviders.value :: c.seller != Some(s))
    && (p.allowedCapabilities.Some? ==>
        c.capabilities.Some? && forall x | x in c.capabilities.value :: x in p.allowedCapabilities.value)
    && (p.blockedCapabilities.Some? && c.capabilities.Some? ==>
        forall x | x in c.capabilities.value :: x !in p.blockedCapabilities.value)
    && (p.requiredVerification.Some? ==>
        c.verification.Some? && forall v | v in p.requiredVerification.value :: v in c.verification.value)
  }

  lemma DisjointByMember(a: set<string>, b: set<string>)
    ensures a * b == {} <==> forall x | x in a :: x !in b
  {
    if x :| x in a && x in b { assert x in a * b; }
  }

  /** The chain of checks lets through exactly the purchases that obey every rule. */
  lemma ChecksAreExact(p: Policy, c: Context)
    ensures Constraint(p, c).None? <==> Obeys(p, c)
  {
    if p.blockedCapabilities.Some? && c.capabilities.Some? {
      DisjointByMember(c.capabilities.value, p.blockedCapabilities.value);
    }
    if p.approvedRails.Some? && c.rail.Some? { assert c.rail == Some(c.rail.value); }
    if p.approvedProviders.Some? && c.seller.Some? { assert c.seller == Some(c.seller.value); }
  }

  /** None when the buyer's policy admits a reservation of c.total; policy None when the buyer has none. */
  function EnforceBuyer(policy: Option<Policy>, b: Book, buyer: BuyerId, c: Context,
      month: nat -> nat): Option<Reason> {
    if policy.None? then None
    else
      var p := policy.value;
      var reason := Constraint(p, c);
      if reason.Some? then reason
      else if p.maxDaily.Some? && ReservedSince(b, buyer, DayStart(b.now)) + c.total > p.maxDaily.value
          then Some(DailyLimit)
      else if p.maxMonthly.Some? && ReservedSince(b, buyer, month(b.now)) + c.total > p.maxMonthly.value
          then Some(MonthlyLimit)
      else None
  }

  datatype Ceilings = Ceilings(perTrade: nat, daily: nat)

  /** Deployment ceilings first, then the buyer's own policy. */
  function EnforceAgent(limits: Ceilings, policy: Option<Policy>, b: Book, buyer: BuyerId, c: Context,
      month: nat -> nat): Option<Reason> {
    if c.total > limits.perTrade then Some(AgentPerTradeLimit)
    else if ReservedSince(b, buyer, DayStart(b.now)) + c.total > limits.daily then Some(AgentDailyLimit)
    else EnforceBuyer(policy, b, buyer, c, month)
  }

  /** Funding rechecks today's ceilings; the trade itself already counts. */
  function FundingFailure(limits: Ceilings, b: Book, t: Trade): Option<Reason> {
    if t.totalCost > limits.perTrade then Some(AgentPerTradeLimit)
    else if ReservedSince(b, t.buyer, DayStart(b.now)) > limits.daily then Some(AgentDailyLimit)
    else None
  }

  // ---- runs ----

  datatype Event =
    | Wait(seconds: nat)
    | OpenTrade(trade: Trade, context: Context)
    | CancelTrade(index: nat)
    | RefundTrade(index: nat)
    | OpenSession(session: Session, context: Context)
    | CloseSession(index: nat, balance: nat)
    | DraftContract(draft: Contract)
    | FundContract(index: nat, context: Context)

  /** What is being bought by this event, if anything. */
  function Purchase(b: Book, e: Event): Option<(BuyerId, Context, nat)> {
    match e
    case OpenTrade(t, c) => Some((t.buyer, c, TradeMinor(t)))
    case OpenSession(s, c) => Some((s.buyer, c, s.budget))
    case FundContract(i, c) =>
      if i < |b.contracts| then Some((b.contracts[i].buyer, c, b.contracts[i].escrow)) else None
    case _ => None
  }

  /**
   * The row the event acts on exists and is in a state the event applies to; a new row starts now, open and
   * uncancelled.
   */
  predicate Applies(b: Book, e: Event) {
    match e
    case Wait(_) => true
    case OpenTrade(t, _) => t.created == b.now && !t.cancelled && !t.refunded
    case CancelTrade(i) => i < |b.trades|
    case RefundTrade(i) => i < |b.trades|
    case OpenSession(s, _) => s.closedAt.None? && s.refunded == 0
    case CloseSession(i, balance) =>
      i < |b.sessions| && b.sessions[i].closedAt.None? && b.sessions[i].refunded + balance <= b.sessions[i].budget
    case DraftContract(c) => c.fundedAt.None?
    case FundContract(i, _) => i < |b.contracts| && b.contracts[i].fundedAt.None? && b.contracts[i].credit
  }

  function Apply(b: Book, e: Event): Book
    requires Applies(b, e)
  {
    match e
    case Wait(d) => b.(now := b.now + d)
    case OpenTrade(t, _) => b.(trades := b.trades + [t])
    case CancelTrade(i) => b.(trades := b.trades[i := b.trades[i].(cancelled := true)])
    case RefundTrade(i) => b.(trades := b.trades[i := b.trades[i].(refunded := true)])
    case OpenSession(s, _) => b.(sessions := b.sessions + [s])
    case CloseSession(i, balance) =>
      b.(sessions := b.sessions[i := b.sessions[i].(refunded := b.sessions[i].refunded + balance,
          closedAt := Some(b.now))])
    case DraftContract(c) => b.(contracts := b.contracts + [c])
    case FundContract(i, _) => b.(contracts := b.contracts[i := b.contracts[i].(fundedAt := Some(b.now))])
  }

  // ---- sums ----

  lemma {:induction false} TotalPointwise(xs: seq<nat>, ys: seq<nat>)
    requires |xs| == |ys| && forall i | 0 <= i < |xs| :: xs[i] <= ys[i]
    ensures Total(xs) <= Total(ys)
  {
    if xs != [] { TotalPointwise(xs[1..], ys[1..]); }
  }

  lemma {:induction false} TotalAppend(xs: seq<nat>, x: nat)
    ensures Total(xs + [x]) == Total(xs) + x
  {
    if xs != [] {
      TotalAppend(xs[1..], x);
      assert (xs + [x])[1..] == xs[1..] + [x];
    } else {
      assert [x][1..] == [];
    }
  }

  lemma {:induction false} TotalUpdate(xs: seq<nat>, i: nat, x: nat)
    requires i < |xs|
    ensures Total(xs[i := x]) == Total(xs) - xs[i] + x
  {
    if i > 0 {
      TotalUpdate(xs[1..], i - 1, x);
      assert xs[i := x][1..] == xs[1..][i - 1 := x];
    } else {
      assert xs[0 := x][1..] == xs[1..];
    }
  }

  /** A later window start never sees more. */
  lemma LaterWindowsSeeLess(b: Book, buyer: BuyerId, early: nat, late: nat)
    requires early <= late
    ensures ReservedSince(b, buyer, late) <= ReservedSince(b, buyer, early)
  {
    TotalPointwise(TradeColumn(b.trades, buyer, late), TradeColumn(b.trades, buyer, early));
    TotalPointwise(SessionColumn(b.sessions, buyer, late), SessionColumn(b.sessions, buyer, early));
    TotalPointwise(ContractColumn(b.contracts, buyer, late), ContractColumn(b.contracts, buyer, early));
  }

  /**
   * Only a purchase by this buyer raises the buyer's exposure, and by exactly its price; nothing else raises it at all.
   */
  lemma OnlyPurchasesRaiseExposure(b: Book, e: Event, buyer: BuyerId, since: nat)
    requires Applies(b, e) && since <= b.now
    ensures var after, before := ReservedSince(Apply(b, e), buyer, since), ReservedSince(b, buyer, since);
            if Purchase(b, e).Some? && Purchase(b, e).value.0 == buyer then
              after == before + Purchase(b, e).value.2
            else after <= before
  {
    var a := Apply(b, e);
    match e
    case Wait(_) =>
    case OpenTrade(t, _) =>
      TotalAppend(TradeColumn(b.trades, buyer, since), TradeExposure(t, buyer, since));
      assert TradeColumn(a.trades, buyer, since) == TradeColumn(b.trades, buyer, since)
          + [TradeExposure(t, buyer, since)];
    case CancelTrade(i) =>
      TotalPointwise(TradeColumn(a.trades, buyer, since), TradeColumn(b.trades, buyer, since));
    case RefundTrade(i) =>
      TotalPointwise(TradeColumn(a.trades, buyer, since), TradeColumn(b.trades, buyer, since));
    case OpenSession(s, _) =>
      TotalAppend(SessionColumn(b.sessions, buyer, since), SessionExposure(s, buyer, since));
      assert SessionColumn(a.sessions, buyer, since) == SessionColumn(b.sessions, buyer, since)
          + [SessionExposure(s, buyer, since)];
    case CloseSession(i, _) =>
      TotalPointwise(SessionColumn(a.sessions, buyer, since), SessionColumn(b.sessions, buyer, since));
    case DraftContract(c) =>
      TotalAppend(ContractColumn(b.contracts, buyer, since), ContractExposure(c, buyer, since));
      assert ContractColumn(a.contracts, buyer, since) == ContractColumn(b.contracts, buyer, since)
          + [ContractExposure(c, buyer, since)];
    case FundContract(i, _) =>
      TotalUpdate(ContractColumn(b.contracts, buyer, since), i, ContractExposure(a.contracts[i], buyer, since));
      assert ContractColumn(a.contracts, buyer, since)
          == ContractColumn(b.contracts, buyer, since)[i := ContractExposure(a.contracts[i], buyer, since)];
  }

  lemma DaysAdvance(t: nat, u: nat)
    requires t <= u
    ensures DayStart(t) <= DayStart(u) && DayStart(t) <= t
  {
    assert t / DAY <= u / DAY;
  }

  // ---- the ceilings hold in every reachable book ----

  /** A run in which each purchase by the buyer is declared at its price and passes the given check when it is made. */
  ghost predicate Run(bs: seq<Book>, es: seq<Event>, buyer: BuyerId, admits: (Book, Context) -> bool) {
    && |bs| == |es| + 1
    && forall k | 0 <= k < |es| ::
      && Applies(bs[k], es[k])
      && bs[k + 1] == Apply(bs[k], es[k])
      && var p := Purchase(bs[k], es[k]);
         p.Some? && p.value.0 == buyer ==> p.value.1.total == p.value.2 && admits(bs[k], p.value.1)
  }

  ghost predicate WithinPolicy(b: Book, buyer: BuyerId, p: Policy, month: nat -> nat) {
    && (p.maxDaily.Some? ==> ReservedSince(b, buyer, DayStart(b.now)) <= p.maxDaily.value)
    && (p.maxMonthly.Some? ==> ReservedSince(b, buyer, month(b.now)) <= p.maxMonthly.value)
  }

  /** One step keeps any ceiling that the step's purchase was admitted under. */
  lemma StepKeepsCeiling(b: Book, e: Event, buyer: BuyerId, start: nat -> nat, limit: nat)
    requires Applies(b, e) && Calendar(start)
    requires ReservedSince(b, buyer, start(b.now)) <= limit
    requires Purchase(b, e).Some? && Purchase(b, e).value.0 == buyer ==>
               ReservedSince(b, buyer, start(b.now)) + Purchase(b, e).value.2 <= limit
    ensures ReservedSince(Apply(b, e), buyer, start(Apply(b, e).now)) <= limit
  {
    var a := Apply(b, e);
    OnlyPurchasesRaiseExposure(b, e, buyer, start(b.now));
    assert b.now <= a.now;
    LaterWindowsSeeLess(a, buyer, start(b.now), start(a.now));
  }

  lemma DaysAreACalendar()
    ensures Calendar(DayStart)
  {
    forall t: nat, u: nat | t <= u ensures DayStart(t) <= DayStart(u) { DaysAdvance(t, u); }
    forall t: nat ensures DayStart(t) <= t { DaysAdvance(t, t); }
  }

  /** With a fixed policy, daily and monthly exposure stay within its limits in every reachable book. */
  lemma {:induction false} BuyerCeilingsHold(bs: seq<Book>, es: seq<Event>, buyer: BuyerId, p: Policy,
      month: nat -> nat, k: nat)
    requires Calendar(month)
    requires Run(bs, es, buyer, (b, c) => EnforceBuyer(Some(p), b, buyer, c, month).None?)
    requires WithinPolicy(bs[0], buyer, p, month)
    requires k <= |es|
    ensures WithinPolicy(bs[k], buyer, p, month)
  {
    if k > 0 {
      BuyerCeilingsHold(bs, es, buyer, p, month, k - 1);
      DaysAreACalendar();
      if p.maxDaily.Some? { StepKeepsCeiling(bs[k - 1], es[k - 1], buyer, DayStart, p.maxDaily.value); }
      if p.maxMonthly.Some? { StepKeepsCeiling(bs[k - 1], es[k - 1], buyer, month, p.maxMonthly.value); }
    }
  }

  ghost predicate WithinCeilings(b: Book, buyer: BuyerId, limits: Ceilings) {
    && ReservedSince(b, buyer, DayStart(b.now)) <= limits.daily
    && forall i | 0 <= i < |b.trades| && b.trades[i].buyer == buyer :: b.trades[i].totalCost <= limits.perTrade
  }

  /**
   * With fixed deployment ceilings an agent's exposure stays below the daily one, and no trade exceeds the per-trade
   * one.
   */
  lemma {:induction false} AgentCeilingsHold(bs: seq<Book>, es: seq<Event>, buyer: BuyerId, limits: Ceilings,
      policy: Option<Policy>, month: nat -> nat, k: nat)
    requires Run(bs, es, buyer, (b, c) => EnforceAgent(limits, policy, b, buyer, c, month).None?)
    requires WithinCeilings(bs[0], buyer, limits)
    requires k <= |es|
    ensures WithinCeilings(bs[k], buyer, limits)
  {
    if k > 0 {
      AgentCeilingsHold(bs, es, buyer, limits, policy, month, k - 1);
      DaysAreACalendar();
      StepKeepsCeiling(bs[k - 1], es[k - 1], buyer, DayStart, limits.daily);
    }
  }

  /** So a trade admitted under those ceilings never fails the later funding recheck. */
  lemma FundingRecheckPasses(bs: seq<Book>, es: seq<Event>, buyer: BuyerId, limits: Ceilings, policy: Option<Policy>,
      month: nat -> nat, k: nat, i: nat)
    requires Run(bs, es, buyer, (b, c) => EnforceAgent(limits, policy, b, buyer, c, month).None?)
    requires WithinCeilings(bs[0], buyer, limits)
    requires k <= |es| && i < |bs[k].trades| && bs[k].trades[i].buyer == buyer
    ensures FundingFailure(limits, bs[k], bs[k].trades[i]).None?
  {
    AgentCeilingsHold(bs, es, buyer, limits, policy, month, k);
  }

  /** Cancelling releases a ledger trade at once, any other trade only when it is refunded. */
  lemma CancelledTradesCountUntilRefunded(t: Trade, since: nat)
    requires t.created >= since && t.cancelled
    ensures TradeExposure(t, t.buyer, since) == if t.ledger || t.refunded then 0 else TradeMinor(t)
  {
  }
}
