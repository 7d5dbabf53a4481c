/**
 * What the spend windows count and exactly which purchases are admitted (lib/buyer-spend-policy.ts,
 * lib/agent-spend-policy.ts), with the UTC day and month as windows.
 */
module SpendAnswers {
  import opened Options
  import opened SpendPolicy

  // ---- what a window counts ----

  function Price(t: Trade): nat { if t.totalCost > 0 then t.totalCost else t.amount + t.fee }

  /** A trade counts from its creation on, until it is cancelled on the ledger rail or refunded on another. */
  predicate TradeCounts(t: Trade, buyer: BuyerId, since: nat) {
    t.buyer == buyer && since <= t.created && (t.cancelled ==> !t.ledger && !t.refunded)
  }

  /** A session counts while it is open, and a closed one from its closing on. */
  predicate SessionCounts(s: Session, buyer: BuyerId, since: nat) {
    s.buyer == buyer && (s.closedAt.Some? ==> since <= s.closedAt.value)
  }

  predicate ContractCounts(c: Contract, buyer: BuyerId, since: nat) {
    c.buyer == buyer && c.credit && c.fundedAt.Some? && since <= c.fundedAt.value
  }

  /** An empty book counts nothing, and each further row adds its own amount exactly if it lies in the window. */
  lemma NothingCountsAtFirst(buyer: BuyerId, since: nat, now: nat)
    ensures ReservedSince(Book([], [], [], now), buyer, since) == 0
  {
  }

  lemma EachTradeCountsOnce(b: Book, t: Trade, buyer: BuyerId, since: nat)
    ensures ReservedSince(b.(trades := b.trades + [t]), buyer, since)
         == ReservedSince(b, buyer, since) + if TradeCounts(t, buyer, since) then Price(t) else 0
  {
    var column := TradeColumn(b.trades, buyer, since);
    TotalAppend(column, TradeExposure(t, buyer, since));
    assert TradeColumn(b.trades + [t], buyer, since) == column + [TradeExposure(t, buyer, since)];
  }

  lemma EachSessionCountsOnce(b: Book, s: Session, buyer: BuyerId, since: nat)
    requires s.refunded <= s.budget
    ensures ReservedSince(b.(sessions := b.sessions + [s]), buyer, since)
         == ReservedSince(b, buyer, since) + if SessionCounts(s, buyer, since) then s.budget - s.refunded else 0
  {
    var column := SessionColumn(b.sessions, buyer, since);
    TotalAppend(column, SessionExposure(s, buyer, since));
    assert SessionColumn(b.sessions + [s], buyer, since) == column + [SessionExposure(s, buyer, since)];
  }

  lemma EachContractCountsOnce(b: Book, c: Contract, buyer: BuyerId, since: nat)
    ensures ReservedSince(b.(contracts := b.contracts + [c]), buyer, since)
         == ReservedSince(b, buyer, since) + if ContractCounts(c, buyer, since) then c.escrow else 0
  {
    var column := ContractColumn(b.contracts, buyer, since);
    TotalAppend(column, ContractExposure(c, buyer, since));
    assert ContractColumn(b.contracts + [c], buyer, since) == column + [ContractExposure(c, buyer, since)];
  }

  /** No row of the buyer lies in the window. */
  predicate AllBefore(b: Book, buyer: BuyerId, since: nat) {
    && (forall i | 0 <= i < |b.trades| :: !TradeCounts(b.trades[i], buyer, since))
    && (forall i | 0 <= i < |b.sessions| :: !SessionCounts(b.sessions[i], buyer, since))
    && (forall i | 0 <= i < |b.contracts| :: !ContractCounts(b.contracts[i], buyer, since))
  }

  /** Such rows count for nothing, however many there are. */
  lemma OldRowsDoNotCount(b: Book, buyer: BuyerId, since: nat)
    requires AllBefore(b, buyer, since)
    ensures ReservedSince(b, buyer, since) == 0
  {
    AllZero(TradeColumn(b.trades, buyer, since));
    AllZero(SessionColumn(b.sessions, buyer, since));
    AllZero(ContractColumn(b.contracts, buyer, since));
  }

  lemma {:induction false} AllZero(xs: seq<nat>)
    requires forall i | 0 <= i < |xs| :: xs[i] == 0
    ensures Total(xs) == 0
  {
    if xs != [] { AllZero(xs[1..]); }
  }

  // ---- the windows ----

  /** Today starts at the one midnight that is at most a day back. */
  lemma TodayStartsAt(now: nat, start: nat)
    ensures start == DayStart(now) <==> start % 86_400 == 0 && start <= now < start + 86_400
  {
    assert now == now / DAY * DAY + now % DAY;
    assert now / DAY * DAY % DAY == 0;
    if start % 86_400 == 0 && start <= now < start + 86_400 {
      assert start == start / DAY * DAY;
      assert start / DAY == now / DAY;
    }
  }

  predicate Leap(year: nat) { year % 4 == 0 && (year % 100 != 0 || year % 400 == 0) }

  /** Months are counted from January 1970. */
  function Length(n: nat): nat {
    if n % 12 == 1 then (if Leap(1970 + n / 12) then 29 else 28)
    else if n % 12 in {3, 5, 8, 10} then 30
    else 31
  }

  /** The first day of a month, counted from the first of January 1970. */
  function First(n: nat): nat { if n == 0 then 0 else First(n - 1) + Length(n - 1) }

  function MonthFrom(day: nat, n: nat): (m: nat)
    requires First(n) <= day
    ensures First(m) <= day < First(m + 1)
    decreases day - First(n)
  {
    if day < First(n + 1) then n else MonthFrom(day, n + 1)
  }

  function MonthStart(now: nat): nat { First(MonthFrom(now / DAY, 0)) * DAY }

  lemma {:induction false} FirstsAdvance(m: nat, n: nat)
    requires m <= n
    ensures First(m) <= First(n) && (m < n ==> First(m + 1) <= First(n))
  {
    if m < n { FirstsAdvance(m, n - 1); }
  }

  /** This month starts on the first of the one month that now lies in. */
  lemma ThisMonthStartsAt(now: nat, n: nat)
    ensures First(n) * 86_400 <= now < First(n + 1) * 86_400 ==> MonthStart(now) == First(n) * 86_400
    ensures MonthStart(now) <= now
  {
    var day := now / DAY;
    var m := MonthFrom(day, 0);
    assert day * DAY <= now < (day + 1) * DAY;
    if First(n) * 86_400 <= now < First(n + 1) * 86_400 {
      assert First(n) <= day < First(n + 1);
      if m < n { FirstsAdvance(m, n); }
      if n < m { FirstsAdvance(n, m); }
    }
  }

  lemma MonthsAreACalendar()
    ensures Calendar(MonthStart)
  {
    forall t: nat ensures MonthStart(t) <= t { ThisMonthStartsAt(t, 0); }
    forall t: nat, u: nat | t <= u ensures MonthStart(t) <= MonthStart(u) {
      assert t / DAY <= u / DAY;
      var m, n := MonthFrom(t / DAY, 0), MonthFrom(u / DAY, 0);
      if n < m { FirstsAdvance(n, m); }
      FirstsAdvance(if m <= n then m else n, n);
    }
  }

  // ---- admission ----

  /** A limit, if there is one, still holds with this purchase added to what its window counts. */
  predicate Fits(limit: Option<nat>, b: Book, buyer: BuyerId, since: nat, price: nat) {
    limit.Some? ==> ReservedSince(b, buyer, since) + price <= limit.value
  }

  /**
   * A buyer's purchase is admitted exactly when the buyer has no policy, or it obeys every rule of the policy and
   * stays, with what today and this month already count, within both limits.
   */
  lemma BuyerAdmissionIff(policy: Option<Policy>, b: Book, buyer: BuyerId, c: Context)
    ensures EnforceBuyer(policy, b, buyer, c, MonthStart).None?
       <==> policy.Some? ==>
              && Obeys(policy.value, c)
              && Fits(policy.value.maxDaily, b, buyer, DayStart(b.now), c.total)
              && Fits(policy.value.maxMonthly, b, buyer, MonthStart(b.now), c.total)
  {
    if policy.Some? { ChecksAreExact(policy.value, c); }
  }

  /** An agent's purchase must also stay within the deployment's ceilings. */
  lemma AgentAdmissionIff(limits: Ceilings, policy: Option<Policy>, b: Book, buyer: BuyerId, c: Context)
    ensures EnforceAgent(limits, policy, b, buyer, c, MonthStart).None?
       <==> && c.total <= limits.perTrade
            && Fits(Some(limits.daily), b, buyer, DayStart(b.now), c.total)
            && EnforceBuyer(policy, b, buyer, c, MonthStart).None?
  {
  }

  /**
   * The funding recheck passes exactly when the trade and today's count, which includes it, are within the ceilings.
   */
  lemma FundingRecheckIff(limits: Ceilings, b: Book, t: Trade)
    ensures FundingFailure(limits, b, t).None?
       <==> t.totalCost <= limits.perTrade && Fits(Some(limits.daily), b, t.buyer, DayStart(b.now), 0)
  {
  }

  /** A spent day does not weigh on the next one: while nothing lies in a window, its limit is there in full. */
  lemma LimitsStartAfresh(p: Policy, b: Book, buyer: BuyerId, c: Context)
    requires Obeys(p, c) && AllBefore(b, buyer, DayStart(b.now)) && AllBefore(b, buyer, MonthStart(b.now))
    ensures EnforceBuyer(Some(p), b, buyer, c, MonthStart).None?
       <==> && (p.maxDaily.Some? ==> c.total <= p.maxDaily.value)
            && (p.maxMonthly.Some? ==> c.total <= p.maxMonthly.value)
  {
    BuyerAdmissionIff(Some(p), b, buyer, c);
    OldRowsDoNotCount(b, buyer, DayStart(b.now));
    OldRowsDoNotCount(b, buyer, MonthStart(b.now));
  }
}
