/**
 * The buyer payment claim protocol on its two rails: exact signed Tempo claims (lib/buyer-mpp-payment.ts) and exact
 * signed EVM claims (lib/buyer-payment-claim.ts), sharing wallets and nonces.
 */
module PaymentClaims {
  import opened Options

  type TradeId = nat
  type BuyerId = nat
  type IntentId = nat
  type MandateId = nat
  type OperationId = nat
  type ChainId = nat
  type Address = nat
  type Hash = nat
  type Challenge = nat  // the canonical challenge text

  datatype Code =
    | TradeNotFound | Forbidden | ScopeMismatch | FeeTermsRequired | MandateInvalid | OperationConflict
    | TransactionScopeMismatch | TransactionFeeLimit | PayerAuthorizationInvalid | TransactionConflict
    | AlreadyReconciled | CheckoutClosed | RouteExecutionDisabled | NewPaymentsPaused | Ineligible(reason: nat)
    | AlreadySubmitted | WalletElsewhere(reason: nat) | WalletUnreconciled | NonceAlreadyClaimed
    | PullNotReady | OriginalCredentialRequired | ChallengeUnavailable | ChallengeScopeMismatch | DuplicateKey
    | StorageBusy

  datatype Rail = MppRail | EvmRail | OtherRail

  datatype Trade = Trade(buyer: BuyerId, rail: Rail, pending: bool, dueMs: Option<nat>, costUnits: nat)

  /** The funding step of a trade: the mandate it draws on, and whether it is still merely reserved. */
  datatype Step = Step(mandate: MandateId, termsHash: Hash, reserved: bool)

  datatype Mandate = Mandate(
    buyer: BuyerId, rail: Rail, termsHash: Hash, chain: ChainId, payer: Address, token: Address, treasury: Address,
    feeToken: Option<Address>, feeDecimals: Option<nat>, feeLimit: nat)

  datatype MppIntent = MppIntent(
    id: IntentId, buyer: BuyerId, operation: OperationId, mandate: MandateId, termsHash: Hash, origin: nat,
    chain: ChainId, payer: Address, token: Address, treasury: Address, amount: nat, expiresMs: nat,
    challenge: Challenge)

  datatype EvmIntent = EvmIntent(
    id: IntentId, buyer: BuyerId, operation: Option<OperationId>, chain: ChainId, payer: Address, token: Address,
    treasury: Address, amount: nat, hash: Option<Hash>)

  datatype ClaimState = Claimed | Confirmed

  datatype MppClaim = MppClaim(
    mandate: MandateId, termsHash: Hash, chain: ChainId, payer: Address, nonce: nat, hash: Hash,
    feeToken: Address, maxFee: nat, validBefore: nat, state: ClaimState, firstSubmissionMs: Option<nat>)

  datatype EvmClaim = EvmClaim(
    mandate: MandateId, termsHash: Hash, chain: ChainId, payer: Address, nonce: nat, hash: Hash, gasCost: nat,
    state: ClaimState)

  /**
   * The rows the protocol reads and writes; trade_id is unique in both intent tables, intent_id is the key of both
   * claim tables.
   */
  datatype Tables = Tables(
    trades: map<TradeId, Trade>, steps: map<TradeId, Step>, mandates: map<MandateId, Mandate>,
    mppIntents: map<TradeId, MppIntent>, evmIntents: map<TradeId, EvmIntent>,
    mppClaims: map<IntentId, MppClaim>, evmClaims: map<IntentId, EvmClaim>)

  /** What a transaction learns from outside these tables; every value is possible at every step. */
  datatype Env = Env(nowMs: nat, routeEnabled: bool, paused: bool, mandateReason: Option<nat>,
      serviceReason: Option<nat>, walletElsewhere: Option<nat>)

  // ---- inspecting exact signed bytes ----

  /**
   * A decoded Tempo transaction; readable is false when decoding, signature recovery or canonical re-encoding fails.
   */
  datatype SignedTempo = SignedTempo(
    readable: bool, hash: Hash, chain: ChainId, sender: Address, nonce: nat, feeToken: Address, maxFee: nat,
    validBefore: nat, to: Address, recipient: Address, amount: nat, memo: TradeId)

  function TempoFault(raw: SignedTempo, t: TradeId, i: MppIntent, p: Mandate): Option<Code> {
    if !raw.readable || raw.chain != i.chain || p.chain != i.chain || raw.sender != i.payer || raw.sender != p.payer
       || p.token != i.token || p.treasury != i.treasury || p.feeToken != Some(raw.feeToken)
       || p.feeToken != Some(p.token)
       || i.amount == 0 || raw.validBefore == 0 || raw.validBefore > i.expiresMs / 1000
       || raw.to != i.token || raw.recipient != i.treasury || raw.amount != i.amount || raw.memo != t || p.feeLimit == 0
    then Some(TransactionScopeMismatch)
    else if raw.maxFee > p.feeLimit then Some(TransactionFeeLimit)
    else None
  }

  datatype SignedEvm = SignedEvm(
    readable: bool, hash: Hash, chain: ChainId, sender: Address, nonce: nat, to: Address, recipient: Address,
    amount: nat, gasCost: nat)

  function EvmFault(raw: SignedEvm, i: EvmIntent, p: Mandate): Option<Code> {
    if !raw.readable || raw.chain != i.chain || i.chain != p.chain || raw.sender != i.payer || raw.sender != p.payer
       || raw.to != i.token || i.token != p.token || i.treasury != p.treasury || i.amount == 0 || p.feeLimit == 0
       || raw.recipient != i.treasury || raw.amount != i.amount || raw.gasCost == 0
    then Some(TransactionScopeMismatch)
    else if raw.gasCost > p.feeLimit then Some(TransactionFeeLimit)
    else None
  }

  // ---- questions asked of the tables ----

  predicate MppWalletHeld(claims: map<IntentId, MppClaim>, chain: ChainId, payer: Address) {
    exists i | i in claims :: claims[i].chain == chain && claims[i].payer == payer && claims[i].state == Claimed
  }

  predicate EvmWalletHeld(claims: map<IntentId, EvmClaim>, chain: ChainId, payer: Address) {
    exists i | i in claims :: claims[i].chain == chain && claims[i].payer == payer && claims[i].state == Claimed
  }

  predicate MppNonceUsed(claims: map<IntentId, MppClaim>, chain: ChainId, payer: Address, nonce: nat) {
    exists i | i in claims :: claims[i].chain == chain && claims[i].payer == payer && claims[i].nonce == nonce
  }

  predicate EvmNonceUsed(claims: map<IntentId, EvmClaim>, chain: ChainId, payer: Address, nonce: nat) {
    exists i | i in claims :: claims[i].chain == chain && claims[i].payer == payer && claims[i].nonce == nonce
  }

  predicate MppHashUsed(claims: map<IntentId, MppClaim>, hash: Hash) {
    exists i | i in claims :: claims[i].hash == hash
  }

  function OwnedTradeFault(s: Tables, t: TradeId, buyer: BuyerId): Option<Code> {
    if t !in s.trades then Some(TradeNotFound)
    else if s.trades[t].buyer != buyer then Some(Forbidden)
    else if s.trades[t].rail != MppRail then Some(ScopeMismatch)
    else None
  }

  function MppScopeFault(s: Tables, t: TradeId): Option<Code>
    requires t in s.trades
  {
    if t !in s.steps || s.steps[t].mandate !in s.mandates || s.mandates[s.steps[t].mandate].buyer != s.trades[t].buyer
    then Some(ScopeMismatch)
    else
      var m := s.mandates[s.steps[t].mandate];
      if m.rail != MppRail || m.feeToken.None? || m.feeDecimals != Some(6) || m.termsHash != s.steps[t].termsHash
          || m.feeToken != Some(m.token)
      then Some(FeeTermsRequired)
      else None
  }

  /** Funding eligibility under the mandate, which a step no longer reserved always fails, and under the service. */
  function EligibilityFault(env: Env, step: Step): Option<Code> {
    if !step.reserved then Some(MandateInvalid)
    else if env.mandateReason.Some? then Some(Ineligible(env.mandateReason.value))
    else if env.serviceReason.Some? then Some(Ineligible(env.serviceReason.value))
    else None
  }

  predicate CheckoutOpen(trade: Trade, nowMs: nat) {
    trade.pending && trade.dueMs.Some? && trade.dueMs.value > nowMs
  }

  /** None when a Tempo payment may be newly submitted. */
  function MppPermission(env: Env, trade: Trade, step: Step, expiresMs: Option<nat>,
      validBefore: Option<nat>): Option<Code> {
    if !CheckoutOpen(trade, env.nowMs) || (expiresMs.Some? && expiresMs.value <= env.nowMs)
       || (validBefore.Some? && validBefore.value <= env.nowMs / 1000) then Some(CheckoutClosed)
    else if !env.routeEnabled then Some(RouteExecutionDisabled)
    else if env.paused then Some(NewPaymentsPaused)
    else EligibilityFault(env, step)
  }

  function EvmPermission(env: Env, trade: Trade, step: Step): Option<Code> {
    if !CheckoutOpen(trade, env.nowMs) then Some(CheckoutClosed)
    else if !env.routeEnabled then Some(RouteExecutionDisabled)
    else if EligibilityFault(env, step).Some? then EligibilityFault(env, step)
    else if env.paused then Some(NewPaymentsPaused)
    else None
  }

  // ---- creating the original Tempo challenge ----

  /**
   * newId is the generated row id; challenge is what the payment server answered, None when it did not answer with a
   * challenge.
   */
  datatype ServerChallenge = ServerChallenge(amount: nat, trade: TradeId, currency: Address, recipient: Address,
      expiresMs: Option<nat>, text: Challenge, small: bool)
  datatype IntentCall = IntentCall(operation: OperationId, origin: nat, newId: IntentId,
      challenge: Option<ServerChallenge>)
  datatype IntentAnswer = IntentRefused(code: Code) | IntentGiven(intent: MppIntent, created: bool)

  predicate OperationUsed(s: Tables, operation: OperationId) {
    exists t | t in s.mppIntents :: s.mppIntents[t].operation == operation
  }

  predicate MppIntentIdUsed(s: Tables, id: IntentId) {
    exists t | t in s.mppIntents :: s.mppIntents[t].id == id
  }

  predicate ChallengeFits(s: Tables, t: TradeId, c: ServerChallenge)
    requires t in s.trades && t in s.steps && s.steps[t].mandate in s.mandates
  {
    var m := s.mandates[s.steps[t].mandate];
    && c.small && c.amount == s.trades[t].costUnits && c.trade == t && c.currency == m.token
    && c.recipient == m.treasury
    && c.expiresMs.Some? && s.trades[t].dueMs.Some? && c.expiresMs.value <= s.trades[t].dueMs.value
  }

  function IntentFor(s: Tables, t: TradeId, call: IntentCall): MppIntent
    requires t in s.trades && t in s.steps && s.steps[t].mandate in s.mandates
    requires call.challenge.Some? && ChallengeFits(s, t, call.challenge.value)
  {
    var m := s.mandates[s.steps[t].mandate];
    MppIntent(call.newId, s.trades[t].buyer, call.operation, s.steps[t].mandate, s.steps[t].termsHash, call.origin,
              m.chain, m.payer, m.token, m.treasury, s.trades[t].costUnits, call.challenge.value.expiresMs.value,
                  call.challenge.value.text)
  }

  function IntentAnswerOf(s: Tables, env: Env, t: TradeId, buyer: BuyerId, call: IntentCall): IntentAnswer {
    if OwnedTradeFault(s, t, buyer).Some? then IntentRefused(OwnedTradeFault(s, t, buyer).value)
    else if t in s.mppIntents then
      if s.mppIntents[t].operation != call.operation || s.mppIntents[t].origin != call.origin then
        IntentRefused(OperationConflict)
      else IntentGiven(s.mppIntents[t], false)
    else if MppScopeFault(s, t).Some? then IntentRefused(MppScopeFault(s, t).value)
    else if MppPermission(env, s.trades[t], s.steps[t], None, None).Some?
        then IntentRefused(MppPermission(env, s.trades[t], s.steps[t], None, None).value)
    else if OperationUsed(s, call.operation) then IntentRefused(OperationConflict)
    else if call.challenge.None? then IntentRefused(ChallengeUnavailable)
    else if !ChallengeFits(s, t, call.challenge.value) then IntentRefused(ChallengeScopeMismatch)
    else if MppIntentIdUsed(s, call.newId) then IntentRefused(DuplicateKey)
    else IntentGiven(IntentFor(s, t, call), true)
  }

  function AfterIntent(s: Tables, t: TradeId, a: IntentAnswer): Tables {
    if a.IntentGiven? && a.created then s.(mppIntents := s.mppIntents[t := a.intent]) else s
  }

  // ---- claiming exact Tempo bytes ----

  datatype MppCall = MppCall(intent: IntentId, mandate: MandateId, operation: OperationId, raw: SignedTempo)
  datatype MppAnswer = MppRefused(code: Code) | MppGiven(claim: MppClaim, send: bool, replay: bool)

  /** Every refusal decided before the claim table is read. */
  function MppRequestFault(s: Tables, t: TradeId, buyer: BuyerId, call: MppCall): Option<Code> {
    if OwnedTradeFault(s, t, buyer).Some? then OwnedTradeFault(s, t, buyer)
    else if t !in s.mppIntents then Some(OperationConflict)
    else
      var i := s.mppIntents[t];
      if i.id != call.intent || i.buyer != buyer || i.operation != call.operation || i.mandate != call.mandate
      then Some(OperationConflict)
      else if MppScopeFault(s, t).Some? then MppScopeFault(s, t)
      else
        var m := s.mandates[s.steps[t].mandate];
        if s.steps[t].mandate != call.mandate || i.termsHash != m.termsHash then Some(ScopeMismatch)
        else TempoFault(call.raw, t, i, m)
  }

  function MppClaimFor(i: MppIntent, raw: SignedTempo): MppClaim {
    MppClaim(i.mandate, i.termsHash, raw.chain, raw.sender, raw.nonce, raw.hash, raw.feeToken, raw.maxFee,
        raw.validBefore, Claimed, None)
  }

  /** The stored claim is for these very bytes. */
  predicate SameMppClaim(prior: MppClaim, i: MppIntent, raw: SignedTempo) {
    prior.(state := Claimed, firstSubmissionMs := None) == MppClaimFor(i, raw)
  }

  function MppReason(s: Tables, env: Env, t: TradeId, prior: Option<MppClaim>, validBefore: nat): Option<Code>
    requires t in s.trades && t in s.steps && t in s.mppIntents
  {
    if (prior.Some? && prior.value.state == Confirmed) || !s.steps[t].reserved then Some(AlreadyReconciled)
    else MppPermission(env, s.trades[t], s.steps[t], Some(s.mppIntents[t].expiresMs), Some(validBefore))
  }

  /** Why a first claim on this wallet and nonce is refused; the insert itself refuses a taken key. */
  function MppInsertFault(s: Tables, env: Env, raw: SignedTempo): Option<Code> {
    if env.walletElsewhere.Some? then Some(WalletElsewhere(env.walletElsewhere.value))
    else if MppWalletHeld(s.mppClaims, raw.chain, raw.sender) || EvmWalletHeld(s.evmClaims, raw.chain, raw.sender)
        then Some(WalletUnreconciled)
    else if EvmNonceUsed(s.evmClaims, raw.chain, raw.sender, raw.nonce) then Some(NonceAlreadyClaimed)
    else if MppNonceUsed(s.mppClaims, raw.chain, raw.sender, raw.nonce) || MppHashUsed(s.mppClaims, raw.hash)
        then Some(NonceAlreadyClaimed)
    else None
  }

  function MppAnswerOf(s: Tables, env: Env, t: TradeId, buyer: BuyerId, call: MppCall): MppAnswer {
    var fault := MppRequestFault(s, t, buyer, call);
    if fault.Some? then MppRefused(fault.value)
    else
      var i := s.mppIntents[t];
      if i.id in s.mppClaims then
        var prior := s.mppClaims[i.id];
        if !SameMppClaim(prior, i, call.raw) then MppRefused(TransactionConflict)
        else MppGiven(prior, MppReason(s, env, t, Some(prior), call.raw.validBefore).None?, true)
      else
        var reason := MppReason(s, env, t, None, call.raw.validBefore);
        if reason.Some? then MppRefused(reason.value)
        else if MppInsertFault(s, env, call.raw).Some? then MppRefused(MppInsertFault(s, env, call.raw).value)
        else MppGiven(MppClaimFor(i, call.raw), true, false)
  }

  function AfterMppClaim(s: Tables, t: TradeId, a: MppAnswer): Tables {
    if a.MppGiven? && !a.replay && t in s.mppIntents then
      s.(mppClaims := s.mppClaims[s.mppIntents[t].id := a.claim])
    else s
  }

  // ---- the broadcast boundary ----

  datatype PullCall = PullCall(payer: Option<Address>, raw: SignedTempo, challenge: Challenge, mark: bool)

  function PullAnswerOf(s: Tables, env: Env, t: TradeId, call: PullCall): MppAnswer {
    if t !in s.mppIntents then MppRefused(PullNotReady)
    else
      var i := s.mppIntents[t];
      if OwnedTradeFault(s, t, i.buyer).Some? then MppRefused(OwnedTradeFault(s, t, i.buyer).value)
      else if MppScopeFault(s, t).Some? then MppRefused(MppScopeFault(s, t).value)
      else if i.id !in s.mppClaims then MppRefused(OriginalCredentialRequired)
      else
        var claim, step := s.mppClaims[i.id], s.steps[t];
        if claim.state != Claimed || claim.mandate != step.mandate || claim.termsHash != step.termsHash
           || (call.payer.Some? && call.payer.value != i.payer) || call.challenge != i.challenge
           || TempoFault(call.raw, t, i, s.mandates[step.mandate]).Some?
           || call.raw.hash != claim.hash || call.raw.sender != claim.payer
        then MppRefused(OriginalCredentialRequired)
        else
          var reason := MppReason(s, env, t, None, call.raw.validBefore);
          if reason.Some? then MppRefused(reason.value) else MppGiven(claim, true, true)
  }

  function AfterPull(s: Tables, env: Env, t: TradeId, call: PullCall, a: MppAnswer): Tables {
    if a.MppGiven? && call.mark && t in s.mppIntents && a.claim.firstSubmissionMs.None?
    then s.(mppClaims := s.mppClaims[s.mppIntents[t].id := a.claim.(firstSubmissionMs := Some(env.nowMs))])
    else s
  }

  // ---- claiming exact EVM bytes ----

  datatype EvmCall = EvmCall(intent: IntentId, mandate: MandateId, operation: Option<OperationId>, raw: SignedEvm,
      proofOk: bool)
  datatype EvmAnswer = EvmRefused(code: Code) | EvmGiven(claim: EvmClaim, send: bool, replay: bool)

  function EvmRequestFault(s: Tables, t: TradeId, buyer: BuyerId, call: EvmCall): Option<Code> {
    if t !in s.trades then Some(TradeNotFound)
    else if s.trades[t].buyer != buyer then Some(Forbidden)
    else if t !in s.evmIntents || s.evmIntents[t].id != call.intent || t !in s.steps
        || s.steps[t].mandate != call.mandate
            || s.evmIntents[t].buyer != buyer || s.trades[t].rail != EvmRail then Some(ScopeMismatch)
    else if s.evmIntents[t].operation != call.operation then Some(OperationConflict)
    else if s.steps[t].mandate !in s.mandates || s.mandates[s.steps[t].mandate].termsHash != s.steps[t].termsHash
        then Some(MandateInvalid)
    else if EvmFault(call.raw, s.evmIntents[t], s.mandates[s.steps[t].mandate]).Some?
        then EvmFault(call.raw, s.evmIntents[t], s.mandates[s.steps[t].mandate])
    else if !call.proofOk then Some(PayerAuthorizationInvalid)
    else None
  }

  function EvmClaimFor(step: Step, raw: SignedEvm): EvmClaim {
    EvmClaim(step.mandate, step.termsHash, raw.chain, raw.sender, raw.nonce, raw.hash, raw.gasCost, Claimed)
  }

  predicate SameEvmClaim(prior: EvmClaim, step: Step, raw: SignedEvm) {
    prior.(state := Claimed) == EvmClaimFor(step, raw)
  }

  function EvmInsertFault(s: Tables, env: Env, raw: SignedEvm): Option<Code> {
    if env.walletElsewhere.Some? then Some(WalletElsewhere(env.walletElsewhere.value))
    else if EvmWalletHeld(s.evmClaims, raw.chain, raw.sender) || MppWalletHeld(s.mppClaims, raw.chain, raw.sender)
        then Some(WalletUnreconciled)
    else if MppNonceUsed(s.mppClaims, raw.chain, raw.sender, raw.nonce) then Some(NonceAlreadyClaimed)
    else if EvmNonceUsed(s.evmClaims, raw.chain, raw.sender, raw.nonce) then Some(NonceAlreadyClaimed)
    else None
  }

  function EvmAnswerOf(s: Tables, env: Env, t: TradeId, buyer: BuyerId, call: EvmCall): EvmAnswer {
    var fault := EvmRequestFault(s, t, buyer, call);
    if fault.Some? then EvmRefused(fault.value)
    else
      var i, step, trade := s.evmIntents[t], s.steps[t], s.trades[t];
      if i.id in s.evmClaims then
        var prior := s.evmClaims[i.id];
        if !SameEvmClaim(prior, step, call.raw) || (i.hash.Some? && i.hash.value != call.raw.hash) then
          EvmRefused(TransactionConflict)
        else EvmGiven(prior, prior.state == Claimed && step.reserved && EvmPermission(env, trade, step).None?, true)
      else if i.hash.Some? && i.hash.value != call.raw.hash then EvmRefused(TransactionConflict)
      else if EvmPermission(env, trade, step).Some? then EvmRefused(EvmPermission(env, trade, step).value)
      else if i.hash.Some? then EvmRefused(AlreadySubmitted)
      else if EvmInsertFault(s, env, call.raw).Some? then EvmRefused(EvmInsertFault(s, env, call.raw).value)
      else EvmGiven(EvmClaimFor(step, call.raw), true, false)
  }

  /** A first claim inserts the row and attaches its hash to the intent. */
  function AfterEvmClaim(s: Tables, t: TradeId, a: EvmAnswer): Tables {
    if a.EvmGiven? && !a.replay && t in s.evmIntents then
      s.(evmClaims := s.evmClaims[s.evmIntents[t].id := a.claim],
          evmIntents := s.evmIntents[t := s.evmIntents[t].(hash := Some(a.claim.hash))])
    else s
  }

  // ---- the store ----

  class PaymentStore {
    var trades: map<TradeId, Trade>
    var steps: map<TradeId, Step>
    var mandates: map<MandateId, Mandate>
    var mppIntents: map<TradeId, MppIntent>
    var evmIntents: map<TradeId, EvmIntent>
    var mppClaims: map<IntentId, MppClaim>
    var evmClaims: map<IntentId, EvmClaim>

    ghost function Contents(): Tables
      reads this
    {
      Tables(trades, steps, mandates, mppIntents, evmIntents, mppClaims, evmClaims)
    }

    constructor ()
      ensures Contents() == Tables(map[], map[], map[], map[], map[], map[], map[])
    {
      trades, steps, mandates := map[], map[], map[];
      mppIntents, evmIntents, mppClaims, evmClaims := map[], map[], map[], map[];
    }

    method OwnedTrade(t: TradeId, buyer: BuyerId) returns (fault: Option<Code>)
      ensures fault == OwnedTradeFault(Contents(), t, buyer)
    {
      if t !in trades { return Some(TradeNotFound); }
      if trades[t].buyer != buyer { return Some(Forbidden); }
      if trades[t].rail != MppRail { return Some(ScopeMismatch); }
      return None;
    }

    method Scope(t: TradeId) returns (fault: Option<Code>)
      requires t in trades
      ensures fault == MppScopeFault(Contents(), t)
    {
      if t !in steps || steps[t].mandate !in mandates { return Some(ScopeMismatch); }
      var m := mandates[steps[t].mandate];
      if m.buyer != trades[t].buyer { return Some(ScopeMismatch); }
      if m.rail != MppRail || m.feeToken.None? || m.feeDecimals != Some(6) || m.termsHash != steps[t].termsHash
          || m.feeToken != Some(m.token) {
        return Some(FeeTermsRequired);
      }
      return None;
    }

    method CreateMppIntent(env: Env, t: TradeId, buyer: BuyerId, call: IntentCall) returns (answer: IntentAnswer)
      modifies this
      ensures answer == IntentAnswerOf(old(Contents()), env, t, buyer, call)
      ensures Contents() == AfterIntent(old(Contents()), t, answer)
    {
      var fault := OwnedTrade(t, buyer);
      if fault.Some? { return IntentRefused(fault.value); }
      if t in mppIntents {
        if mppIntents[t].operation != call.operation || mppIntents[t].origin != call.origin {
          return IntentRefused(OperationConflict);
        }
        return IntentGiven(mppIntents[t], false);
      }
      fault := Scope(t);
      if fault.Some? { return IntentRefused(fault.value); }
      var reason := MppPermission(env, trades[t], steps[t], None, None);
      if reason.Some? { return IntentRefused(reason.value); }
      if exists u | u in mppIntents :: mppIntents[u].operation == call.operation {
        return IntentRefused(OperationConflict);
      }
      if call.challenge.None? { return IntentRefused(ChallengeUnavailable); }
      var c, m := call.challenge.value, mandates[steps[t].mandate];
      if !c.small || c.amount != trades[t].costUnits || c.trade != t || c.currency != m.token
          || c.recipient != m.treasury
         || c.expiresMs.None? || c.expiresMs.value > trades[t].dueMs.value {
        return IntentRefused(ChallengeScopeMismatch);
      }
      if exists u | u in mppIntents :: mppIntents[u].id == call.newId { return IntentRefused(DuplicateKey); }
      var intent := MppIntent(call.newId, buyer, call.operation, steps[t].mandate, steps[t].termsHash, call.origin,
                              m.chain, m.payer, m.token, m.treasury, c.amount, c.expiresMs.value, c.text);
      mppIntents := mppIntents[t := intent];
      return IntentGiven(intent, true);
    }

    /** One transaction attempt of a Tempo claim. */
    method ClaimMppOnce(env: Env, t: TradeId, buyer: BuyerId, call: MppCall) returns (answer: MppAnswer)
      modifies this`mppClaims
      ensures answer == MppAnswerOf(old(Contents()), env, t, buyer, call)
      ensures Contents() == AfterMppClaim(old(Contents()), t, answer)
    {
      var fault := OwnedTrade(t, buyer);
      if fault.Some? { return MppRefused(fault.value); }
      if t !in mppIntents { return MppRefused(OperationConflict); }
      var i, raw := mppIntents[t], call.raw;
      if i.id != call.intent || i.buyer != buyer || i.operation != call.operation || i.mandate != call.mandate {
        return MppRefused(OperationConflict);
      }
      fault := Scope(t);
      if fault.Some? { return MppRefused(fault.value); }
      var step := steps[t];
      var m := mandates[step.mandate];
      if step.mandate != call.mandate || i.termsHash != m.termsHash { return MppRefused(ScopeMismatch); }
      fault := TempoFault(raw, t, i, m);
      if fault.Some? { return MppRefused(fault.value); }
      var prior := if i.id in mppClaims then Some(mppClaims[i.id]) else None;
      if prior.Some? && (prior.value.hash != raw.hash || prior.value.termsHash != i.termsHash
          || prior.value.mandate != i.mandate
          || prior.value.chain != raw.chain || prior.value.payer != raw.sender
          || prior.value.nonce != raw.nonce
          || prior.value.feeToken != raw.feeToken || prior.value.maxFee != raw.maxFee
          || prior.value.validBefore != raw.validBefore) {
        return MppRefused(TransactionConflict);
      }
      var reason := if (prior.Some? && prior.value.state == Confirmed) || !step.reserved then Some(AlreadyReconciled)
                    else MppPermission(env, trades[t], steps[t], Some(i.expiresMs), Some(raw.validBefore));
      if reason.Some? {
        if prior.Some? { return MppGiven(prior.value, false, true); }
        return MppRefused(reason.value);
      }
      if prior.Some? { return MppGiven(prior.value, true, true); }
      if env.walletElsewhere.Some? { return MppRefused(WalletElsewhere(env.walletElsewhere.value)); }
      if MppWalletHeld(mppClaims, raw.chain, raw.sender) || EvmWalletHeld(evmClaims, raw.chain, raw.sender) {
        return MppRefused(WalletUnreconciled);
      }
      if EvmNonceUsed(evmClaims, raw.chain, raw.sender, raw.nonce) { return MppRefused(NonceAlreadyClaimed); }
      if MppNonceUsed(mppClaims, raw.chain, raw.sender, raw.nonce) || MppHashUsed(mppClaims, raw.hash) {
        return MppRefused(NonceAlreadyClaimed);
      }
      var claim := MppClaim(i.mandate, i.termsHash, raw.chain, raw.sender, raw.nonce, raw.hash, raw.feeToken,
          raw.maxFee, raw.validBefore, Claimed, None);
      mppClaims := mppClaims[i.id := claim];
      return MppGiven(claim, true, false);
    }

    /** busy is how many attempts in a row find the database locked; a locked attempt is rolled back whole. */
    method ClaimMpp(env: Env, t: TradeId, buyer: BuyerId, call: MppCall, busy: nat) returns (answer: MppAnswer)
      modifies this`mppClaims
      ensures busy > 5 ==> answer == MppRefused(StorageBusy) && Contents() == old(Contents())
      ensures busy <= 5 ==> answer == MppAnswerOf(old(Contents()), env, t, buyer, call)
      ensures busy <= 5 ==> Contents() == AfterMppClaim(old(Contents()), t, answer)
    {
      var attempt := 0;
      while attempt < busy
        invariant attempt <= busy && attempt <= 5
        invariant Contents() == old(Contents())
      {
        if attempt >= 5 { return MppRefused(StorageBusy); }
        attempt := attempt + 1;
      }
      answer := ClaimMppOnce(env, t, buyer, call);
    }

    /** The check at the moment of broadcast; marking writes the first submission time only if none is written. */
    method AssertMppPull(env: Env, t: TradeId, call: PullCall) returns (answer: MppAnswer)
      modifies this`mppClaims
      ensures answer == PullAnswerOf(old(Contents()), env, t, call)
      ensures Contents() == AfterPull(old(Contents()), env, t, call, answer)
    {
      if t !in mppIntents { return MppRefused(PullNotReady); }
      var i := mppIntents[t];
      var fault := OwnedTrade(t, i.buyer);
      if fault.Some? { return MppRefused(fault.value); }
      fault := Scope(t);
      if fault.Some? { return MppRefused(fault.value); }
      if i.id !in mppClaims { return MppRefused(OriginalCredentialRequired); }
      var claim, step := mppClaims[i.id], steps[t];
      if claim.state != Claimed || claim.mandate != step.mandate || claim.termsHash != step.termsHash
         || (call.payer.Some? && call.payer.value != i.payer) || call.challenge != i.challenge {
        return MppRefused(OriginalCredentialRequired);
      }
      if TempoFault(call.raw, t, i, mandates[step.mandate]).Some? { return MppRefused(OriginalCredentialRequired); }
      if call.raw.hash != claim.hash || call.raw.sender != claim.payer {
        return MppRefused(OriginalCredentialRequired);
      }
      var reason := if !step.reserved then Some(AlreadyReconciled)
          else MppPermission(env, trades[t], steps[t], Some(i.expiresMs), Some(call.raw.validBefore));
      if reason.Some? { return MppRefused(reason.value); }
      if call.mark && claim.firstSubmissionMs.None? {
        mppClaims := mppClaims[i.id := claim.(firstSubmissionMs := Some(env.nowMs))];
      }
      return MppGiven(claim, true, true);
    }

    /** One transaction attempt of an EVM claim: the claim row and the intent's hash are written together. */
    method ClaimEvmOnce(env: Env, t: TradeId, buyer: BuyerId, call: EvmCall) returns (answer: EvmAnswer)
      modifies this`evmClaims, this`evmIntents
      ensures answer == EvmAnswerOf(old(Contents()), env, t, buyer, call)
      ensures Contents() == AfterEvmClaim(old(Contents()), t, answer)
    {
      if t !in trades { return EvmRefused(TradeNotFound); }
      if trades[t].buyer != buyer { return EvmRefused(Forbidden); }
      if t !in evmIntents || evmIntents[t].id != call.intent || t !in steps || steps[t].mandate != call.mandate
         || evmIntents[t].buyer != buyer || trades[t].rail != EvmRail {
        return EvmRefused(ScopeMismatch);
      }
      var i, step, trade, raw := evmIntents[t], steps[t], trades[t], call.raw;
      if (i.operation.Some? && i.operation != call.operation) || (call.operation.Some? && call.operation != i.operation)
      {
        return EvmRefused(OperationConflict);
      }
      if step.mandate !in mandates || mandates[step.mandate].termsHash != step.termsHash {
        return EvmRefused(MandateInvalid);
      }
      var fault := EvmFault(raw, i, mandates[step.mandate]);
      if fault.Some? { return EvmRefused(fault.value); }
      if !call.proofOk { return EvmRefused(PayerAuthorizationInvalid); }
      assert EvmRequestFault(Contents(), t, buyer, call).None?;
      var prior := if i.id in evmClaims then Some(evmClaims[i.id]) else None;
      if prior.Some? && (prior.value.hash != raw.hash || prior.value.mandate != step.mandate
          || prior.value.termsHash != step.termsHash
          || prior.value.chain != raw.chain || prior.value.payer != raw.sender
          || prior.value.nonce != raw.nonce
          || prior.value.gasCost != raw.gasCost) {
        return EvmRefused(TransactionConflict);
      }
      if i.hash.Some? && i.hash.value != raw.hash { return EvmRefused(TransactionConflict); }
      if prior.Some? && (prior.value.state == Confirmed || !trade.pending || !step.reserved) {
        return EvmGiven(prior.value, false, true);
      }
      if !trade.pending || trade.dueMs.None? || trade.dueMs.value <= env.nowMs {
        if prior.Some? { return EvmGiven(prior.value, false, true); }
        return EvmRefused(CheckoutClosed);
      }
      var reason := if !env.routeEnabled then Some(RouteExecutionDisabled) else EligibilityFault(env, step);
      if reason.Some? || env.paused {
        if prior.Some? { return EvmGiven(prior.value, false, true); }
        return EvmRefused(if reason.Some? then reason.value else NewPaymentsPaused);
      }
      if prior.Some? { return EvmGiven(prior.value, true, true); }
      if i.hash.Some? { return EvmRefused(AlreadySubmitted); }
      if env.walletElsewhere.Some? { return EvmRefused(WalletElsewhere(env.walletElsewhere.value)); }
      if EvmWalletHeld(evmClaims, raw.chain, raw.sender) || MppWalletHeld(mppClaims, raw.chain, raw.sender) {
        return EvmRefused(WalletUnreconciled);
      }
      if MppNonceUsed(mppClaims, raw.chain, raw.sender, raw.nonce) { return EvmRefused(NonceAlreadyClaimed); }
      if EvmNonceUsed(evmClaims, raw.chain, raw.sender, raw.nonce) { return EvmRefused(NonceAlreadyClaimed); }
      var claim := EvmClaim(step.mandate, step.termsHash, raw.chain, raw.sender, raw.nonce, raw.hash, raw.gasCost,
          Claimed);
      evmClaims := evmClaims[i.id := claim];
      evmIntents := evmIntents[t := i.(hash := Some(raw.hash))];
      return EvmGiven(claim, true, false);
    }

    method ClaimEvm(env: Env, t: TradeId, buyer: BuyerId, call: EvmCall, busy: nat) returns (answer: EvmAnswer)
      modifies this`evmClaims, this`evmIntents
      ensures busy > 5 ==> answer == EvmRefused(StorageBusy) && Contents() == old(Contents())
      ensures busy <= 5 ==> answer == EvmAnswerOf(old(Contents()), env, t, buyer, call)
      ensures busy <= 5 ==> Contents() == AfterEvmClaim(old(Contents()), t, answer)
    {
      var attempt := 0;
      while attempt < busy
        invariant attempt <= busy && attempt <= 5
        invariant Contents() == old(Contents())
      {
        if attempt >= 5 { return EvmRefused(StorageBusy); }
        attempt := attempt + 1;
      }
      answer := ClaimEvmOnce(env, t, buyer, call);
    }
  }
}
