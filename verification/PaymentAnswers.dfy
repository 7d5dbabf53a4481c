/**
 * Exactly when the claim protocol says yes, and what its refusals mean: who is let through, which bytes, and which
 * earlier claims stand in the way. Everything is stated on the rows themselves.
 */
module PaymentAnswers {
  import opened Options
  import opened PaymentClaims
  import opened PaymentRuns

  // ---- what a request must fit ----

  /** The caller, the stored challenge and the signed bytes agree with each other and with standing fee terms. */
  predicate TempoFits(s: Tables, t: TradeId, buyer: BuyerId, call: MppCall) {
    && OwnTempoTrade(s, t, buyer) && t in s.mppIntents && FeeTermsStand(s, t)
    && var i, step := s.mppIntents[t], s.steps[t];
       && i.id == call.intent && i.buyer == buyer && i.operation == call.operation
       && i.mandate == call.mandate == step.mandate && i.termsHash == step.termsHash
       && TempoBytesFit(s, t, call.raw)
  }

  predicate TempoBytesFit(s: Tables, t: TradeId, raw: SignedTempo) {
    && TempoPays(s, t, raw, raw.hash) && raw.readable && raw.validBefore > 0
    && s.mandates[s.steps[t].mandate].feeLimit > 0
  }

  predicate EvmFits(s: Tables, t: TradeId, buyer: BuyerId, call: EvmCall) {
    && t in s.trades && s.trades[t].buyer == buyer && s.trades[t].rail == EvmRail
    && t in s.evmIntents && t in s.steps && s.steps[t].mandate in s.mandates
    && var i, step, mandate := s.evmIntents[t], s.steps[t], s.mandates[s.steps[t].mandate];
       && i.id == call.intent && i.buyer == buyer && i.operation == call.operation && step.mandate == call.mandate
       && mandate.termsHash == step.termsHash
       && EvmPays(s, t, call.raw, call.raw.hash) && call.raw.readable && call.raw.gasCost > 0 && mandate.feeLimit > 0
       && call.proofOk
  }

  lemma TempoRequestIsExact(s: Tables, t: TradeId, buyer: BuyerId, call: MppCall)
    ensures MppRequestFault(s, t, buyer, call).None? <==> TempoFits(s, t, buyer, call)
  {
  }

  lemma EvmRequestIsExact(s: Tables, t: TradeId, buyer: BuyerId, call: EvmCall)
    ensures EvmRequestFault(s, t, buyer, call).None? <==> EvmFits(s, t, buyer, call)
  {
  }

  // ---- when the gates are open ----

  /**
   * The checkout is open, the funding step reserved, execution on, nothing paused, and both eligibility checks pass.
   */
  predicate GatesOpen(s: Tables, env: Env, t: TradeId) {
    && t in s.trades && t in s.steps && s.steps[t].reserved
    && s.trades[t].pending && s.trades[t].dueMs.Some? && env.nowMs < s.trades[t].dueMs.value
    && env.routeEnabled && !env.paused && env.mandateReason.None? && env.serviceReason.None?
  }

  /** On the MPP rail the challenge and the signed bytes must also be in date. */
  predicate TempoOpen(s: Tables, env: Env, t: TradeId, raw: SignedTempo) {
    && GatesOpen(s, env, t)
    && t in s.mppIntents && env.nowMs < s.mppIntents[t].expiresMs && env.nowMs / 1000 < raw.validBefore
  }

  // ---- what stands in the way of a first claim ----

  predicate OfWallet(c: Core, chain: ChainId, payer: Address) { c.chain == chain && c.payer == payer }

  /** All claims of the wallet, on either rail, are confirmed. */
  ghost predicate AllConfirmed(s: Tables, chain: ChainId, payer: Address) {
    forall q | HasClaim(s, q) && OfWallet(CoreOf(s, q), chain, payer) :: CoreOf(s, q).state == Confirmed
  }

  /** None of them uses this nonce. */
  ghost predicate NonceUnused(s: Tables, chain: ChainId, payer: Address, nonce: nat) {
    forall q | HasClaim(s, q) && OfWallet(CoreOf(s, q), chain, payer) :: CoreOf(s, q).nonce != nonce
  }

  lemma HeldMeansUnconfirmed(s: Tables, chain: ChainId, payer: Address)
    ensures AllConfirmed(s, chain, payer)
       <==> !MppWalletHeld(s.mppClaims, chain, payer) && !EvmWalletHeld(s.evmClaims, chain, payer)
  {
    forall i | i in s.mppClaims ensures HasClaim(s, OnMpp(i)) {}
    forall i | i in s.evmClaims ensures HasClaim(s, OnEvm(i)) {}
    if MppWalletHeld(s.mppClaims, chain, payer) {
      var i :| i in s.mppClaims && s.mppClaims[i].chain == chain && s.mppClaims[i].payer == payer
          && s.mppClaims[i].state == Claimed;
      assert OfWallet(CoreOf(s, OnMpp(i)), chain, payer);
    }
    if EvmWalletHeld(s.evmClaims, chain, payer) {
      var i :| i in s.evmClaims && s.evmClaims[i].chain == chain && s.evmClaims[i].payer == payer
          && s.evmClaims[i].state == Claimed;
      assert OfWallet(CoreOf(s, OnEvm(i)), chain, payer);
    }
  }

  lemma UsedMeansUsed(s: Tables, chain: ChainId, payer: Address, nonce: nat)
    ensures NonceUnused(s, chain, payer, nonce)
       <==> !MppNonceUsed(s.mppClaims, chain, payer, nonce) && !EvmNonceUsed(s.evmClaims, chain, payer, nonce)
  {
    if MppNonceUsed(s.mppClaims, chain, payer, nonce) {
      var i :| i in s.mppClaims && s.mppClaims[i].chain == chain && s.mppClaims[i].payer == payer
          && s.mppClaims[i].nonce == nonce;
      assert HasClaim(s, OnMpp(i)) && OfWallet(CoreOf(s, OnMpp(i)), chain, payer);
    }
    if EvmNonceUsed(s.evmClaims, chain, payer, nonce) {
      var i :| i in s.evmClaims && s.evmClaims[i].chain == chain && s.evmClaims[i].payer == payer
          && s.evmClaims[i].nonce == nonce;
      assert HasClaim(s, OnEvm(i)) && OfWallet(CoreOf(s, OnEvm(i)), chain, payer);
    }
  }

  // ---- first claims ----

  /** The claim that exact Tempo bytes make, field by field. */
  predicate IsTempoClaim(c: MppClaim, i: MppIntent, raw: SignedTempo) {
    && c.hash == raw.hash && c.chain == raw.chain && c.payer == raw.sender && c.nonce == raw.nonce
    && c.feeToken == raw.feeToken && c.maxFee == raw.maxFee && c.validBefore == raw.validBefore
    && c.mandate == i.mandate && c.termsHash == i.termsHash
  }

  predicate IsEvmClaim(c: EvmClaim, step: Step, raw: SignedEvm) {
    && c.hash == raw.hash && c.chain == raw.chain && c.payer == raw.sender && c.nonce == raw.nonce
    && c.gasCost == raw.gasCost && c.mandate == step.mandate && c.termsHash == step.termsHash
  }

  /**
   * A first Tempo claim is made, and may send at once, exactly when the request fits, every gate is open, the wallet is
   * not held by organization payments, all its claims on both rails are confirmed, none of them has this nonce, and no
   * Tempo claim has this hash. A wallet that has paid can therefore pay again.
   */
  lemma FirstTempoClaimIff(s: Tables, env: Env, t: TradeId, buyer: BuyerId, call: MppCall)
    requires t in s.mppIntents && s.mppIntents[t].id !in s.mppClaims
    ensures var a := MppAnswerOf(s, env, t, buyer, call);
            && (a.MppGiven? <==>
                  && TempoFits(s, t, buyer, call) && TempoOpen(s, env, t, call.raw) && env.walletElsewhere.None?
                  && AllConfirmed(s, call.raw.chain, call.raw.sender)
                  && NonceUnused(s, call.raw.chain, call.raw.sender, call.raw.nonce)
                  && (forall i | i in s.mppClaims :: s.mppClaims[i].hash != call.raw.hash))
            && (a.MppGiven? ==>
                  && a.send && !a.replay && IsTempoClaim(a.claim, s.mppIntents[t], call.raw)
                  && a.claim.state == Claimed && a.claim.firstSubmissionMs.None?)
  {
    TempoRequestIsExact(s, t, buyer, call);
    HeldMeansUnconfirmed(s, call.raw.chain, call.raw.sender);
    UsedMeansUsed(s, call.raw.chain, call.raw.sender, call.raw.nonce);
  }

  /** The same on the EVM rail, where the intent must not carry a hash yet. */
  lemma FirstEvmClaimIff(s: Tables, env: Env, t: TradeId, buyer: BuyerId, call: EvmCall)
    requires t in s.evmIntents && s.evmIntents[t].id !in s.evmClaims
    ensures var a := EvmAnswerOf(s, env, t, buyer, call);
            && (a.EvmGiven? <==>
                  && EvmFits(s, t, buyer, call) && GatesOpen(s, env, t) && env.walletElsewhere.None?
                  && s.evmIntents[t].hash.None?
                  && AllConfirmed(s, call.raw.chain, call.raw.sender)
                  && NonceUnused(s, call.raw.chain, call.raw.sender, call.raw.nonce))
            && (a.EvmGiven? ==>
                  a.send && !a.replay && IsEvmClaim(a.claim, s.steps[t], call.raw) && a.claim.state == Claimed)
  {
    EvmRequestIsExact(s, t, buyer, call);
    HeldMeansUnconfirmed(s, call.raw.chain, call.raw.sender);
    UsedMeansUsed(s, call.raw.chain, call.raw.sender, call.raw.nonce);
  }

  // ---- replays and the broadcast check ----

  /** A claim given for the first time is stored, and nothing else is; any other answer leaves every row as it was. */
  lemma TempoClaimWrites(s: Tables, env: Env, t: TradeId, buyer: BuyerId, call: MppCall)
    ensures var a, s' := MppAnswerOf(s, env, t, buyer, call),
        AfterMppClaim(s, t, MppAnswerOf(s, env, t, buyer, call));
            if a.MppGiven? && t in s.mppIntents && s.mppIntents[t].id !in s.mppClaims
            then s' == s.(mppClaims := s.mppClaims[s.mppIntents[t].id := a.claim])
            else s' == s
  {
  }

  /** On the EVM rail it is stored together with its hash on the intent. */
  lemma EvmClaimWrites(s: Tables, env: Env, t: TradeId, buyer: BuyerId, call: EvmCall)
    ensures var a, s' := EvmAnswerOf(s, env, t, buyer, call),
        AfterEvmClaim(s, t, EvmAnswerOf(s, env, t, buyer, call));
            if a.EvmGiven? && t in s.evmIntents && s.evmIntents[t].id !in s.evmClaims
            then
              s' == s.(evmClaims := s.evmClaims[s.evmIntents[t].id := a.claim],
                       evmIntents := s.evmIntents[t := s.evmIntents[t].(hash := Some(call.raw.hash))])
            else s' == s
  {
  }

  /**
   * Once a claim is stored, a request that fits is answered with it exactly when it repeats its bytes, and may send
   * exactly while the claim is unconfirmed and every gate open.
   */
  lemma TempoReplaySendsIff(s: Tables, env: Env, t: TradeId, buyer: BuyerId, call: MppCall)
    requires t in s.mppIntents && s.mppIntents[t].id in s.mppClaims
    ensures var a, c := MppAnswerOf(s, env, t, buyer, call), s.mppClaims[s.mppIntents[t].id];
            && (a.MppGiven? <==> TempoFits(s, t, buyer, call) && IsTempoClaim(c, s.mppIntents[t], call.raw))
            && (a.MppGiven? ==> a.replay && a.claim == c)
            && (a.MppGiven? ==> (a.send <==> c.state == Claimed && TempoOpen(s, env, t, call.raw)))
  {
    TempoRequestIsExact(s, t, buyer, call);
    var i, c := s.mppIntents[t], s.mppClaims[s.mppIntents[t].id];
    assert c.(state := Claimed, firstSubmissionMs := None) == MppClaimFor(i, call.raw)
        <==> IsTempoClaim(c, i, call.raw) by {
      var d := c.(state := Claimed, firstSubmissionMs := None);
      assert d.hash == c.hash && d.chain == c.chain && d.payer == c.payer && d.nonce == c.nonce
          && d.feeToken == c.feeToken && d.maxFee == c.maxFee && d.validBefore == c.validBefore
          && d.mandate == c.mandate && d.termsHash == c.termsHash;
    }
  }

  lemma EvmReplaySendsIff(s: Tables, env: Env, t: TradeId, buyer: BuyerId, call: EvmCall)
    requires t in s.evmIntents && s.evmIntents[t].id in s.evmClaims
    ensures var a, c := EvmAnswerOf(s, env, t, buyer, call), s.evmClaims[s.evmIntents[t].id];
            && (a.EvmGiven? <==>
                  && EvmFits(s, t, buyer, call) && IsEvmClaim(c, s.steps[t], call.raw)
                  && s.evmIntents[t].hash in {None, Some(call.raw.hash)})
            && (a.EvmGiven? ==> a.replay && a.claim == c)
            && (a.EvmGiven? ==> (a.send <==> c.state == Claimed && GatesOpen(s, env, t)))
  {
    EvmRequestIsExact(s, t, buyer, call);
    if EvmFits(s, t, buyer, call) {
      var step, c := s.steps[t], s.evmClaims[s.evmIntents[t].id];
      var d := c.(state := Claimed);
      assert d.hash == c.hash && d.chain == c.chain && d.payer == c.payer && d.nonce == c.nonce
          && d.gasCost == c.gasCost && d.mandate == c.mandate && d.termsHash == c.termsHash;
    }
  }

  /** What a broadcast must present: the stored, unconfirmed claim's own bytes under the original challenge. */
  predicate PullFits(s: Tables, t: TradeId, call: PullCall) {
    && t in s.mppIntents && OwnTempoTrade(s, t, s.mppIntents[t].buyer) && FeeTermsStand(s, t)
    && s.mppIntents[t].id in s.mppClaims
    && var i, step, c := s.mppIntents[t], s.steps[t], s.mppClaims[s.mppIntents[t].id];
       && c.state == Claimed && c.mandate == step.mandate && c.termsHash == step.termsHash
       && (call.payer.Some? ==> call.payer.value == i.payer) && call.challenge == i.challenge
       && TempoBytesFit(s, t, call.raw) && call.raw.hash == c.hash && call.raw.sender == c.payer
  }

  /**
   * A broadcast is let through exactly when it presents those bytes while every gate is open; the first submission time
   * is written then, once, and only if asked for.
   */
  lemma BroadcastIff(s: Tables, env: Env, t: TradeId, call: PullCall)
    ensures var a := PullAnswerOf(s, env, t, call);
            && (a.MppGiven? <==> PullFits(s, t, call) && TempoOpen(s, env, t, call.raw))
            && (a.MppGiven? ==> a.send && a.claim == s.mppClaims[s.mppIntents[t].id])
    ensures var a, s' := PullAnswerOf(s, env, t, call), AfterPull(s, env, t, call, PullAnswerOf(s, env, t, call));
            if a.MppGiven? && call.mark && s.mppClaims[s.mppIntents[t].id].firstSubmissionMs.None?
            then
              var id := s.mppIntents[t].id;
              s' == s.(mppClaims := s.mppClaims[id := s.mppClaims[id].(firstSubmissionMs := Some(env.nowMs))])
            else s' == s
  {
  }

  // ---- the original challenge ----

  predicate ServerFits(s: Tables, t: TradeId, c: ServerChallenge) {
    && FeeTermsStand(s, t)
    && var mandate := s.mandates[s.steps[t].mandate];
       && c.small && c.trade == t && c.amount == s.trades[t].costUnits
       && c.currency == mandate.token && c.recipient == mandate.treasury
       && c.expiresMs.Some? && s.trades[t].dueMs.Some? && c.expiresMs.value <= s.trades[t].dueMs.value
  }

  /**
   * A challenge is stored exactly for the buyer's own open trade under standing fee terms, with an unused operation and
   * a server answer that asks for this trade's price, token and treasury and expires no later than the checkout. A
   * stored one is given back exactly to its operation and origin.
   */
  lemma ChallengeIff(s: Tables, env: Env, t: TradeId, buyer: BuyerId, call: IntentCall)
    ensures var a := IntentAnswerOf(s, env, t, buyer, call);
            && (a.IntentGiven? && a.created <==>
                  && OwnTempoTrade(s, t, buyer) && t !in s.mppIntents && FeeTermsStand(s, t) && GatesOpen(s, env, t)
                  && (forall u | u in s.mppIntents ::
                      s.mppIntents[u].operation != call.operation && s.mppIntents[u].id != call.newId)
                  && call.challenge.Some? && ServerFits(s, t, call.challenge.value))
            && (a.IntentGiven? && !a.created <==>
                  && OwnTempoTrade(s, t, buyer) && t in s.mppIntents
                  && s.mppIntents[t].operation == call.operation && s.mppIntents[t].origin == call.origin)
            && (a.IntentGiven? && !a.created ==> a.intent == s.mppIntents[t])
  {
  }

  /** A new challenge is stored under its trade, and nothing else is written. */
  lemma ChallengeWrites(s: Tables, env: Env, t: TradeId, buyer: BuyerId, call: IntentCall)
    ensures var a, s' := IntentAnswerOf(s, env, t, buyer, call),
        AfterIntent(s, t, IntentAnswerOf(s, env, t, buyer, call));
            if a.IntentGiven? && t !in s.mppIntents then s' == s.(mppIntents := s.mppIntents[t := a.intent])
            else s' == s
  {
  }

  /** What is stored then comes from the trade, its mandate and the server's answer. */
  lemma StoredChallengeIs(s: Tables, env: Env, t: TradeId, buyer: BuyerId, call: IntentCall)
    requires IntentAnswerOf(s, env, t, buyer, call).IntentGiven? && IntentAnswerOf(s, env, t, buyer, call).created
    ensures var i := IntentAnswerOf(s, env, t, buyer, call).intent;
            var step, c := s.steps[t], call.challenge.value;
            var mandate := s.mandates[step.mandate];
            && i.id == call.newId && i.buyer == buyer && i.operation == call.operation && i.origin == call.origin
            && i.mandate == step.mandate && i.termsHash == step.termsHash && i.chain == mandate.chain
            && i.payer == mandate.payer && i.token == mandate.token && i.treasury == mandate.treasury
            && i.amount == s.trades[t].costUnits && Some(i.expiresMs) == c.expiresMs && i.challenge == c.text
  {
    ChallengeIff(s, env, t, buyer, call);
  }

  // ---- what refusals mean ----

  predicate TempoStored(s: Tables, t: TradeId) { t in s.mppIntents && s.mppIntents[t].id in s.mppClaims }

  predicate EvmStored(s: Tables, t: TradeId) { t in s.evmIntents && s.evmIntents[t].id in s.evmClaims }

  /** The intent has no hash yet, or this one. */
  predicate MayCarry(i: EvmIntent, h: Hash) { i.hash.None? || i.hash.value == h }

  /** A request that fits, for a first claim, with every gate open. */
  predicate TempoReady(s: Tables, env: Env, t: TradeId, buyer: BuyerId, call: MppCall) {
    TempoFits(s, t, buyer, call) && !TempoStored(s, t) && TempoOpen(s, env, t, call.raw)
  }

  predicate EvmReady(s: Tables, env: Env, t: TradeId, buyer: BuyerId, call: EvmCall) {
    EvmFits(s, t, buyer, call) && !EvmStored(s, t) && GatesOpen(s, env, t) && s.evmIntents[t].hash.None?
  }

  /**
   * Each of these refusals is given exactly for its own reason, and the first that applies: other bytes than the stored
   * ones, a payment already reconciled, a wallet in use elsewhere, an unconfirmed claim of it, a nonce or hash taken.
   */
  lemma TempoRefusalsAreExact(s: Tables, env: Env, t: TradeId, buyer: BuyerId, call: MppCall)
    ensures var a, raw := MppAnswerOf(s, env, t, buyer, call), call.raw;
            var ready := TempoReady(s, env, t, buyer, call);
            var reconciled := AllConfirmed(s, raw.chain, raw.sender);
            && (a == MppRefused(TransactionConflict) <==>
                  && TempoFits(s, t, buyer, call) && TempoStored(s, t)
                  && !IsTempoClaim(s.mppClaims[s.mppIntents[t].id], s.mppIntents[t], raw))
            && (a == MppRefused(AlreadyReconciled) <==>
                  && TempoFits(s, t, buyer, call) && !TempoStored(s, t) && t in s.steps && !s.steps[t].reserved)
            && (a.MppRefused? && a.code.WalletElsewhere? <==> ready && env.walletElsewhere.Some?)
            && (a == MppRefused(WalletUnreconciled) <==> ready && env.walletElsewhere.None? && !reconciled)
            && (a == MppRefused(NonceAlreadyClaimed) <==>
                  && ready && env.walletElsewhere.None? && reconciled
                  && (|| !NonceUnused(s, raw.chain, raw.sender, raw.nonce)
                      || exists i | i in s.mppClaims :: s.mppClaims[i].hash == raw.hash))
  {
    TempoRequestIsExact(s, t, buyer, call);
    HeldMeansUnconfirmed(s, call.raw.chain, call.raw.sender);
    UsedMeansUsed(s, call.raw.chain, call.raw.sender, call.raw.nonce);
    if TempoStored(s, t) { TempoReplaySendsIff(s, env, t, buyer, call); }
  }

  /** On the EVM rail a hash attached without a claim is never replaced: a different one conflicts, its own recovers. */
  lemma EvmRefusalsAreExact(s: Tables, env: Env, t: TradeId, buyer: BuyerId, call: EvmCall)
    ensures var a, raw := EvmAnswerOf(s, env, t, buyer, call), call.raw;
            var ready := EvmReady(s, env, t, buyer, call);
            var reconciled := AllConfirmed(s, raw.chain, raw.sender);
            && (a == EvmRefused(TransactionConflict) <==>
                  && EvmFits(s, t, buyer, call)
                  && (|| !MayCarry(s.evmIntents[t], raw.hash)
                      || (EvmStored(s, t) && !IsEvmClaim(s.evmClaims[s.evmIntents[t].id], s.steps[t], raw))))
            && (a == EvmRefused(AlreadySubmitted) <==>
                  && EvmFits(s, t, buyer, call) && !EvmStored(s, t) && GatesOpen(s, env, t)
                  && s.evmIntents[t].hash == Some(raw.hash))
            && (a.EvmRefused? && a.code.WalletElsewhere? <==> ready && env.walletElsewhere.Some?)
            && (a == EvmRefused(WalletUnreconciled) <==> ready && env.walletElsewhere.None? && !reconciled)
            && (a == EvmRefused(NonceAlreadyClaimed) <==>
                  && ready && env.walletElsewhere.None? && reconciled
                  && !NonceUnused(s, raw.chain, raw.sender, raw.nonce))
  {
    EvmRequestIsExact(s, t, buyer, call);
    HeldMeansUnconfirmed(s, call.raw.chain, call.raw.sender);
    UsedMeansUsed(s, call.raw.chain, call.raw.sender, call.raw.nonce);
    if EvmStored(s, t) { EvmReplaySendsIff(s, env, t, buyer, call); }
  }

  // ---- receipts ----

  /** A receipt for the claim's own hash confirms it, so the wallet is free for its next payment. */
  lemma ReceiptsConfirm(s: Tables, env: Env, t: TradeId)
    requires ClaimsHaveIntents(s)
    ensures t in s.mppIntents && s.mppIntents[t].id in s.mppClaims ==>
              var r := OnMpp(s.mppIntents[t].id);
              var s' := Apply(s, Moment(env, ConfirmTempo(t, CoreOf(s, r).hash)));
              HasClaim(s', r) && CoreOf(s', r).state == Confirmed
    ensures t in s.evmIntents && s.evmIntents[t].id in s.evmClaims ==>
              var r := OnEvm(s.evmIntents[t].id);
              var s' := Apply(s, Moment(env, ConfirmOnEvm(t, CoreOf(s, r).hash)));
              HasClaim(s', r) && CoreOf(s', r).state == Confirmed
  {
  }
}
