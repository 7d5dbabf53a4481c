/**
 * What the claim protocol guarantees over whole runs, with any interleaving of trades, rails and environment changes.
 */
module PaymentRuns {
  import opened Options
  import opened PaymentClaims

  /** One committed transaction, or one change made elsewhere. */
  datatype Event =
    | CreateIntent(trade: TradeId, buyer: BuyerId, intentCall: IntentCall)
    | ClaimTempo(trade: TradeId, buyer: BuyerId, mppCall: MppCall)
    | PullTempo(trade: TradeId, pullCall: PullCall)
    | ClaimOnEvm(trade: TradeId, buyer: BuyerId, evmCall: EvmCall)
    | ConfirmTempo(trade: TradeId, receipt: Hash)      // a verified receipt for the intent's payment
    | ConfirmOnEvm(trade: TradeId, receipt: Hash)
    | OpenEvmIntent(trade: TradeId, reserved: EvmIntent) // a checkout reserved on the EVM rail
    | ReleaseEvmIntent(trade: TradeId, id: IntentId)   // the wallet rejected the payment before any hash was known
    | AttachProof(trade: TradeId, proof: Hash)         // a payment proof saved outside the claim protocol
    | ChangeElsewhere(trades: map<TradeId, Trade>, steps: map<TradeId, Step>, mandates: map<MandateId, Mandate>)

  datatype Moment = Moment(env: Env, event: Event)

  predicate EvmIntentIdUsed(s: Tables, id: IntentId) {
    exists t | t in s.evmIntents :: s.evmIntents[t].id == id
  }

  function Apply(s: Tables, m: Moment): Tables {
    match m.event
    case CreateIntent(t, b, call) => AfterIntent(s, t, IntentAnswerOf(s, m.env, t, b, call))
    case ClaimTempo(t, b, call) => AfterMppClaim(s, t, MppAnswerOf(s, m.env, t, b, call))
    case PullTempo(t, call) => AfterPull(s, m.env, t, call, PullAnswerOf(s, m.env, t, call))
    case ClaimOnEvm(t, b, call) => AfterEvmClaim(s, t, EvmAnswerOf(s, m.env, t, b, call))
    case ConfirmTempo(t, receipt) =>
      if t in s.mppIntents && s.mppIntents[t].id in s.mppClaims && s.mppClaims[s.mppIntents[t].id].hash == receipt
      then s.(mppClaims := s.mppClaims[s.mppIntents[t].id := s.mppClaims[s.mppIntents[t].id].(state := Confirmed)])
          else s
    case ConfirmOnEvm(t, receipt) =>
      if t in s.evmIntents && s.evmIntents[t].hash == Some(receipt) && s.evmIntents[t].id in s.evmClaims
          && s.evmClaims[s.evmIntents[t].id].hash == receipt
      then s.(evmClaims := s.evmClaims[s.evmIntents[t].id := s.evmClaims[s.evmIntents[t].id].(state := Confirmed)])
          else s
    case OpenEvmIntent(t, i) =>
      if t in s.evmIntents || EvmIntentIdUsed(s, i.id) || i.hash.Some? then
        s
      else s.(evmIntents := s.evmIntents[t := i])
    case ReleaseEvmIntent(t, id) =>
      if t in s.evmIntents && s.evmIntents[t].id == id && s.evmIntents[t].hash.None? then
        s.(evmIntents := s.evmIntents - {t})
      else s
    case AttachProof(t, proof) =>
      if t in s.evmIntents && s.evmIntents[t].hash.None? then
        s.(evmIntents := s.evmIntents[t := s.evmIntents[t].(hash := Some(proof))])
      else s
    case ChangeElsewhere(trades, steps, mandates) => s.(trades := trades, steps := steps, mandates := mandates)
  }

  // ---- claims of either rail ----

  datatype ClaimRef = OnMpp(intent: IntentId) | OnEvm(intent: IntentId)

  datatype Core = Core(chain: ChainId, payer: Address, nonce: nat, hash: Hash, state: ClaimState)

  predicate HasClaim(s: Tables, r: ClaimRef) {
    match r
    case OnMpp(i) => i in s.mppClaims
    case OnEvm(i) => i in s.evmClaims
  }

  function CoreOf(s: Tables, r: ClaimRef): Core
    requires HasClaim(s, r)
  {
    match r
    case OnMpp(i) => var c := s.mppClaims[i]; Core(c.chain, c.payer, c.nonce, c.hash, c.state)
    case OnEvm(i) => var c := s.evmClaims[i]; Core(c.chain, c.payer, c.nonce, c.hash, c.state)
  }

  predicate SameWallet(a: Core, b: Core) { a.chain == b.chain && a.payer == b.payer }

  /** Each wallet holds at most one unconfirmed claim over both tables. */
  ghost predicate WalletExclusive(s: Tables) {
    forall q, r | HasClaim(s, q) && HasClaim(s, r) && q != r && SameWallet(CoreOf(s, q), CoreOf(s, r)) ::
      CoreOf(s, q).state == Confirmed || CoreOf(s, r).state == Confirmed
  }

  /** No wallet nonce belongs to two claims of either or both tables. */
  ghost predicate NonceExclusive(s: Tables) {
    forall q, r | HasClaim(s, q) && HasClaim(s, r) && q != r && SameWallet(CoreOf(s, q), CoreOf(s, r)) ::
      CoreOf(s, q).nonce != CoreOf(s, r).nonce
  }

  ghost predicate UniqueKeys(s: Tables) {
    && (forall t, u | t in s.mppIntents && u in s.mppIntents && t != u ::
          s.mppIntents[t].id != s.mppIntents[u].id && s.mppIntents[t].operation != s.mppIntents[u].operation)
    && (forall t, u | t in s.evmIntents && u in s.evmIntents && t != u :: s.evmIntents[t].id != s.evmIntents[u].id)
    && (forall i, j | i in s.mppClaims && j in s.mppClaims && i != j :: s.mppClaims[i].hash != s.mppClaims[j].hash)
  }

  /** Every claim belongs to an intent, and an EVM claim's hash is the one its intent carries. */
  ghost predicate ClaimsHaveIntents(s: Tables) {
    && (forall i | i in s.mppClaims :: exists t :: t in s.mppIntents && s.mppIntents[t].id == i)
    && (forall i | i in s.evmClaims :: exists t :: t in s.evmIntents && s.evmIntents[t].id == i)
    && (forall t | t in s.evmIntents && s.evmIntents[t].id in s.evmClaims ::
        s.evmIntents[t].hash == Some(s.evmClaims[s.evmIntents[t].id].hash))
    && (forall t | t in s.mppIntents && s.mppIntents[t].id in s.mppClaims ::
          s.mppClaims[s.mppIntents[t].id].mandate == s.mppIntents[t].mandate
              && s.mppClaims[s.mppIntents[t].id].termsHash == s.mppIntents[t].termsHash)
  }

  ghost predicate Inv(s: Tables) {
    WalletExclusive(s) && NonceExclusive(s) && UniqueKeys(s) && ClaimsHaveIntents(s)
  }

  /** What one step may do to a claim that exists. */
  ghost predicate ClaimKept(s: Tables, s': Tables, r: ClaimRef)
    requires HasClaim(s, r)
  {
    && HasClaim(s', r)
    && CoreOf(s', r).(state := Claimed) == CoreOf(s, r).(state := Claimed)
    && (CoreOf(s, r).state == Confirmed ==> CoreOf(s', r).state == Confirmed)
    && (r.OnMpp? ==>
          var c, c' := s.mppClaims[r.intent], s'.mppClaims[r.intent];
          && c'.(state := Claimed, firstSubmissionMs := None) == c.(state := Claimed, firstSubmissionMs := None)
          && (c.firstSubmissionMs.Some? ==> c'.firstSubmissionMs == c.firstSubmissionMs))
    && (r.OnEvm? ==> s'.evmClaims[r.intent].(state := Claimed) == s.evmClaims[r.intent].(state := Claimed))
  }

  /** The step's answer permits sending hash h under claim r. */
  ghost predicate Permits(s: Tables, m: Moment, r: ClaimRef, h: Hash) {
    match m.event
    case ClaimTempo(t, b, call) =>
      var a := MppAnswerOf(s, m.env, t, b, call);
      a.MppGiven? && a.send && r == OnMpp(s.mppIntents[t].id) && h == a.claim.hash
    case PullTempo(t, call) =>
      var a := PullAnswerOf(s, m.env, t, call);
      a.MppGiven? && r == OnMpp(s.mppIntents[t].id) && h == a.claim.hash
    case ClaimOnEvm(t, b, call) =>
      var a := EvmAnswerOf(s, m.env, t, b, call);
      a.EvmGiven? && a.send && r == OnEvm(s.evmIntents[t].id) && h == a.claim.hash
    case _ => false
  }

  // ---- one step ----

  /** Everything a committed transaction can write. */
  datatype Write =
    | Nothing
    | NewMppIntent(trade: TradeId, mppIntent: MppIntent)
    | NewMppClaim(trade: TradeId, mppClaim: MppClaim)
    | Submitted(id: IntentId, atMs: nat)
    | MppConfirmed(id: IntentId)
    | NewEvmIntent(trade: TradeId, evmIntent: EvmIntent)
    | NewEvmClaim(trade: TradeId, evmClaim: EvmClaim)
    | EvmConfirmed(id: IntentId)
    | Released(trade: TradeId)
    | Attached(trade: TradeId, proof: Hash)
    | Elsewhere(trades: map<TradeId, Trade>, steps: map<TradeId, Step>, mandates: map<MandateId, Mandate>)

  ghost predicate Free(s: Tables, chain: ChainId, payer: Address, nonce: nat) {
    && !MppWalletHeld(s.mppClaims, chain, payer) && !EvmWalletHeld(s.evmClaims, chain, payer)
    && !MppNonceUsed(s.mppClaims, chain, payer, nonce) && !EvmNonceUsed(s.evmClaims, chain, payer, nonce)
  }

  /** The circumstances in which each write happens. */
  ghost predicate Justified(s: Tables, w: Write) {
    match w
    case Nothing => true
    case NewMppIntent(t, i) => t !in s.mppIntents && !OperationUsed(s, i.operation) && !MppIntentIdUsed(s, i.id)
    case NewMppClaim(t, c) =>
      && t in s.mppIntents && s.mppIntents[t].id !in s.mppClaims && c.state == Claimed
      && Free(s, c.chain, c.payer, c.nonce)
      && !MppHashUsed(s.mppClaims, c.hash) && c.mandate == s.mppIntents[t].mandate
      && c.termsHash == s.mppIntents[t].termsHash
    case Submitted(i, _) => i in s.mppClaims && s.mppClaims[i].firstSubmissionMs.None?
    case MppConfirmed(i) => i in s.mppClaims
    case NewEvmIntent(t, i) => t !in s.evmIntents && !EvmIntentIdUsed(s, i.id) && i.hash.None?
    case NewEvmClaim(t, c) =>
      && t in s.evmIntents && s.evmIntents[t].id !in s.evmClaims && s.evmIntents[t].hash.None?
      && c.state == Claimed && Free(s, c.chain, c.payer, c.nonce)
    case EvmConfirmed(i) => i in s.evmClaims
    case Released(t) => t in s.evmIntents && s.evmIntents[t].hash.None?
    case Attached(t, _) => t in s.evmIntents && s.evmIntents[t].hash.None?
    case Elsewhere(_, _, _) => true
  }

  function Patch(s: Tables, w: Write): Tables
    requires Justified(s, w)
  {
    match w
    case Nothing => s
    case NewMppIntent(t, i) => s.(mppIntents := s.mppIntents[t := i])
    case NewMppClaim(t, c) => s.(mppClaims := s.mppClaims[s.mppIntents[t].id := c])
    case Submitted(i, at) => s.(mppClaims := s.mppClaims[i := s.mppClaims[i].(firstSubmissionMs := Some(at))])
    case MppConfirmed(i) => s.(mppClaims := s.mppClaims[i := s.mppClaims[i].(state := Confirmed)])
    case NewEvmIntent(t, i) => s.(evmIntents := s.evmIntents[t := i])
    case NewEvmClaim(t, c) =>
      s.(evmClaims := s.evmClaims[s.evmIntents[t].id := c],
          evmIntents := s.evmIntents[t := s.evmIntents[t].(hash := Some(c.hash))])
    case EvmConfirmed(i) => s.(evmClaims := s.evmClaims[i := s.evmClaims[i].(state := Confirmed)])
    case Released(t) => s.(evmIntents := s.evmIntents - {t})
    case Attached(t, h) => s.(evmIntents := s.evmIntents[t := s.evmIntents[t].(hash := Some(h))])
    case Elsewhere(trades, steps, mandates) => s.(trades := trades, steps := steps, mandates := mandates)
  }

  lemma TempoClaimWrites(s: Tables, env: Env, t: TradeId, b: BuyerId, call: MppCall) returns (w: Write)
    ensures Justified(s, w) && AfterMppClaim(s, t, MppAnswerOf(s, env, t, b, call)) == Patch(s, w)
    ensures w.Nothing? || (w.NewMppClaim? && w.trade == t)
  {
    var a := MppAnswerOf(s, env, t, b, call);
    w := if a.MppGiven? && !a.replay then NewMppClaim(t, a.claim) else Nothing;
  }

  lemma PullWrites(s: Tables, env: Env, t: TradeId, call: PullCall) returns (w: Write)
    ensures Justified(s, w) && AfterPull(s, env, t, call, PullAnswerOf(s, env, t, call)) == Patch(s, w)
    ensures w.Nothing? || w.Submitted?
  {
    var a := PullAnswerOf(s, env, t, call);
    if a.MppGiven? && call.mark && a.claim.firstSubmissionMs.None? {
      w := Submitted(s.mppIntents[t].id, env.nowMs);
    } else {
      w := Nothing;
    }
  }

  lemma EvmClaimWrites(s: Tables, env: Env, t: TradeId, b: BuyerId, call: EvmCall) returns (w: Write)
    ensures Justified(s, w) && AfterEvmClaim(s, t, EvmAnswerOf(s, env, t, b, call)) == Patch(s, w)
    ensures w.Nothing? || (w.NewEvmClaim? && w.trade == t)
  {
    var a := EvmAnswerOf(s, env, t, b, call);
    w := if a.EvmGiven? && !a.replay then NewEvmClaim(t, a.claim) else Nothing;
  }

  lemma IntentWrites(s: Tables, env: Env, t: TradeId, b: BuyerId, call: IntentCall) returns (w: Write)
    ensures Justified(s, w) && AfterIntent(s, t, IntentAnswerOf(s, env, t, b, call)) == Patch(s, w)
    ensures w.Nothing? || w.NewMppIntent?
  {
    var a := IntentAnswerOf(s, env, t, b, call);
    w := if a.IntentGiven? && a.created then NewMppIntent(t, a.intent) else Nothing;
  }

  /** Each step is one of these writes, made in the circumstances listed. */
  lemma EveryStepIsAWrite(s: Tables, m: Moment) returns (w: Write)
    ensures Justified(s, w) && Apply(s, m) == Patch(s, w)
    ensures w.MppConfirmed? ==> m.event.ConfirmTempo? && m.event.receipt == s.mppClaims[w.id].hash
    ensures w.EvmConfirmed? ==> m.event.ConfirmOnEvm? && m.event.receipt == s.evmClaims[w.id].hash
  {
    match m.event
    case CreateIntent(t, b, call) => w := IntentWrites(s, m.env, t, b, call);
    case ClaimTempo(t, b, call) => w := TempoClaimWrites(s, m.env, t, b, call);
    case PullTempo(t, call) => w := PullWrites(s, m.env, t, call);
    case ClaimOnEvm(t, b, call) => w := EvmClaimWrites(s, m.env, t, b, call);
    case ConfirmTempo(t, receipt) =>
      w := if t in s.mppIntents && s.mppIntents[t].id in s.mppClaims && s.mppClaims[s.mppIntents[t].id].hash == receipt
           then MppConfirmed(s.mppIntents[t].id) else Nothing;
    case ConfirmOnEvm(t, receipt) =>
      w := if t in s.evmIntents && s.evmIntents[t].hash == Some(receipt) && s.evmIntents[t].id in s.evmClaims
          && s.evmClaims[s.evmIntents[t].id].hash == receipt
           then EvmConfirmed(s.evmIntents[t].id) else Nothing;
    case OpenEvmIntent(t, i) =>
      w := if t in s.evmIntents || EvmIntentIdUsed(s, i.id) || i.hash.Some? then Nothing else NewEvmIntent(t, i);
    case ReleaseEvmIntent(t, id) =>
      w := if t in s.evmIntents && s.evmIntents[t].id == id && s.evmIntents[t].hash.None? then Released(t) else Nothing;
    case AttachProof(t, proof) =>
      w := if t in s.evmIntents && s.evmIntents[t].hash.None? then Attached(t, proof) else Nothing;
    case ChangeElsewhere(trades, steps, mandates) => w := Elsewhere(trades, steps, mandates);
  }

  lemma WriteKeepsClaims(s: Tables, w: Write, r: ClaimRef)
    requires Justified(s, w) && HasClaim(s, r)
    ensures ClaimKept(s, Patch(s, w), r)
    ensures CoreOf(s, r).state == Claimed && CoreOf(Patch(s, w), r).state == Confirmed ==>
              (r.OnMpp? && w == MppConfirmed(r.intent)) || (r.OnEvm? && w == EvmConfirmed(r.intent))
  {
  }

  lemma NoNewClaim(s: Tables, w: Write, r: ClaimRef)
    requires Justified(s, w) && HasClaim(Patch(s, w), r) && !HasClaim(s, r)
    ensures w.NewMppClaim? ==> r == OnMpp(s.mppIntents[w.trade].id)
    ensures w.NewEvmClaim? ==> r == OnEvm(s.evmIntents[w.trade].id)
    ensures w.NewMppClaim? || w.NewEvmClaim?
    ensures var c := CoreOf(Patch(s, w), r); c.state == Claimed && Free(s, c.chain, c.payer, c.nonce)
  {
  }

  lemma FreeMeansNoClaim(s: Tables, c: Core, q: ClaimRef)
    requires Free(s, c.chain, c.payer, c.nonce) && HasClaim(s, q) && SameWallet(CoreOf(s, q), c)
    ensures CoreOf(s, q).state == Confirmed && CoreOf(s, q).nonce != c.nonce
  {
    match q case OnMpp(i) => assert i in s.mppClaims; case OnEvm(i) => assert i in s.evmClaims;
  }

  /** Two claims present after a write exclude each other if all claims before it did. */
  lemma WriteKeepsExclusion(s: Tables, w: Write, q: ClaimRef, p: ClaimRef)
    requires WalletExclusive(s) && NonceExclusive(s) && Justified(s, w)
    requires HasClaim(Patch(s, w), q) && HasClaim(Patch(s, w), p) && q != p
        && SameWallet(CoreOf(Patch(s, w), q), CoreOf(Patch(s, w), p))
    ensures CoreOf(Patch(s, w), q).state == Confirmed || CoreOf(Patch(s, w), p).state == Confirmed
    ensures CoreOf(Patch(s, w), q).nonce != CoreOf(Patch(s, w), p).nonce
  {
    var s' := Patch(s, w);
    if HasClaim(s, q) { WriteKeepsClaims(s, w, q); SamePayment(s, s', q); } else { NoNewClaim(s, w, q); }
    if HasClaim(s, p) { WriteKeepsClaims(s, w, p); SamePayment(s, s', p); } else { NoNewClaim(s, w, p); }
    if HasClaim(s, q) && !HasClaim(s, p) { FreeMeansNoClaim(s, CoreOf(s', p), q); }
    if HasClaim(s, p) && !HasClaim(s, q) { FreeMeansNoClaim(s, CoreOf(s', q), p); }
  }

  lemma WriteKeepsKeys(s: Tables, w: Write)
    requires UniqueKeys(s) && Justified(s, w)
    ensures UniqueKeys(Patch(s, w))
  {
  }

  lemma MppClaimsKeepTheirIntents(s: Tables, w: Write, i: IntentId)
    requires ClaimsHaveIntents(s) && Justified(s, w) && i in Patch(s, w).mppClaims
    ensures exists t :: t in Patch(s, w).mppIntents && Patch(s, w).mppIntents[t].id == i
  {
    var s' := Patch(s, w);
    if i in s.mppClaims {
      var t :| t in s.mppIntents && s.mppIntents[t].id == i;
      assert t in s'.mppIntents && s'.mppIntents[t].id == i;
    } else {
      assert w.trade in s'.mppIntents && s'.mppIntents[w.trade].id == i;
    }
  }

  lemma EvmClaimsKeepTheirIntents(s: Tables, w: Write, i: IntentId)
    requires ClaimsHaveIntents(s) && Justified(s, w) && i in Patch(s, w).evmClaims
    ensures exists t :: t in Patch(s, w).evmIntents && Patch(s, w).evmIntents[t].id == i
  {
    var s' := Patch(s, w);
    if i in s.evmClaims {
      var t :| t in s.evmIntents && s.evmIntents[t].id == i;
      assert s.evmIntents[t].hash.Some?;
      assert t in s'.evmIntents && s'.evmIntents[t].id == i;
    } else {
      assert w.trade in s'.evmIntents && s'.evmIntents[w.trade].id == i;
    }
  }

  lemma EvmHashesStayLinked(s: Tables, w: Write, t: TradeId)
    requires UniqueKeys(s) && ClaimsHaveIntents(s) && Justified(s, w)
    requires t in Patch(s, w).evmIntents && Patch(s, w).evmIntents[t].id in Patch(s, w).evmClaims
    ensures Patch(s, w).evmIntents[t].hash == Some(Patch(s, w).evmClaims[Patch(s, w).evmIntents[t].id].hash)
  {
    match w
    case NewEvmClaim(u, c) => if u != t { assert s.evmIntents[t].id != s.evmIntents[u].id; }
    case _ =>
  }

  lemma MppTermsStayLinked(s: Tables, w: Write, t: TradeId)
    requires UniqueKeys(s) && ClaimsHaveIntents(s) && Justified(s, w)
    requires t in Patch(s, w).mppIntents && Patch(s, w).mppIntents[t].id in Patch(s, w).mppClaims
    ensures var i := Patch(s, w).mppIntents[t];
    var c := Patch(s, w).mppClaims[i.id]; c.mandate == i.mandate && c.termsHash == i.termsHash
  {
    match w
    case NewMppClaim(u, c) => if u != t { assert s.mppIntents[t].id != s.mppIntents[u].id; }
    case _ =>
  }

  lemma WriteKeepsLinks(s: Tables, w: Write)
    requires UniqueKeys(s) && ClaimsHaveIntents(s) && Justified(s, w)
    ensures ClaimsHaveIntents(Patch(s, w))
  {
    var s' := Patch(s, w);
    forall i | i in s'.mppClaims ensures exists t :: t in s'.mppIntents && s'.mppIntents[t].id == i {
      MppClaimsKeepTheirIntents(s, w, i);
    }
    forall i | i in s'.evmClaims ensures exists t :: t in s'.evmIntents && s'.evmIntents[t].id == i {
      EvmClaimsKeepTheirIntents(s, w, i);
    }
    forall t | t in s'.evmIntents && s'.evmIntents[t].id in s'.evmClaims
      ensures s'.evmIntents[t].hash == Some(s'.evmClaims[s'.evmIntents[t].id].hash)
    {
      EvmHashesStayLinked(s, w, t);
    }
    forall t | t in s'.mppIntents && s'.mppIntents[t].id in s'.mppClaims
      ensures s'.mppClaims[s'.mppIntents[t].id].mandate == s'.mppIntents[t].mandate
          && s'.mppClaims[s'.mppIntents[t].id].termsHash == s'.mppIntents[t].termsHash
    {
      MppTermsStayLinked(s, w, t);
    }
  }

  lemma StepKeepsInv(s: Tables, m: Moment)
    requires Inv(s)
    ensures Inv(Apply(s, m))
  {
    var w := EveryStepIsAWrite(s, m);
    var s' := Patch(s, w);
    forall q, p | HasClaim(s', q) && HasClaim(s', p) && q != p && SameWallet(CoreOf(s', q), CoreOf(s', p))
      ensures CoreOf(s', q).state == Confirmed || CoreOf(s', p).state == Confirmed
      ensures CoreOf(s', q).nonce != CoreOf(s', p).nonce
    {
      WriteKeepsExclusion(s, w, q, p);
    }
    WriteKeepsKeys(s, w);
    WriteKeepsLinks(s, w);
  }

  /** No step forgets a claim, changes its transaction, or rewrites its first submission time. */
  lemma StepKeepsClaims(s: Tables, m: Moment, r: ClaimRef)
    requires HasClaim(s, r)
    ensures ClaimKept(s, Apply(s, m), r)
  {
    var w := EveryStepIsAWrite(s, m);
    WriteKeepsClaims(s, w, r);
  }

  lemma SamePayment(s: Tables, s': Tables, r: ClaimRef)
    requires HasClaim(s, r) && ClaimKept(s, s', r)
    ensures var a, b := CoreOf(s, r), CoreOf(s', r);
    a.chain == b.chain && a.payer == b.payer && a.nonce == b.nonce && a.hash == b.hash
  {
    var a, b := CoreOf(s, r).(state := Claimed), CoreOf(s', r).(state := Claimed);
    assert a.chain == b.chain && a.payer == b.payer && a.nonce == b.nonce && a.hash == b.hash;
  }

  /** Corollary of the list of writes: only a verified receipt for a claim's own hash confirms it. */
  lemma OnlyReceiptsConfirm(s: Tables, m: Moment, r: ClaimRef)
    requires HasClaim(s, r) && CoreOf(s, r).state == Claimed
    ensures HasClaim(Apply(s, m), r)
    ensures CoreOf(Apply(s, m), r).state == Confirmed ==>
              (m.event.ConfirmTempo? || m.event.ConfirmOnEvm?) && m.event.receipt == CoreOf(s, r).hash
  {
    var w := EveryStepIsAWrite(s, m);
    WriteKeepsClaims(s, w, r);
  }

  lemma StepKeepsIntents(s: Tables, m: Moment, t: TradeId)
    requires t in s.mppIntents
    ensures t in Apply(s, m).mppIntents && Apply(s, m).mppIntents[t] == s.mppIntents[t]
  {
    var w := EveryStepIsAWrite(s, m);
    WriteKeepsIntents(s, w, t);
  }

  lemma WriteKeepsIntents(s: Tables, w: Write, t: TradeId)
    requires Justified(s, w) && t in s.mppIntents
    ensures t in Patch(s, w).mppIntents && Patch(s, w).mppIntents[t] == s.mppIntents[t]
  {
  }

  /** What the wallet may still reject: an intent is released only while no claim was made for it. */
  lemma ReleasedIntentsHaveNoClaim(s: Tables, m: Moment)
    requires Inv(s) && m.event.ReleaseEvmIntent? && Apply(s, m) != s
    ensures m.event.id !in s.evmClaims && m.event.id !in Apply(s, m).evmClaims
    ensures Apply(s, m) == s.(evmIntents := s.evmIntents - {m.event.trade})
  {
  }

  /** A permission to send always leaves its claim in place, unconfirmed, naming that hash. */
  lemma PermissionRests(s: Tables, m: Moment, r: ClaimRef, h: Hash)
    requires Permits(s, m, r, h)
    ensures var s' := Apply(s, m); HasClaim(s', r) && CoreOf(s', r).hash == h && CoreOf(s', r).state == Claimed
    ensures HasClaim(s, r) ==> CoreOf(s, r).state == Claimed
  {
  }

  /**
   * Permission is given only while the funding step is reserved, checkout is open, the bytes are in date and every gate
   * passes.
   */
  lemma PermissionNeedsEveryGate(s: Tables, m: Moment, r: ClaimRef, h: Hash)
    requires Permits(s, m, r, h)
    ensures var t := m.event.trade;
            && t in s.trades && t in s.steps && s.steps[t].reserved
            && CheckoutOpen(s.trades[t], m.env.nowMs)
            && m.env.routeEnabled && !m.env.paused && m.env.mandateReason.None? && m.env.serviceReason.None?
            && (r.OnMpp? ==> t in s.mppIntents && s.mppIntents[t].expiresMs > m.env.nowMs)
            && (m.event.ClaimTempo? ==> m.event.mppCall.raw.validBefore > m.env.nowMs / 1000)
            && (m.event.PullTempo? ==> m.event.pullCall.raw.validBefore > m.env.nowMs / 1000)
  {
    match m.event
    case ClaimTempo(t, b, call) => assert MppRequestFault(s, t, b, call).None?;
    case PullTempo(t, call) => assert MppReason(s, m.env, t, None, call.raw.validBefore).None?;
    case ClaimOnEvm(t, b, call) => assert EvmRequestFault(s, t, b, call).None?;
    case _ =>
  }

  // ---- whose trade, and on what terms ----

  predicate OwnTempoTrade(s: Tables, t: TradeId, buyer: BuyerId) {
    t in s.trades && s.trades[t].buyer == buyer && s.trades[t].rail == MppRail
  }

  /**
   * The trade's funding step draws on a mandate of its buyer that pays fees in the payment token and still carries the
   * step's terms.
   */
  predicate FeeTermsStand(s: Tables, t: TradeId) {
    && t in s.trades && t in s.steps && s.steps[t].mandate in s.mandates
    && var mandate := s.mandates[s.steps[t].mandate];
       && mandate.buyer == s.trades[t].buyer && mandate.rail == MppRail
       && mandate.feeToken == Some(mandate.token) && mandate.feeDecimals == Some(6)
       && mandate.termsHash == s.steps[t].termsHash
  }

  /**
   * Only the buyer of an MPP trade is ever given its intent or its claim; anyone else gets one answer that depends on
   * the trade alone.
   */
  lemma OnlyTheBuyerIsAnswered(s: Tables, env: Env, t: TradeId, buyer: BuyerId, i: IntentCall, c: MppCall)
    ensures IntentAnswerOf(s, env, t, buyer, i).IntentGiven? || MppAnswerOf(s, env, t, buyer, c).MppGiven? ==>
        OwnTempoTrade(s, t, buyer)
    ensures !OwnTempoTrade(s, t, buyer) ==>
              var code := if t !in s.trades then TradeNotFound
                  else if s.trades[t].buyer != buyer then Forbidden else ScopeMismatch;
              IntentAnswerOf(s, env, t, buyer, i) == IntentRefused(code)
                  && MppAnswerOf(s, env, t, buyer, c) == MppRefused(code)
  {
  }

  /**
   * Every intent that is created, and every claim and broadcast on the MPP rail that may send, rests on standing fee
   * terms, and what it stores or sends carries exactly those terms.
   */
  lemma TempoRestsOnFeeTerms(s: Tables, m: Moment, r: ClaimRef, h: Hash)
    requires Permits(s, m, r, h) && r.OnMpp?
    ensures FeeTermsStand(s, m.event.trade)
    ensures var t, c := m.event.trade, Apply(s, m).mppClaims[r.intent];
            && c.termsHash == s.steps[t].termsHash && c.mandate == s.steps[t].mandate
            && (m.event.ClaimTempo? ==> c.feeToken == s.mandates[c.mandate].token)
  {
    match m.event
    case ClaimTempo(t, b, call) => assert MppRequestFault(s, t, b, call).None?;
    case PullTempo(t, call) => assert MppScopeFault(s, t).None?;
    case _ =>
  }

  predicate TempoPays(s: Tables, t: TradeId, raw: SignedTempo, h: Hash) {
    && t in s.mppIntents && t in s.steps && s.steps[t].mandate in s.mandates
    && var i, mandate := s.mppIntents[t], s.mandates[s.steps[t].mandate];
       && raw.hash == h && raw.sender == i.payer == mandate.payer && raw.chain == i.chain == mandate.chain
       && raw.to == i.token == mandate.token && raw.recipient == i.treasury == mandate.treasury
       && raw.amount == i.amount > 0 && raw.memo == t
       && mandate.feeToken == Some(raw.feeToken) && raw.feeToken == i.token
       && raw.maxFee <= mandate.feeLimit && raw.validBefore * 1000 <= i.expiresMs
  }

  predicate EvmPays(s: Tables, t: TradeId, raw: SignedEvm, h: Hash) {
    && t in s.evmIntents && t in s.steps && s.steps[t].mandate in s.mandates
    && var i, mandate := s.evmIntents[t], s.mandates[s.steps[t].mandate];
       && raw.hash == h && raw.sender == i.payer == mandate.payer && raw.chain == i.chain == mandate.chain
       && raw.to == i.token == mandate.token && raw.recipient == i.treasury == mandate.treasury
       && raw.amount == i.amount > 0 && raw.gasCost <= mandate.feeLimit
  }

  /**
   * The bytes permitted to be sent are those of the claim and pay exactly what their own intent asks: its amount of its
   * token from its payer to its treasury, within the mandate's fee limit and, on the MPP rail, before the challenge
   * expires.
   */
  lemma PermittedBytesPayTheIntent(s: Tables, m: Moment, r: ClaimRef, h: Hash)
    requires Permits(s, m, r, h)
    ensures match m.event
            case ClaimTempo(t, _, call) => TempoPays(s, t, call.raw, h)
            case PullTempo(t, call) => TempoPays(s, t, call.raw, h)
            case ClaimOnEvm(t, _, call) => EvmPays(s, t, call.raw, h)
            case _ => false
  {
    match m.event
    case ClaimTempo(t, b, call) =>
      assert MppRequestFault(s, t, b, call).None?
          && TempoFault(call.raw, t, s.mppIntents[t], s.mandates[s.steps[t].mandate]).None?;
    case PullTempo(t, call) =>
      assert TempoFault(call.raw, t, s.mppIntents[t], s.mandates[s.steps[t].mandate]).None?;
    case ClaimOnEvm(t, b, call) =>
      assert EvmRequestFault(s, t, b, call).None?
          && EvmFault(call.raw, s.evmIntents[t], s.mandates[s.steps[t].mandate]).None?;
    case _ =>
  }

  // ---- runs ----

  /** Empty tables are a sound start. */
  lemma EmptyTablesAreSound()
    ensures Inv(Tables(map[], map[], map[], map[], map[], map[], map[]))
  {
  }

  ghost predicate Run(ss: seq<Tables>, ms: seq<Moment>) {
    && |ss| == |ms| + 1
    && Inv(ss[0])
    && forall k | 0 <= k < |ms| :: ss[k + 1] == Apply(ss[k], ms[k])
  }

  /** In every reachable state wallets and nonces are exclusive over both rails. */
  lemma {:induction false} ReachableStatesAreExclusive(ss: seq<Tables>, ms: seq<Moment>, k: nat)
    requires Run(ss, ms) && k <= |ms|
    ensures Inv(ss[k])
  {
    if k > 0 {
      ReachableStatesAreExclusive(ss, ms, k - 1);
      StepKeepsInv(ss[k - 1], ms[k - 1]);
    }
  }

  /** Claims are permanent, immutable but for confirmation, and their first submission time is written at most once. */
  lemma {:induction false} ClaimsArePermanent(ss: seq<Tables>, ms: seq<Moment>, i: nat, j: nat, r: ClaimRef)
    requires Run(ss, ms) && i <= j <= |ms| && HasClaim(ss[i], r)
    ensures ClaimKept(ss[i], ss[j], r)
    decreases j - i
  {
    if i < j {
      StepKeepsClaims(ss[i], ms[i], r);
      ClaimsArePermanent(ss, ms, i + 1, j, r);
      KeptIsTransitive(ss[i], ss[i + 1], ss[j], r);
    }
  }

  lemma KeptIsTransitive(a: Tables, b: Tables, c: Tables, r: ClaimRef)
    requires HasClaim(a, r) && ClaimKept(a, b, r) && ClaimKept(b, c, r)
    ensures ClaimKept(a, c, r)
  {
  }

  /** All answers and broadcast checks that permit sending for one intent name one transaction hash. */
  lemma OneHashPerIntent(ss: seq<Tables>, ms: seq<Moment>, i: nat, j: nat, r: ClaimRef, h: Hash, g: Hash)
    requires Run(ss, ms) && i <= j < |ms|
    requires Permits(ss[i], ms[i], r, h) && Permits(ss[j], ms[j], r, g)
    ensures h == g
  {
    PermissionRests(ss[i], ms[i], r, h);
    PermissionRests(ss[j], ms[j], r, g);
    if i < j {
      ClaimsArePermanent(ss, ms, i + 1, j + 1, r);
      SamePayment(ss[i + 1], ss[j + 1], r);
    }
  }

  /** A confirmed claim never permits sending again. */
  lemma ConfirmedClaimsNeverSend(ss: seq<Tables>, ms: seq<Moment>, i: nat, j: nat, r: ClaimRef, h: Hash)
    requires Run(ss, ms) && i <= j < |ms|
    requires HasClaim(ss[i], r) && CoreOf(ss[i], r).state == Confirmed
    ensures !Permits(ss[j], ms[j], r, h)
  {
    ClaimsArePermanent(ss, ms, i, j, r);
    if Permits(ss[j], ms[j], r, h) { PermissionRests(ss[j], ms[j], r, h); }
  }

  /**
   * Sends from one wallet are serialised across trades and rails: before another claim of the wallet is permitted to
   * send, the earlier one has been confirmed, and it has a different nonce.
   */
  lemma SendsAreSerialised(ss: seq<Tables>, ms: seq<Moment>, i: nat, j: nat, q: ClaimRef, r: ClaimRef, h: Hash, g: Hash)
    requires Run(ss, ms) && i < j < |ms| && q != r
    requires Permits(ss[i], ms[i], q, h) && Permits(ss[j], ms[j], r, g)
    requires HasClaim(ss[i + 1], q) && HasClaim(ss[j + 1], r) && SameWallet(CoreOf(ss[i + 1], q), CoreOf(ss[j + 1], r))
    ensures HasClaim(ss[j], q) && CoreOf(ss[j], q).state == Confirmed
    ensures CoreOf(ss[j], q).nonce != CoreOf(ss[j + 1], r).nonce
  {
    PermissionRests(ss[j], ms[j], r, g);
    ClaimsArePermanent(ss, ms, i + 1, j, q);
    ClaimsArePermanent(ss, ms, i + 1, j + 1, q);
    ReachableStatesAreExclusive(ss, ms, j + 1);
    SamePayment(ss[i + 1], ss[j], q);
    SamePayment(ss[i + 1], ss[j + 1], q);
    assert CoreOf(ss[j + 1], q).state == Confirmed;
    if CoreOf(ss[j], q).state == Claimed { OnlyReceiptsConfirm(ss[j], ms[j], q); }
  }

  /** The original challenge of a trade never changes, and one operation names one trade. */
  lemma {:induction false} IntentsArePermanent(ss: seq<Tables>, ms: seq<Moment>, i: nat, j: nat, t: TradeId)
    requires Run(ss, ms) && i <= j <= |ms| && t in ss[i].mppIntents
    ensures t in ss[j].mppIntents && ss[j].mppIntents[t] == ss[i].mppIntents[t]
    ensures forall u | u in ss[j].mppIntents && ss[j].mppIntents[u].operation == ss[i].mppIntents[t].operation :: u == t
    decreases j - i
  {
    if i < j {
      StepKeepsIntents(ss[i], ms[i], t);
      IntentsArePermanent(ss, ms, i + 1, j, t);
    } else {
      ReachableStatesAreExclusive(ss, ms, i);
    }
  }

  /** Once its bytes are claimed, repeating the same request can be told to wait but is never called a conflict. */
  lemma ExactReplayNeverConflicts(ss: seq<Tables>, ms: seq<Moment>, i: nat, j: nat)
    requires Run(ss, ms) && i < j < |ms|
    requires ms[i].event.ClaimTempo? && ms[j].event == ms[i].event
    requires MppAnswerOf(ss[i], ms[i].env, ms[i].event.trade, ms[i].event.buyer, ms[i].event.mppCall).MppGiven?
    ensures var e, a := ms[j].event,
        MppAnswerOf(ss[j], ms[j].env, ms[j].event.trade, ms[j].event.buyer, ms[j].event.mppCall);
            && (a.MppGiven? ==> a.replay && a.claim.hash == e.mppCall.raw.hash)
            && (a.MppRefused? ==> MppRequestFault(ss[j], e.trade, e.buyer, e.mppCall) == Some(a.code))
            && ss[j + 1] == ss[j]
  {
    var e := ms[j].event;
    var r := OnMpp(ss[i].mppIntents[e.trade].id);
    assert HasClaim(ss[i + 1], r);
    ClaimsArePermanent(ss, ms, i + 1, j, r);
    IntentsArePermanent(ss, ms, i, j, e.trade);
  }

  /** What an EVM claim that was given leaves in the tables. */
  lemma EvmClaimRests(s: Tables, env: Env, t: TradeId, b: BuyerId, call: EvmCall)
    requires Inv(s) && EvmAnswerOf(s, env, t, b, call).EvmGiven?
    ensures var s' := AfterEvmClaim(s, t, EvmAnswerOf(s, env, t, b, call));
            && t in s.steps && call.intent in s'.evmClaims
            && s'.evmClaims[call.intent].(state := Claimed) == EvmClaimFor(s.steps[t], call.raw)
            && s.steps[t].mandate == call.mandate
  {
    assert EvmRequestFault(s, t, b, call).None?;
  }

  /** What a replayed EVM claim is answered, once its request passes the checks made before the claims are read. */
  lemma EvmReplayAnswer(s: Tables, env: Env, t: TradeId, b: BuyerId, call: EvmCall, was: Step)
    requires Inv(s) && EvmRequestFault(s, t, b, call).None? && was.mandate == call.mandate
    requires call.intent in s.evmClaims
    requires s.evmClaims[call.intent].(state := Claimed) == EvmClaimFor(was, call.raw)
    ensures t in s.steps
    ensures EvmAnswerOf(s, env, t, b, call).EvmGiven? <==> s.steps[t].termsHash == was.termsHash
    ensures match EvmAnswerOf(s, env, t, b, call)
            case EvmGiven(claim, _, replay) =>
              replay && claim == s.evmClaims[call.intent] && claim.hash == call.raw.hash
            case EvmRefused(code) => code == TransactionConflict
  {
    assert s.evmClaims[call.intent].hash == EvmClaimFor(was, call.raw).hash;
    assert s.evmIntents[t].hash == Some(s.evmClaims[call.intent].hash);
  }

  /**
   * On the EVM rail a repeated claim is checked against the funding step as it is now. It is refused for what the
   * request itself gives at that time; otherwise it is the same claim again exactly while the step carries the terms it
   * was first accepted under, and a conflict once they have changed. It never writes.
   */
  lemma EvmReplayHoldsWhileTermsDo(ss: seq<Tables>, ms: seq<Moment>, i: nat, j: nat)
    requires Run(ss, ms) && i < j < |ms|
    requires ms[i].event.ClaimOnEvm? && ms[j].event == ms[i].event
    requires EvmAnswerOf(ss[i], ms[i].env, ms[i].event.trade, ms[i].event.buyer, ms[i].event.evmCall).EvmGiven?
    ensures ss[j + 1] == ss[j]
    ensures var e := ms[j].event;
            var a, fault := EvmAnswerOf(ss[j], ms[j].env, e.trade, e.buyer, e.evmCall),
                EvmRequestFault(ss[j], e.trade, e.buyer, e.evmCall);
            if fault.Some? then a == EvmRefused(fault.value)
            else
              && e.trade in ss[i].steps && e.trade in ss[j].steps
              && (a.EvmGiven? <==> ss[j].steps[e.trade].termsHash == ss[i].steps[e.trade].termsHash)
              && (a.EvmGiven? ==> a.replay && a.claim.hash == e.evmCall.raw.hash)
              && (a.EvmRefused? ==> a.code == TransactionConflict)
  {
    var e := ms[j].event;
    var r := OnEvm(e.evmCall.intent);
    ReachableStatesAreExclusive(ss, ms, i);
    ReachableStatesAreExclusive(ss, ms, j);
    EvmClaimRests(ss[i], ms[i].env, e.trade, e.buyer, e.evmCall);
    assert HasClaim(ss[i + 1], r);
    ClaimsArePermanent(ss, ms, i + 1, j, r);
    if EvmRequestFault(ss[j], e.trade, e.buyer, e.evmCall).None? {
      EvmReplayAnswer(ss[j], ms[j].env, e.trade, e.buyer, e.evmCall, ss[i].steps[e.trade]);
    }
  }
}
