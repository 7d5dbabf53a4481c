# Money, authority and task protocols of the agent marketplace

This project models the transactional core of the marketplace in Dafny and proves what it guarantees over whole runs.
Each database transaction is one atomic step: it commits whole or changes nothing. Every store is a class whose fields are
its tables; every method is proved equal to a specification function on those tables, and the guarantees are lemmas about
runs of those functions, with calls, replays, retries and changes made elsewhere interleaved in any order. The files named
`...Answers` say exactly which calls succeed and what they write, in both directions and on the rows themselves, without the
functions that the methods are proved against.

Run `dafny verify dfyconfig.toml` to check everything.

| files | what they model |
|---|---|
| `PaymentClaims.dfy`, `PaymentRuns.dfy`, `PaymentAnswers.dfy` | buyer payment claims on the EVM and MPP (Tempo) rails, which share wallets and nonces |
| `AgentAuthority.dfy`, `AuthorityRuns.dfy`, `AuthorityAnswers.dfy` | agent keys with rotation and overlap, named keys, recovery, ownership transfer, archiving |
| `CreditLedger.dfy`, `CreditRuns.dfy`, `ContractEscrow.dfy`, `CreditAnswers.dfy` | prepaid credit accounts beside an append-only log: reservations, settlements, contract releases, deposits, transfers to agents |
| `SpendPolicy.dfy`, `SpendAnswers.dfy`, `Money.dfy` | spend ceilings over UTC days and months; the money parser and printer |
| `ContractStates.dfy`, `Acceptance.dfy`, `AcceptanceRuns.dfy`, `AcceptanceAnswers.dfy`, `Adjudication.dfy`, `AdjudicationRuns.dfy`, `ContractRulings.dfy`, `RulingEntries.dfy`, `RulingSteps.dfy`, `RulingGuarantees.dfy`, `RulingAnswers.dfy`, `ContractDrafts.dfy`, `RequestWalk.dfy` | milestone contracts: transition tables, exact buyer acceptance, rulings beside the ledger they pay from, draft creation and its bounded input walk |
| `RouteTasks.dfy`, `RouteTaskRuns.dfy`, `RouteAnswers.dfy`, `TaskPages.dfy`, `TaskAnswers.dfy` | message claims and route tasks; paging two task tables as one list |
| `CanonicalForm.dfy`, `JsonText.dfy`, `RegistrationForm.dfy` | canonical request forms under any comparison of keys, what their text keeps, and the form registration replay relies on |
| `JsonValues.dfy`, `KeyOrder.dfy`, `Numerals.dfy`, `Options.dfy` | shared definitions |

## What is assumed

- Digests and signatures are injective or abstract: a stored digest is modelled by what it was computed from. JSON texts differ whenever
  the values they describe do.
- Generated ids and keys are either refused when already stored or, for secret keys, never issued before.
- Clock readings never go back where a run depends on it. Instants of spend windows are seconds since the start of 1970, which every UTC
  day counts as 86400.
- Eligibility of mandates and services, pause switches, enabled execution, wallet conflicts with organization payments, plan and
  mandate checks, and payment-server answers are inputs of a call, and may differ at every call.
- Money is whole cents and JavaScript's rounding is exact; only a ruling's split uses exact reals.
- A busy database is a count of failed attempts. Each failed attempt is rolled back whole, except that a routing call is several
  transactions and keeps those it had committed.
- References of trades, contracts, deposits and agent funding never coincide, and distinct users have distinct credit accounts.
- A locale comparison of keys is a total preorder in which distinct keys may tie; JavaScript's sort is stable, and its objects list
  index keys first by number.

## What the code does beyond or against its wording

- `settleCredit` does not look for an earlier settlement, but the unique index on user, reference and kind refuses the second one.
  `SettlementNeverLacksEscrow` therefore needs no assumption that a trade is settled once. A repeated settlement is reported as lack of
  credit when escrow is already too small, and as a duplicate entry otherwise.
- One allowed milestone transition can move the derived contract state along three edges that `canTransitionContract` does not list:
  from review to funded, from dispute to review, and from dispute to funded (`TableGap`, `DerivedEdgesAreExact`).
- The locale comparison that orders registration keys can tie distinct keys, such as two spellings of one accented letter. Only
  `tools_config` keeps keys of the caller's choice; a registration with two such keys in one of its objects, sent again with them
  swapped, is a conflict and not a replay (`CollidingKeysBreakReplay`). `ReplayIgnoresKeyOrderIffNoCollisions` gives the exact condition.
  Contract creation compares keys by code units, which never tie.
- Registration hashes JSON text, in which a number that overflows to infinity prints as null. A request with null in `tools_config` and one
  with such a number in its place are therefore taken for the same; `ReplayIsTheSameRequestIffExact` gives the exact condition. Contract
  creation refuses such numbers before it hashes.
- A repeated EVM claim is compared with the terms of the funding step as they are now, so it becomes a conflict when those terms change
  (`EvmReplayHoldsWhileTermsDo`); a repeated Tempo claim is compared with its own intent and never does (`ExactReplayNeverConflicts`).
- A ruling that is not a redo would stop validating if anything more were posted for its own milestone, and only then
  (`RecordedRulingsSurvive`). Nothing in the code posts it twice, so recorded rulings stand for ever (`RulingsStandForEver`).
- A message id seen only by a finished read task without a claim is forgotten with that task, and another request can then claim it
  (`AnOldIdIsRebound`). Such a task can only be older than the table of claims, because a read skill claims before it saves
  (lib/a2a-marketplace.ts:179). An id is bound for good exactly when it has been claimed (`BoundForGoodIffClaimed`), and tables that
  started empty hold no unclaimed task (`FromEmptyEveryIdIsBound`).
- Cancelling asks only that a contract be a draft or funded, not that nothing has been paid from it. Its whole refund nevertheless commits
  only while no milestone is settled (`RefundCommitsIffUnstarted`).
- A named key can be inserted for an agent that is not active. It is valid only while the agent is.
- The first EVM claim does not test the funding step's state itself; the mandate's eligibility check does.

## Model

| member | source | states |
|---|---|---|
| `PaymentClaims.PaymentStore.CreateMppIntent` | lib/buyer-mpp-payment.ts:90-125 | the original challenge is stored at most once per trade and operation; a repeat returns it, a different operation or origin is a conflict, a challenge that does not fit writes nothing |
| `PaymentClaims.PaymentStore.ClaimMppOnce` | lib/buyer-mpp-payment.ts:127-167 | every branch of one Tempo claim transaction: replay, conflict, refusal with its reason, or one inserted claim; nothing else changes |
| `PaymentClaims.PaymentStore.ClaimMpp` | lib/buyer-mpp-payment.ts:36-52 | the retry loop survives five busy attempts and reports a sixth with nothing written; otherwise it does what one attempt does |
| `PaymentClaims.PaymentStore.AssertMppPull` | lib/buyer-mpp-payment.ts:171-192 | the broadcast check accepts only the claimed hash while every gate is open, and marks the first submission once |
| `PaymentClaims.PaymentStore.ClaimEvmOnce` | lib/buyer-payment-claim.ts:36-98 | every branch of one EVM claim transaction; a first claim inserts the row and attaches its hash to the intent together |
| `PaymentClaims.PaymentStore.ClaimEvm` | lib/buyer-payment-claim.ts:34-109 | the EVM retry loop: five busy attempts are survived, a sixth is reported, and no failed attempt leaves anything |
| `PaymentRuns.EveryStepIsAWrite` | lib/buyer-payment-claim.ts:36-98 | any step of either rail, and any outside change to these tables, is one of eleven listed writes, each made only in its stated circumstances; a confirming write needs a receipt of the claim's own hash |
| `PaymentRuns.EmptyTablesAreSound` | lib/buyer-mpp-payment.ts:127-192 | empty tables are a sound start |
| `PaymentRuns.StepKeepsInv` | lib/buyer-mpp-payment.ts:127-192 | every step keeps wallet exclusion, nonce exclusion, unique keys and the links from claims to intents |
| `PaymentRuns.ReachableStatesAreExclusive` | lib/schema.ts:1715-1748 | in every reachable state of interleaved EVM and MPP claims a wallet has at most one unconfirmed claim over both tables and no wallet nonce is used by two claims |
| `PaymentRuns.ClaimsArePermanent` | lib/buyer-payment-claim.ts:57-66 | through replays, revocation, expiry and confirmation no claim is removed, moved to another transaction, un-confirmed, or given a second first-submission time |
| `PaymentRuns.PermissionNeedsEveryGate` | lib/buyer-mpp-payment.ts:69-77 | permission to send implies an open checkout, a reserved funding step, enabled execution, no pause, an eligible mandate and service, and unexpired challenge and transaction |
| `PaymentRuns.PermittedBytesPayTheIntent` | lib/buyer-tempo-transaction.mjs:6-48 | bytes that may be sent carry the claimed hash and pay exactly their intent's amount of its token from its payer to its treasury, within the mandate's fee limit and before the challenge expires; the same on EVM |
| `PaymentRuns.OneHashPerIntent` | lib/buyer-mpp-payment.ts:127-192 | over any run all permissions and successful broadcast checks of one intent name one transaction hash |
| `PaymentRuns.ConfirmedClaimsNeverSend` | lib/buyer-payment-claim.ts:63-66 | once confirmed, a claim never again permits sending |
| `PaymentRuns.SendsAreSerialised` | lib/buyer-payment-claim.ts:82-89 | before a second claim of a wallet may send, on either rail and for any trade, the first has been confirmed and its nonce differs |
| `PaymentRuns.OnlyReceiptsConfirm` | lib/route-payment-mandate.ts:270-284 | a corollary of the list of writes: a claim becomes confirmed only by a verified receipt for its own hash |
| `PaymentRuns.IntentsArePermanent` | lib/buyer-mpp-payment.ts:90-125 | a stored Tempo intent never changes and its operation id never serves another trade |
| `PaymentRuns.ExactReplayNeverConflicts` | lib/buyer-mpp-payment.ts:141-151 | repeating an accepted claim at any later time returns the same hash as a replay and changes nothing; it is refused only for reasons the request itself gives at that time |
| `PaymentRuns.EvmReplayHoldsWhileTermsDo` | lib/buyer-payment-claim.ts:57-66 | on the EVM rail a repeated accepted claim is the same claim again exactly while the funding step carries the terms it was first accepted under, and a conflict once they changed; it changes nothing and is otherwise refused only for what the request gives at that time |
| `PaymentAnswers.FirstTempoClaimIff` | lib/buyer-mpp-payment.ts:127-167 | a first Tempo claim is given, and may send at once, exactly when the request fits, every gate is open, no wallet conflict is reported, every earlier claim of the wallet on either rail is confirmed, none of them has the nonce and no Tempo claim has the hash; the claim given is that of the bytes |
| `PaymentAnswers.FirstEvmClaimIff` | lib/buyer-payment-claim.ts:36-98 | the same on the EVM rail, where the intent must carry no hash yet |
| `PaymentAnswers.TempoReplaySendsIff` | lib/buyer-mpp-payment.ts:141-151 | a request that fits is answered with the stored claim exactly when it repeats its bytes, and may send exactly while the claim is unconfirmed and every gate open |
| `PaymentAnswers.EvmReplaySendsIff` | lib/buyer-payment-claim.ts:57-75 | the same on the EVM rail |
| `PaymentAnswers.BroadcastIff` | lib/buyer-mpp-payment.ts:171-192 | a broadcast is let through exactly when it presents the unconfirmed claim's own bytes under the original challenge while every gate is open; the first submission time is then written once and only if asked for |
| `PaymentAnswers.ChallengeIff` | lib/buyer-mpp-payment.ts:90-125 | exactly when a challenge is stored, and exactly when the stored one is given back |
| `PaymentAnswers.StoredChallengeIs` | lib/buyer-mpp-payment.ts:108-123 | the stored challenge takes each field from the trade, its mandate or the server's answer |
| `PaymentAnswers.TempoClaimWrites` | lib/buyer-mpp-payment.ts:161-166 | a claim given for the first time is stored and nothing else is; every other answer leaves every row as it was |
| `PaymentAnswers.EvmClaimWrites` | lib/buyer-payment-claim.ts:90-98 | on the EVM rail it is stored together with its hash on the intent |
| `PaymentAnswers.ChallengeWrites` | lib/buyer-mpp-payment.ts:119-123 | a new challenge is stored under its trade and nothing else is written |
| `PaymentAnswers.TempoRequestIsExact` | lib/buyer-tempo-transaction.mjs:6-48 | the signed bytes, stored challenge, mandate and trade pass inspection exactly when they agree field by field, within the fee limit and the challenge's time |
| `PaymentAnswers.EvmRequestIsExact` | lib/buyer-payment-claim.ts:37-56 | the same for an EVM transaction |
| `PaymentAnswers.TempoRefusalsAreExact` | lib/buyer-mpp-payment.ts:141-163 | each refusal that a fitting request can meet is given exactly for its own reason: other bytes than the stored ones, a reconciled payment, a wallet in use elsewhere, an unconfirmed claim, a nonce or hash taken |
| `PaymentAnswers.EvmRefusalsAreExact` | lib/buyer-payment-claim.ts:57-96 | the same on the EVM rail |
| `PaymentAnswers.ReceiptsConfirm` | lib/route-payment-mandate.ts:270-284 | a receipt of a claim's own hash confirms it, which frees its wallet |
| `AgentAuthority.AuthorityStore.LinkAgentOwner` | lib/agent-ownership.ts:52-82 | an owner is linked exactly when the agent works and has none |
| `AgentAuthority.AuthorityStore.RecoverAgentCredentials` | lib/agent-ownership.ts:84-142 | the owner's recovery installs one key, clears the previous one and revokes every named key in one step |
| `AgentAuthority.AuthorityStore.RotateAgentCredential` | lib/agent-credentials.ts:29-126 | rotation by the current key, refused during an overlap, with the error read from the row seen first and the write guarded against the row stored now |
| `AgentAuthority.AuthorityStore.RevokePreviousAgentCredential` | lib/agent-credentials.ts:135-199 | ends the overlap early, only by the current key and only for the previous key it saw |
| `AgentAuthority.AuthorityStore.CreateNamedAgentCredential` | lib/agent-named-credentials.ts:78-165 | a named key is inserted exactly when fewer than ten are active and its name is not in use |
| `AgentAuthority.AuthorityStore.RevokeNamedAgentCredential` | lib/agent-named-credentials.ts:173-226 | a named key is revoked once |
| `AgentAuthority.AuthorityStore.CreateOwnershipTransfer` | lib/agent-ownership.ts:144-221 | a new transfer replaces every open one of the agent |
| `AgentAuthority.AuthorityStore.AcceptOwnershipTransfer` | lib/agent-ownership.ts:244-378 | acceptance moves the owner, replaces all keys, closes every other open transfer, or changes nothing |
| `AgentAuthority.AuthorityStore.CancelOwnershipTransfer` | lib/agent-ownership.ts:380-412 | the current owner cancels an open transfer once |
| `AgentAuthority.AuthorityStore.ArchiveAgent` | lib/agent-lifecycle.ts:66-171 | archiving closes the agent and all its keys, or rolls back when obligations exist |
| `AuthorityRuns.ReplacementLeavesOneKey` | lib/agent-ownership.ts:84-339 | after recovery or an accepted transfer the valid keys are exactly the new one |
| `AuthorityRuns.ReplacementIsFinal` | lib/agent-ownership.ts:84-142 | and no key issued before it is valid for the agent in any later run of rotate, revoke, create, recover, transfer and archive |
| `AuthorityRuns.RetiredKeysStayRetired` | lib/agent-credentials.ts:69-110 | a key that has left an agent's file never comes back to it |
| `AuthorityRuns.StepOnlyAddsItsOwnKey` | lib/agent-credentials.ts:69-110 | a step adds no key to an agent but the one it generates |
| `AuthorityRuns.StepKeepsInv` | lib/agent-ownership.ts:158-207 | every request keeps at most one open transfer per agent, none both accepted and cancelled, and revocation of a primary key only by archiving |
| `AuthorityRuns.EmptyTablesAreSound` | lib/agent-ownership.ts:158-207 | empty tables are a sound start |
| `AuthorityRuns.ReachableInv` | lib/agent-ownership.ts:158-207 | so in every reachable state an agent has at most one open transfer |
| `AuthorityRuns.ResolvedTransfersAreFinal` | lib/agent-ownership.ts:387-411 | a transfer once accepted or cancelled keeps that outcome, and accepting it again is a conflict |
| `AuthorityRuns.OwnerChangesCloseTransfers` | lib/agent-ownership.ts:288-346 | ownership changes hands only by acceptance, which closes every transfer of the agent |
| `AuthorityRuns.StaleTransfersStayDead` | lib/agent-ownership.ts:261-346 | a transfer that existed when ownership moved can never be accepted, even if its creator owns the agent again |
| `AuthorityRuns.ArchivedAgentsStayClosed` | lib/agent-lifecycle.ts:66-171 | an archived agent has no valid key for ever and its row never changes |
| `AuthorityRuns.ReachableNamedSound` | lib/agent-named-credentials.ts:91-125 | an agent never has more than ten active named keys nor two under one name |
| `AuthorityAnswers.AcceptanceIff` | lib/agent-ownership.ts:261-346 | a transfer is accepted exactly with its own token, for its own agent, by the email or wallet it is addressed to, while it is open and unexpired, its creator still owns the agent and the agent works; then the recipient owns it and holds its only key, and otherwise nothing changes |
| `AuthorityAnswers.RecoveryIff` | lib/agent-ownership.ts:84-142 | recovery is granted exactly to the present owner of a working agent |
| `AuthorityAnswers.TransferCreationIff` | lib/agent-ownership.ts:144-221 | a transfer is created exactly by the present owner of a working agent, lives a day, is addressed as asked and replaces every open one |
| `AuthorityAnswers.CancellingIff` | lib/agent-ownership.ts:380-412 | an open transfer is cancelled exactly by the agent's present owner |
| `AuthorityAnswers.LinkIff` | lib/agent-ownership.ts:52-82 | an owner is linked exactly to a working agent that has none |
| `AuthorityAnswers.RotationIff` | lib/agent-credentials.ts:29-126 | rotation is granted exactly with the stored current key of a working agent outside an overlap, in the row seen and in the row stored; the old key overlaps for ten minutes |
| `AuthorityAnswers.EarlyRevocationIff` | lib/agent-credentials.ts:135-199 | the overlap is ended early exactly with the stored current key, for the previous key that was seen |
| `AuthorityAnswers.UndisturbedAnswers` | lib/agent-credentials.ts:29-199 | without a race every answer, refusals too, says what the stored row says |
| `AuthorityAnswers.NamedCreationIff` | lib/agent-named-credentials.ts:78-165 | a named key is made exactly while fewer than ten are usable, none under its name, and expires after the days asked for |
| `AuthorityAnswers.NamedRevocationIff` | lib/agent-named-credentials.ts:173-226 | a named key is revoked exactly once, by its own agent |
| `AuthorityAnswers.ArchivingIff` | lib/agent-lifecycle.ts:66-171 | an agent is archived exactly once and without obligations, with its keys |
| `AuthorityAnswers.KeysAreExact` | lib/registered-agent-auth.ts:112-142 | a key authenticates exactly as the present key, as the previous one during the overlap, or as a usable named key of a working agent |
| `AuthorityAnswers.RequestsStayWithTheirAgent` | lib/agent-ownership.ts:84-412 | no request changes the row, the owner, a key or a transfer of another agent |
| `CreditLedger.CreditStore.ChangeCredit` | lib/account-credit.ts:24-33 | one leg moves the balance and appends its entry, or is refused for an unsafe amount, a negative balance or a repeated entry and leaves both as they were |
| `CreditLedger.CreditStore.ReserveCredit` | lib/account-credit.ts:35-39 | a reservation writes both legs or none |
| `CreditLedger.CreditStore.SettleCredit` | lib/account-credit.ts:40-47 | a settlement releases the exact reserved amount, split between buyer and seller, or writes nothing |
| `CreditLedger.CreditStore.DistributeCredit` | lib/contract-settlement.ts:25-39 | a release from a contract's escrow pays buyer and seller whole amounts that sum to it, or writes nothing |
| `CreditLedger.CreditStore.FundOwnedAgent` | lib/account-credit.ts:102-140 | an owner's transfer to an agent happens once per reference; the retry loop survives four busy attempts and reports a fifth |
| `CreditLedger.CreditStore.OpenDeposit` | lib/account-credit.ts:52-71 | a reference names one deposit for good |
| `CreditLedger.CreditStore.SaveDepositHash` | lib/account-credit.ts:72-82 | the hash is pinned before the chain is asked, and never replaced |
| `CreditLedger.CreditStore.CreditSavedDeposit` | lib/account-credit.ts:90-100 | receipt, credit and state change together or not at all |
| `CreditRuns.LegKeepsBalances` | lib/account-credit.ts:24-33 | a leg keeps every balance non-negative and equal to the sums of its log, and moves the grand total by what it adds |
| `CreditRuns.OutstandingSettles` | lib/account-credit.ts:40-47 | a first settlement removes exactly its own reservation from the user's outstanding sum |
| `CreditRuns.StepKeepsInv` | lib/account-credit.ts:24-47 | every committed operation keeps balances equal to the log, escrow equal to the unsettled trade reservations plus the unreleased remainder of each funded contract, and the grand total equal to the confirmed deposits |
| `CreditRuns.LedgerIsSound` | lib/account-credit.ts:24-119 | so does every run, including confirmations that race and retry |
| `CreditRuns.OutstandingMoves` | lib/contract-settlement.ts:25-39 | an entry under a contract moves the outstanding sum by exactly its escrow amount |
| `CreditRuns.RemainderBounds` | lib/contract-settlement.ts:29-33 | nothing is ever released from a contract beyond its reservation |
| `ContractEscrow.ReleasesNeverLackEscrow` | lib/contract-settlement.ts:25-39 | exactly when a release commits; the buyer's account never lacks the credit for it |
| `ContractEscrow.RemainderIsUnpaid` | lib/contract-settlement.ts:30 | while releases follow the milestones, a contract holds what was reserved less the milestones paid |
| `ContractEscrow.UnpaidMilestonesAreHeld` | lib/contract-settlement.ts:25-39 | every milestone not yet settled is still held in full |
| `ContractEscrow.EveryUnpaidMilestoneCanBePaid` | lib/contract-settlement.ts:25-39 | so it can be settled with every legal split |
| `ContractEscrow.PlansAreKept` | lib/contract-settlement.ts:25-39 | releases that follow the milestones keep doing so along any run |
| `ContractEscrow.ContractSaleTrail` | lib/contract-settlement.ts:33-38 | behind every contract sale stand a release of the same operation and the reservation |
| `CreditRuns.EmptyLedgerIsSound` | lib/account-credit.ts:24-119 | an empty ledger is a sound start |
| `CreditRuns.ReservationsAreCovered` | lib/account-credit.ts:44-47 | the buyer's escrow covers each unsettled reservation |
| `CreditRuns.SettlementNeverLacksEscrow` | lib/account-credit.ts:40-47 | exactly when a settlement commits: legal split, matching reservation, and neither of its entries posted before; lack of credit is reported only for a reservation already settled |
| `CreditRuns.LiveReservationsAlwaysSettle` | lib/account-credit.ts:40-47 | a live reservation made for one buyer settles with every legal split |
| `CreditRuns.SaleTrail` | lib/account-credit.ts:46-47 | behind every sale entry stand a settlement and the purchase it released |
| `CreditRuns.EntriesAreUnique` | lib/schema.ts:2106-2112 | no user, reference and kind is posted twice |
| `CreditRuns.TransfersHappenOncePerReference` | lib/account-credit.ts:110-118 | after an owner's transfer its reference moves nothing more: the same transfer is a replay and any other a conflict, in every later state |
| `CreditRuns.DepositReferencesOpenOnce` | lib/account-credit.ts:52-60 | after a deposit is opened its reference opens no other: the same terms are a replay and any others a conflict |
| `CreditRuns.DepositsArePermanent` | lib/account-credit.ts:79-82 | a deposit's terms never change, its hash is written once and its confirmation is final |
| `CreditRuns.EachDepositAndHashCreditsOnce` | lib/account-credit.ts:72-100 | whatever the retries and races, a deposit is credited at most once and one hash credits at most one deposit |
| `CreditAnswers.LegIff` | lib/account-credit.ts:24-33 | a leg goes through exactly for safe amounts that leave neither log sum of the user negative, under a reference and kind not posted before: a balance may be used up to the last cent |
| `CreditAnswers.ReservationIff` | lib/account-credit.ts:35-39 | a reservation commits exactly when total is seller plus fee, the seller's part is positive, the fee not negative, the buyer's log sums to at least the total, and neither entry was posted before |
| `CreditAnswers.ReservationMoves` | lib/account-credit.ts:35-39 | it takes the total from the buyer, holds the seller's part and pays the fee, and moves nobody else's sums |
| `CreditAnswers.SettlementIff` | lib/account-credit.ts:40-47 | a settlement commits exactly once for a matching reservation, with any split into whole cents |
| `CreditAnswers.SettlementMoves` | lib/account-credit.ts:40-47 | it frees the whole reservation, returns the buyer's part and pays the seller the rest |
| `CreditAnswers.ReleaseIff` | lib/contract-settlement.ts:25-39 | a release commits exactly when the contract still holds the amount and its operation was not posted before |
| `CreditAnswers.ReleaseMoves` | lib/contract-settlement.ts:25-39 | it frees the amount, returns the refund and pays the seller the rest |
| `CreditAnswers.TransferIff` | lib/account-credit.ts:102-119 | an owner's transfer commits exactly for an owned agent, under an unused reference, within the owner's log sum |
| `CreditAnswers.TransferMoves` | lib/account-credit.ts:102-119 | the agent gets what the owner gives, and nobody else's sums move |
| `CreditAnswers.OpeningIff` | lib/account-credit.ts:52-71 | exactly when a deposit is opened, and exactly when the stored one is given back |
| `CreditAnswers.PinningIff` | lib/account-credit.ts:72-82 | a hash is pinned exactly by the deposit's user, with the payer's proof, over nothing or itself, and if no other deposit has it |
| `CreditAnswers.CreditingIff` | lib/account-credit.ts:90-100 | a deposit is credited exactly while it is pending and its hash has no receipt; its user gains exactly its amount |
| `SpendPolicy.OnlyPurchasesRaiseExposure` | lib/buyer-spend-policy.ts:84-91 | cancelling, refunding, closing and drafting never raise a buyer's exposure; a purchase raises it by exactly its price |
| `SpendPolicy.LaterWindowsSeeLess` | lib/buyer-spend-policy.ts:93-98 | moving a window's start forward never adds exposure |
| `SpendPolicy.ChecksAreExact` | lib/buyer-spend-policy.ts:71-82 | the chain of constraint checks lets through exactly the purchases that obey every rule of the policy |
| `SpendPolicy.BuyerCeilingsHold` | lib/buyer-spend-policy.ts:100-113 | if every purchase is admitted by the policy check, day and month exposure stay within the limits in every reachable state |
| `SpendPolicy.AgentCeilingsHold` | lib/agent-spend-policy.ts:94-130 | the same for the deployment's daily and per-trade ceilings |
| `SpendPolicy.FundingRecheckPasses` | lib/agent-spend-policy.ts:86-92 | a trade admitted under fixed ceilings never fails the funding recheck |
| `SpendPolicy.CancelledTradesCountUntilRefunded` | lib/agent-spend-policy.ts:49-53 | a cancelled trade stops counting at once on the ledger rail, elsewhere only when refunded |
| `SpendAnswers.EachTradeCountsOnce` | lib/buyer-spend-policy.ts:84-87 | a trade adds its price exactly if the window had begun when it was made and it is live, or cancelled off the ledger rail and not refunded |
| `SpendAnswers.EachSessionCountsOnce` | lib/buyer-spend-policy.ts:88-89 | a session adds what it has not refunded exactly if it is open or was closed inside the window |
| `SpendAnswers.EachContractCountsOnce` | lib/buyer-spend-policy.ts:90-91 | a credit contract adds its escrow exactly if it was funded inside the window |
| `SpendAnswers.OldRowsDoNotCount` | lib/buyer-spend-policy.ts:84-91 | rows dated before a window count for nothing in it, however many there are |
| `SpendAnswers.TodayStartsAt` | lib/buyer-spend-policy.ts:93-98 | today starts at the one midnight, a multiple of 86400 seconds, that is at most a day back |
| `SpendAnswers.ThisMonthStartsAt` | lib/buyer-spend-policy.ts:93-98 | this month starts on the first of the one UTC month that contains now, leap years included |
| `SpendAnswers.MonthsAreACalendar` | lib/buyer-spend-policy.ts:93-98 | the starts of UTC months never go back and never lie ahead, which is all that the ceilings over runs need of them |
| `SpendAnswers.BuyerAdmissionIff` | lib/buyer-spend-policy.ts:100-113 | a purchase is admitted exactly when there is no policy, or it obeys the rules and, added to what today and this month count, stays within both limits |
| `SpendAnswers.AgentAdmissionIff` | lib/agent-spend-policy.ts:94-130 | an agent's purchase must also stay within the deployment's ceilings, and nothing else |
| `SpendAnswers.FundingRecheckIff` | lib/agent-spend-policy.ts:86-92 | exactly when a trade passes the funding recheck |
| `SpendAnswers.LimitsStartAfresh` | lib/buyer-spend-policy.ts:93-113 | while nothing lies in a window its limit is there in full |
| `Money.PrintThenParse` | lib/buyer-spend-policy.ts:56-63 | printing an amount and parsing it back returns the same cents |
| `Money.PrintedShape` | lib/buyer-spend-policy.ts:11-14 | every printed amount matches the accepted pattern |
| `Money.ParserRange` | lib/buyer-spend-policy.ts:11-14 | the parser produces exactly the amounts from zero to 9999999999.99 |
| `Money.StoredAmountsSurviveLoading` | lib/buyer-spend-policy.ts:65-68 | loading a stored policy loses nothing the parser ever produced |
| `Money.OnlyAmountsParse` | lib/buyer-spend-policy.ts:11-14 | a text parses exactly when it is one to ten digits without a superfluous leading zero, alone or with a point and one or two digits |
| `Money.AmountsMean` | lib/buyer-spend-policy.ts:56-63 | and is worth a hundred times its whole part plus ten times the first decimal plus the second, absent ones counting as zero |
| `ContractStates.EachStepStaysOrFollowsAnEdge` | lib/contracts-state.ts:60-69 | one allowed milestone transition, among any number of milestones, leaves the derived state or moves it along a listed edge |
| `ContractStates.DerivedEdgesAreExact` | lib/contracts-state.ts:44-69 | every listed edge is caused by some allowed transition, and no other is |
| `ContractStates.TableGap` | lib/contracts-state.ts:29-42 | the listed edges are the contract table's plus exactly three it does not allow |
| `ContractStates.SettledContractsStaySettled` | lib/contracts-state.ts:53-55 | once every milestone is paid or refunded neither they nor the derived state move again |
| `ContractStates.RunsFollowDerivedEdges` | lib/contracts-state.ts:29-69 | the same over whole runs, with replays |
| `ContractStates.ImpliedStateIff` | lib/contracts-state.ts:60-69 | what each implied state says of the milestones, in both directions: a dispute outranks a review, a review outranks work, and all settled means completed if any was paid |
| `Acceptance.AcceptanceStore.AcceptOnce` | lib/contract-exact-acceptance.ts:70-105 | every branch of an acceptance: milestone, contract and decision change together, or a refusal or replay leaves all three as they were |
| `Acceptance.AcceptanceStore.AcceptReviewed` | lib/organization-purchasing-transaction.ts:23-34 | six contended attempts end in a storage error with nothing written; fewer are survived |
| `Acceptance.AcceptanceStore.LookupDecision` | lib/contract-exact-acceptance.ts:55-67 | reading a decision back by reference changes nothing and is open to both participants only |
| `Acceptance.NewDecisionReads` | lib/contract-exact-acceptance.ts:34-52 | the decision just inserted passes every re-check of its own answer, so an acceptance is never rolled back by it |
| `Acceptance.ApprovalOnlyReviews` | lib/contract-exact-acceptance.ts:93-102 | an acceptance changes one milestone and leaves the contract state that the milestones already implied: under review, or in dispute |
| `AcceptanceRuns.EachStepIsJustified` | lib/contract-exact-acceptance.ts:84-102 | a step adds at most one decision, made when that milestone awaited review with exactly that submission and content selected, and moves it to approved |
| `AcceptanceRuns.SelectionsComeFromSubmissions` | lib/contract-original-submissions.ts:90-111 | a selection changes only by a submission: under a reviewed use together with its record, elsewhere only without one |
| `AcceptanceRuns.SelectionsStayRecorded` | lib/organization-contract-authorizations.ts:60-74 | a reviewed use begins without selections, so in every reachable state each selection of a reviewed contract is on record under its own authority |
| `AcceptanceRuns.DecisionsAreExact` | lib/schema.ts:1997-2007 | in every reachable state there is at most one decision per submission and per buyer and reference, each backed by the rows it names |
| `AcceptanceRuns.EveryDecisionIsJustified` | lib/contract-exact-acceptance.ts:84-102 | every decision of a run goes back to such a step |
| `AcceptanceRuns.DecisionsArePermanent` | lib/contract-exact-acceptance.ts:70-105 | no decision, and nothing it names, is ever changed |
| `AcceptanceRuns.ReferenceIsSpent` | lib/contract-exact-acceptance.ts:79-83 | a used reference answers the same call with its decision, beside the current selection, and every other call with a conflict, and writes nothing |
| `AcceptanceRuns.ExactReplayIsHarmless` | lib/contract-exact-acceptance.ts:79-83 | an exact replay at any later time is answered with the original decision, whatever was submitted, moved, disputed or settled in between; it changes nothing and says whether the decision still applies to the current selection |
| `AcceptanceRuns.EmptyTablesAreSound` | lib/contract-exact-acceptance.ts:70-105 | empty tables are a sound start |
| `AcceptanceRuns.DecidedSubmissionsStayDecided` | lib/contract-exact-acceptance.ts:86-87 | a decided submission is never accepted again under any reference |
| `AcceptanceRuns.LookupAgreesWithReplay` | lib/contract-exact-acceptance.ts:55-67 | both participants always find a decision by its reference, and read exactly what a replay answers |
| `AcceptanceAnswers.AcceptanceIff` | lib/contract-exact-acceptance.ts:70-105 | a first acceptance is made exactly by the buyer, under an unused reference, for the selected submission on record with exactly its content, complete, passed, undecided and awaiting review |
| `AcceptanceAnswers.AcceptanceWrites` | lib/contract-exact-acceptance.ts:93-102 | it approves that milestone, derives the contract's state and records one decision, and changes no other row |
| `AcceptanceAnswers.AcceptanceRefusalsAreTrue` | lib/contract-exact-acceptance.ts:70-92 | each refusal names a condition that the rows really miss |
| `AcceptanceAnswers.DecisionReadsIff` | lib/contract-exact-acceptance.ts:34-52 | a stored decision is answered with exactly while use, submission and digest say what it says, and the answer tells whether it applies to the current selection |
| `AcceptanceAnswers.LookupIff` | lib/contract-exact-acceptance.ts:55-67 | a decision is read exactly by a participant of its contract, under its own milestone and reference |
| `AcceptanceAnswers.SubmissionIff` | lib/contract-original-submissions.ts:90-111 | a submission goes through exactly for the reviewed seller while contract and milestone take work; it is recorded, selected, and awaits review only if complete |
| `Adjudication.RulingsConserveTheAmount` | lib/contract-original-adjudication.ts:15-22 | for every ruling but redo the shares are non-negative and sum to the frozen amount |
| `Adjudication.SplitIsTheNearestCent` | lib/contract-original-adjudication.ts:20-21 | a split gives the seller the one whole number of cents within half a cent of the exact percentage, halves upward |
| `Adjudication.AdjudicationStore.Record` | lib/contract-original-adjudication.ts:62-79 | recording inserts a row exactly when it validates, and otherwise leaves nothing |
| `Adjudication.RecordedRulingsSurvive` | lib/contract-original-adjudication.ts:23-59 | whatever else grows or changes, a recorded ruling keeps validating with the same figures exactly as long as nothing more is posted for its own milestone; a redo whatever is posted |
| `AdjudicationRuns.RulingsStandForEver` | lib/contract-original-adjudication.ts:82-86 | in every later state of any run a recorded ruling reads back with the figures recorded, whatever is posted and whatever disputes are opened and ruled on |
| `AdjudicationRuns.RedoThenAnotherRuling` | lib/contract-original-adjudication.ts:39-43 | a redo and a later ruling on the same milestone both read back as recorded |
| `AdjudicationRuns.StepKeepsInv` | lib/contract-original-adjudication.ts:23-59 | every step keeps each milestone settled at most once, sold only behind its settlement, and every recorded ruling valid |
| `AdjudicationRuns.EmptyTablesAreSound` | lib/contract-original-adjudication.ts:23-59 | empty tables are a sound start |
| `RulingGuarantees.RulingCommits` | app/api/admin/contracts/disputes/[id]/resolve/route.ts:78-167 | an open dispute is resolved by every ruling that can be distributed and by no other: the escrow is there, the record validates, and books and ledger change together |
| `RulingGuarantees.ReleaseCommits` | lib/contract-original-credit-release.ts:77-97 | the release of an accepted milestone commits exactly when the milestone has not been settled, and then settles it on both sides |
| `RulingGuarantees.RefundCommitsIffUnstarted` | app/api/contracts/[id]/route.ts:171-215 | a cancelled or expired contract is refunded whole exactly when none of its milestones has been settled, whatever state the milestones imply |
| `RulingAnswers.DistributionIff` | lib/contract-original-adjudication.ts:15-22 | exactly which rulings can be distributed, and who gets what under each: all, nothing, or the nearest cent to a percentage |
| `RulingAnswers.RulingIff` | app/api/admin/contracts/disputes/[id]/resolve/route.ts:65-100 | a ruling takes effect exactly on an unresolved dispute about a milestone in dispute of an open reviewed contract, nothing of it settled, with shares that can be computed |
| `RulingAnswers.RulingWrites` | app/api/admin/contracts/disputes/[id]/resolve/route.ts:92-165 | it resolves that dispute, moves that milestone to active, returned or paid, and records who ruled what, when, on which frozen amount and with which shares; no other row changes |
| `RulingAnswers.RulingMoves` | app/api/admin/contracts/disputes/[id]/resolve/route.ts:101-129 | on the ledger it frees the amount, returns the buyer's share and pays the seller's; a redo moves nothing |
| `RulingAnswers.ReadsBackIff` | lib/contract-original-adjudication.ts:23-59 | a recorded ruling is read back exactly while dispute, authority, frozen amount and milestone are those it names, its shares are those the ruling gives, the log shows exactly its postings and its hash is its own |
| `RulingAnswers.ReleaseIff` | lib/contract-original-credit-release.ts:77-97 | an accepted milestone is released exactly once, while its contract is open |
| `RulingAnswers.ReleaseMoves` | lib/contract-settlement.ts:24-39 | the seller then gets the whole frozen amount out of what the contract holds |
| `RulingAnswers.RefundIff` | app/api/contracts/[id]/route.ts:171-215 | a contract is refunded whole exactly while it is open and none of its milestones has a settlement on the log |
| `RulingAnswers.RefundMoves` | app/api/contracts/[id]/route.ts:171-215 | the buyer then gets the sum of all milestones back and the contract is closed |
| `RulingAnswers.OpeningIff` | lib/organization-contract-authorizations.ts:60-79 | a contract is funded exactly once, for positive milestones that add up to what is reserved, by a buyer whose log covers them and the fee |
| `RulingSteps.StepKeepsInv` | lib/contract-settlement.ts:24-39 | funding, releases, rulings, whole refunds and every other use of the ledger keep books and ledger in agreement: one reservation of the milestones' sum per reviewed contract, releases of exactly the frozen amounts, and a milestone settled in one exactly when it is in the other |
| `RulingSteps.ReachableInv` | lib/contract-settlement.ts:24-39 | so they agree in every reachable state |
| `RulingSteps.StepProjects` | lib/contract-settlement.ts:24-39 | either side of a joint step is a step of its own model, so what is proved of ledger runs and of ruling runs holds of both together |
| `RulingEntries.ReservationOpensSound` | lib/organization-contract-authorizations.ts:65-79 | a reservation of the milestones' sum, where none was made before, starts the agreement: nothing can have been released under it yet |
| `ContractRulings.EmptyTablesAreSound` | lib/contract-settlement.ts:24-39 | empty tables are a sound start |
| `Adjudication.ValidatedPostingsConserve` | lib/contract-original-adjudication.ts:43-48 | the postings a validated ruling pins move the frozen amount out of escrow and create nothing |
| `Adjudication.AlteredRowsAreRefused` | lib/contract-original-adjudication.ts:27-32 | a corollary of the injective digest: a row altered in any field no longer validates |
| `Adjudication.RecordingNeedsItsPostings` | lib/contract-original-adjudication.ts:35-48 | when recording succeeds: the log holds the ruling's postings and only those |
| `RequestWalk.Walk` | lib/contract-creation.ts:22-33 | the explicit-stack walk ends normally if and only if the value has at most 4096 nodes, depth at most 12 and only finite numbers |
| `RequestWalk.PopIsExact` | lib/contract-creation.ts:27-32 | replacing a popped node by its children keeps the verdict on everything still to be visited |
| `ContractDrafts.DraftStore.CreateContractDraft` | lib/contract-creation.ts:72-117 | every branch of draft creation; contract and creation record are written together or not at all |
| `ContractDrafts.ReplaysRecoverTheOriginal` | lib/contract-creation.ts:41-77 | a used reference creates nothing more, whatever admission says: a request equal up to key order (keys compared by code units) recovers the first contract, any other is a conflict |
| `ContractDrafts.ReferencesAreForever` | lib/contract-creation.ts:72-117 | a creation record never changes through later work on contracts |
| `ContractDrafts.CreationsMakeDistinctContracts` | lib/contract-creation.ts:41-56 | two references never answer with the same contract |
| `ContractDrafts.EmptyTablesAreSound` | lib/contract-creation.ts:72-117 | empty tables are a sound start |
| `ContractDrafts.DraftsAddUp` | lib/contract-creation.ts:95-107 | a draft's milestones sum to its total, its escrow is total plus fee, and the fee is the nearest cent to five percent |
| `ContractDrafts.CreationIff` | lib/contract-creation.ts:72-117 | a draft is created exactly while credit funding is ready and not paused, for a known public seller other than the buyer, and under a reference only for a request within the limits whose reference this buyer has not used |
| `ContractDrafts.CreationWrites` | lib/contract-creation.ts:95-115 | the new contract is a draft of the requested milestones for that seller, its amounts add up, and its reference names it with the canonical request; no other row changes |
| `CanonicalForm.CanonicalIsIdempotent` | lib/agent-registration-replay.ts:4-8 | under any total preorder of keys, ties or not, normalising twice is normalising once |
| `CanonicalForm.SameFormIffSameUpToUntiedOrder` | lib/agent-registration-replay.ts:4-8 | under any total preorder, two values share a form exactly when they are equal up to key order and list the tied keys of each object in the same relative order |
| `CanonicalForm.KeyOrderIsIrrelevantIffTieFree` | lib/agent-registration-replay.ts:4-8 | sharing a form is plain equality up to key order exactly for values none of whose objects has two tied keys; every other value has a twin with another form |
| `CanonicalForm.EntriesAreSorted` | lib/agent-registration-replay.ts:6 | the sorted entries are the given ones, values normalised, in key order, tied keys in their given order |
| `CanonicalForm.FormKeepsTheValue` | lib/agent-registration-replay.ts:4-8 | the form loses nothing but the order of keys |
| `CanonicalForm.TotalOrderForgetsKeyOrder` | scripts/verifier-contract.mjs:9-13 | under any total order the plain equivalence holds for all values |
| `CanonicalForm.CodeUnitsAreATotalOrder` | scripts/verifier-contract.mjs:11 | code-unit comparison is such an order |
| `JsonText.LeavesCommute` | lib/agent-registration-replay.ts:21 | rewriting the leaves of a value, as printing does, commutes with sorting its keys under every comparison |
| `JsonText.FinitePrintsAsItIs` | lib/agent-registration-replay.ts:21 | the printed text describes exactly the values as they are whose numbers are all finite |
| `JsonText.OverflowPrintsTheSame` | lib/agent-registration-replay.ts:21 | a value and the one with an infinite number for every null print alike |
| `RegistrationForm.IndexKeysAreNumerals` | lib/agent-registration-replay.ts:6 | the keys a rebuilt object lists first are exactly the decimal numerals of 0 to 2^32 - 2 |
| `RegistrationForm.RegisteredSortsThenNormalises` | lib/agent-registration-replay.ts:6 | sorting by collation and then normalising the values gives the entries the rebuilt object is made of |
| `RegistrationForm.RegisteredIsCanonical` | lib/agent-registration-replay.ts:4-8 | sorting by collation and rebuilding the object, which lists index keys first by number, is one stable sort under one preorder, at every depth |
| `RegistrationForm.RegistrationIsIdempotent` | lib/agent-registration-replay.ts:4-8 | for every collation normalising twice is normalising once, and only the order of keys is lost |
| `RegistrationForm.TextIsTheFormOfThePrinted` | lib/agent-registration-replay.ts:21 | the hashed text says the form of the request with null for every number that is not finite |
| `RegistrationForm.SameRegistrationIff` | lib/agent-registration-replay.ts:21 | exactly when two registration requests have the same hashed text, for every collation: as printed they are equal up to key order and list colliding keys in the same order; for requests with finite numbers that is the requests themselves |
| `RegistrationForm.ReplayIgnoresKeyOrderIffNoCollisions` | lib/agent-registration-replay.ts:21 | replay recognises a request under every order of its keys, and only then, exactly when no object in it has two keys that collide in the collation; requests are compared as they print |
| `RegistrationForm.TotalCollationsIgnoreKeyOrder` | lib/agent-registration-replay.ts:21 | with a collation that never ties distinct keys, replay never depends on key order |
| `RegistrationForm.ReplayIsTheSameRequestIffExact` | lib/agent-registration-replay.ts:21 | every recognised replay is the same request up to key order exactly when the first request has no null and no number beyond the finite range; any other shares its hash with a different request |
| `RegistrationForm.InexactRequestsAreMistaken` | app/api/agents/register/route.ts:22 | for each of those a different request with the same hash: an overflowing number where it has null, or null where it has such a number |
| `RegistrationForm.CollidingKeysBreakReplay` | app/api/agents/register/route.ts:15-57 | a registration whose tools_config holds an object with two spellings of one accented key is not recognised when it is sent again with the two swapped |
| `RegistrationForm.FoldingCollides` | lib/agent-registration-replay.ts:6 | a collation in which those two spellings tie exists |
| `TaskPages.MergedTaskList` | lib/a2a-marketplace.ts:266-284 | the merged page equals the page of the full sorted list, although only pageSize + 1 legacy rows are read |
| `TaskPages.ListTasks` | lib/a2a-marketplace.ts:231-253 | either branch answers the reference page, and a bad token is refused |
| `TaskPages.LimitedReadsSuffice` | lib/a2a-marketplace.ts:278-281 | candidates from all route tasks and the limited read have the right first page and tell rightly whether more follow |
| `TaskPages.SecondsFilterIsExact` | lib/a2a-marketplace.ts:276 | rounding the time filter up to seconds selects the same rows as comparing milliseconds |
| `TaskPages.NextPageIsShorter` | lib/a2a-marketplace.ts:95-107 | an emitted token decodes and resumes exactly where the page ended, with less remaining |
| `TaskPages.FollowCollects` | lib/a2a-marketplace.ts:282-283 | the pages followed from any cursor concatenate to all that lies past it |
| `TaskPages.PagesCoverTheListOnce` | lib/a2a-marketplace.ts:231-253 | from the empty token the pages end and hold every task once, newest first |
| `TaskAnswers.ListedIff` | lib/a2a-marketplace.ts:231-284 | a list request finds a task exactly when a row of one of the two tables shows it and meets every filter given: context, state, time, and seven days for stored reads |
| `TaskAnswers.PageIs` | lib/a2a-marketplace.ts:266-284 | a page holds the first unseen tasks, newest and greatest id first, as many as fit; all it leaves out comes after all of it; it counts the whole list and carries its last task as token exactly when something is left out |
| `TaskAnswers.TokensDecode` | lib/a2a-marketplace.ts:95-103 | a token is honoured exactly when it names a safe integer and 36 hexadecimal digits or dashes, and resumes there |
| `TaskAnswers.NothingIsSeenAtFirst` | lib/a2a-marketplace.ts:95-97 | without a token the first page starts before every task |
| `RouteTasks.RouteTaskStore.ClaimMessage` | lib/a2a-route-tasks.ts:59-74 | a message id is bound to one request over both tables; five busy attempts are survived |
| `RouteTasks.RouteTaskStore.BindMandate` | lib/a2a-route-tasks.ts:143-149 | a mandate is written only over nothing or itself |
| `RouteTasks.RouteTaskStore.CreateTask` | lib/a2a-route-tasks.ts:187-202 | one task per first message and at most a hundred per agent |
| `RouteTasks.RouteTaskStore.SendRouteWork` | lib/a2a-route-tasks.ts:150-243 | every branch of a routing call, from claim to bound and executed task, and the tables it leaves; five attempts that meet a locked database are survived, each starting over on what the ones before it committed, and a sixth is reported |
| `RouteTasks.RouteTaskStore.RunReadSkill` | lib/a2a-marketplace.ts:179-213 | every branch of a read skill: claim, unexpired replay, purge and insert |
| `RouteTasks.RouteTaskStore.ListRows` | lib/a2a-route-tasks.ts:265-268 | the limited read returns a prefix of at most 101 of the agent's rows |
| `RouteTaskRuns.StepKeepsInv` | lib/a2a-route-tasks.ts:186-215 | every atomic step, in any interleaving of calls, keeps first messages unique, tasks and read tasks in agreement with their claims, and at most a hundred tasks per agent and transport |
| `RouteTaskRuns.BindingsAreWrittenOnce` | lib/a2a-route-tasks.ts:143-215 | claims and tasks never go away, and a route or mandate never changes once set |
| `RouteTaskRuns.OneRequestPerMessage` | lib/a2a-route-tasks.ts:59-74 | after a claim the message id admits that request and no other, and every task and read task under it carries it, for ever |
| `RouteTaskRuns.BoundForGoodIffClaimed` | lib/a2a-route-tasks.ts:59-74 | an id is bound to a request in every continuation exactly when it has been claimed for it; a finished read task alone does not bind it |
| `RouteTaskRuns.TasksBindTheirIds` | lib/a2a-route-tasks.ts:186-203 | the request of every route task is bound in every continuation |
| `RouteTaskRuns.UnclaimedReadsAreForgotten` | lib/a2a-marketplace.ts:205 | once an unclaimed read task is purged its id is free for another request |
| `RouteTaskRuns.AnOldIdIsRebound` | lib/a2a-marketplace.ts:205 | a concrete old read task whose id is purged and then claimed for a different request |
| `RouteTaskRuns.FromEmptyEveryIdIsBound` | lib/a2a-marketplace.ts:179-213 | from empty tables every id with a finished read task or a route task is bound for good to its request |
| `RouteTaskRuns.EmptyTablesAreSound` | lib/a2a-route-tasks.ts:186-215 | empty tables are a sound start |
| `RouteTaskRuns.OneTaskPerMessage` | lib/a2a-route-tasks.ts:186-203 | every later creation for a first message finds its one task |
| `RouteTaskRuns.ListsAreComplete` | lib/a2a-route-tasks.ts:265-268 | in every reachable state an agent has at most a hundred tasks per transport, so the list read misses none |
| `RouteTaskRuns.SendIsSteps` | lib/a2a-route-tasks.ts:150-243 | a routing call, with whatever its locked attempts committed, changes the tables as some sequence of those atomic steps does |
| `RouteTaskRuns.ReadIsSteps` | lib/a2a-marketplace.ts:179-213 | so does a read skill |
| `RouteTaskRuns.RepeatedCallsKeepTheirTask` | lib/a2a-route-tasks.ts:154-203 | sending a first message again, through any number of locked attempts, makes no second task and moves no binding |
| `RouteTaskRuns.ClaimedIdsRefuseOthers` | lib/a2a-route-tasks.ts:59-74 | a claimed id refuses every other request, under read and routing skills alike, and nothing is written |
| `RouteAnswers.OtherRoutesConflict` | lib/a2a-route-tasks.ts:162-164 | a call that names a task is a binding conflict, and writes nothing, exactly when it names another route or another context than the task's |
| `RouteAnswers.UnknownTasksAreNotFound` | lib/a2a-route-tasks.ts:156-159 | a task that is not there, or not the agent's, is not found and nothing is written |
| `RouteAnswers.NamedTasksAreWorkedOnIff` | lib/a2a-route-tasks.ts:162-185 | a call on its task's own route works on it exactly while the task is live and work is allowed; a finished task is shown only to a repeated call |
| `RouteAnswers.RepeatedFirstMessages` | lib/a2a-route-tasks.ts:160-185 | exactly when a repeated first message is a conflict, is answered without work, goes on, or is refused |
| `RouteAnswers.NewFirstMessages` | lib/a2a-route-tasks.ts:180-203 | a new first message makes its one task exactly when work is allowed, the agent has fewer than a hundred and the id is new |
| `RouteAnswers.WorkBinds` | lib/a2a-route-tasks.ts:204-232 | a plan binds a route only where there is none, and a valid mandate only over none or itself; nothing else is written |
| `RouteAnswers.WorkAnswers` | lib/a2a-route-tasks.ts:204-241 | each refusal of the work has its one reason, and a shown task is the task as it now is |
| `RouteAnswers.CallsBindOnlyTheirOwn` | lib/a2a-route-tasks.ts:150-243 | through any number of locked attempts a routing call binds a route or mandate only to a task whose route it names or whose first message it is, and leaves every other row as it was |
| `RouteAnswers.MalformedCallsAreRefused` | lib/a2a-route-tasks.ts:80-92 | anything but a routing message, and a plan that names a task, is refused before it claims its id |
| `RouteAnswers.LocksDelayOnly` | lib/a2a-route-tasks.ts:34-53 | a call answers what its last attempt answers over what the locked ones committed; six are reported as busy |
| `RouteAnswers.ClaimIff` | lib/a2a-route-tasks.ts:59-74 | a message id is claimed exactly by the request that has it in either table, or by any if none has |
| `RouteAnswers.ReadIff` | lib/a2a-marketplace.ts:179-213 | a read skill is answered from the stored task for seven days, and otherwise computed, stored, and older ones dropped |

## Left out

- The listing, task and organization branches at the top of the claim functions, and the tables behind `spendingWalletConflict`: the conflict is an input.
- Chain RPC, signature checks, transaction decoding, encryption and hashing: predicates and injective values.
- HTTP handlers, authentication headers, scopes, rate limits and event or audit rows, which the guarantees do not read.
- Payer signatures stored with EVM intents and deposits, key prefixes and last-used times, and the upgrade of old key digests.
- Listings, webhooks and organization assignments that archiving also closes.
- AgentAuthority.AuthorityStore.ArchiveAgent: the counts of obligations that block archiving are one flag, because the tables they count are not modelled.
- The state of the contract in the ruling models: a contract in dispute is one that was neither cancelled nor expired.
- Client references of submissions: a repeated submission writes nothing, so only first submissions are events.
- Adjudication.SplitIsTheNearestCent: a split's share is computed in exact reals, so rounding inside floating-point products is not modelled.
- Lifecycle of trades, mandates and funding steps: the payment model lets them change arbitrarily between steps.
- Instant-session postings in the credit ledger: only trades, contracts, deposits and transfers to agents are posted.
- The older wallet escrow of contracts not funded by credit.
- Floating point in stored amounts, SQL rounding and percentages; a session never refunds more than its budget.
- Provider aliases: providers of a spend policy are compared by id.
- The depth-six search through nested error causes that recognises a busy database.
- The evidence checks that make a contract's reviewed use readable: a use is present or absent, and once present stays as it is.
- The text of submissions and their stored content hashes: a submission carries its content, its check result and whether it is complete.
- Byte limits on canonical text, and the text itself: a request carries whether it fits.
- Base64 and JSON of page tokens: a token is the cursor it decodes to, or undecodable.
- The locale collation itself: everything about registration is proved for every total preorder of keys.
- Live views of route tasks: whether a bound route is readable, terminal or ordered is an input, and cancellation is handed on.
- PaymentRuns.PermissionNeedsEveryGate: wallet conflicts with organization payments are checked only when a claim is first made, so a later permission does not imply their absence.
- `registrationReplay`: deriving an agent's id and key from its recovery secret; only the request digest's canonical form is modelled.
- `findOriginalContractCreation`: recovering a draft by reference outside a creation; it reads what `ContractDrafts.Original` reads.
- Presence, usage quotas, trust and reputation, fee evidence and key-storage migration: they would add only easy members.
