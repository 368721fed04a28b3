# CivilCheck API: a verified model

CivilCheck is a property-check marketplace: reporters publish posts, owners and
experts publish properties and reports, buyers pay for a verification, may claim
against it, and experts are paid out. This project models the part of the API where
the order of events, concurrent requests and bookkeeping matter, and proves what
that code keeps. Check everything with `dafny verify dfyconfig.toml`.

## What is modelled

- **Duplicate posts** (`HashReuse`, `DedupeProtocol`, `DedupeProgress`,
  `DedupeOutcomes`). Create, edit and remove as interleaved small steps: stale pre-read,
  advisory lock, duplicate check, staged write with row lock, commit; a transaction may
  be rolled back before it commits. The address normalizer, the lock key and the image
  digest are arbitrary functions, so lock keys may collide.
- **Verification settlement** (`Settlement`, `SettlementRules`, `SettlementSafety`,
  `ClaimResults`, `PayoutResults`, `PayoutStatus`, `PayoutRetries`, `PayoutSamples`,
  `SettlementHandlers`). Requests, claims, refunds, expert earnings and payout records as
  tables. Each database transaction is one step; what a handler reads before its
  transaction is a step of its own. Accept, claim and sweep are a start (the checks,
  under the request's row lock) and a finish (the writes) or a roll-back.
  `ReadX`/`WriteX` steps are a handler divided by other steps; a provider event is `Deliver` (the lookup), `WriteEvent` (the record) and
  `FinishEvent` (its earnings); a refund is `TakeRefund`, `ReturnRefund` if the provider
  refuses, else `ReadEarnings` for the payments it returns and `FinishRefund`, which
  writes without looking again. Any of these may be abandoned half-way.
  `Resolve`, `Send`, `Review`, `Webhook` and `ProcessRefund` are the same handlers with
  nothing in between. Results about runs use all steps; the ones that need undivided
  handlers say so in their preconditions. `SettlementStore` holds the handlers as
  methods on mutable tables; `SettlementRules` spells out over the rows when each
  transaction goes through and what it writes, on stale reads too. Each method keeps
  the tables valid, which is the settlement invariant with nothing in flight, and makes
  exactly the transition that the run results are about.
- **Refund bookkeeping** (`LedgerReversal`, `RefundOverlap`, `RefundResults`). The loop
  that reverses captured payments oldest first, with its rounding; refunds one after the
  other and overlapping; which earnings a refund reverses.
- **TTL cache and free case check** (`TtlCaching`, `FreeCheck`).
- **Feed merge and hydration** (`FeedMerge`, `Hydration`). A source that is not asked
  for is an empty table.
- **Password shuffle and list paging** (`Shuffling`, `Paging`).
- **Owner properties** (`OwnerProperties`). Owner edits and admin moderation, stale
  reads included.
- **Weekly settlement history** (`WeeklySettlement`). Dates are day numbers.

Rows are never deleted by this code, so a row's id is its index in its table.

## Where the code and its comments or promises disagree

The model follows the code. Lemmas show each case and, where the promise holds on some
inputs, exactly on which.

- PAID is not final: a reversal event takes a paid record to REVERSED, and a send that
  read the record earlier writes its failure status unconditionally, so a confirmed
  payout can go back to RETRYABLE (`PaidIsLeftExactly`, `SlowSendUndoesPaid`).
- Record and earning statuses agree, up to follow-up statements still to come, under
  every step but three (`AgreementKeptExactly`). A refund reads whether an earning may be
  reversed and writes REVERSED later, unguarded. It may hit an earning waiting in a
  RETRYABLE record, which is then still paid in full, or one that has been joined
  (`LateReversalOfRequestedEarning`) or paid (`LateReversalOfPaidEarning`) since
  (`RefundedEarningIsStillPaid`). An event writes the record and its earnings in two
  statements: one that is overtaken leaves a REVERSED record with PAID earnings
  (`OvertakenConfirmationStays`), one that stops half-way a PAID record with PROCESSING
  earnings (`AbandonedConfirmationStays`). Delivering the confirmation again repairs
  neither.
- The cap of three attempts assumes that nobody else sends meanwhile. Two sends that read
  the same count and fail leave the record RETRYABLE past the cap (`CapKeptExactly`,
  `ConcurrentSendsMissTheCap`).
- With undivided handlers, failures reported by the provider never lead to MANUAL_REVIEW
  (`ReportedFailuresAreNotCapped`).
- The comment in `resolveClaim` says a rejection can run only once per claim. Two calls
  that both read the open claim can move it out of a final status
  (`StaleResolveOverwrites`, `StaleResolveReopensRejectedClaim`). The release of an
  earning still happens at most once (`ReleasedAtMostOnce`).
- Earnings are said to stay frozen while a refund is pending. A second claim on the same
  request may be raised and rejected meanwhile, and that releases them
  (`FrozenIsReleasedExactlyByRejection`, `SecondClaimReleasesUnderPendingRefund`).
- A request is never accepted with an OPEN claim, but it can be with one UNDER_REVIEW
  (`NeverAcceptedWithOpenClaim`, `AcceptedRequestMayHaveClaimUnderReview`).
- A payment reversed in part stays open for its full amount, so later refunds reverse
  that part again, unless every refund ends where a payment ends
  (`RefundsConserveExactly`, `TwoPartialRefundsReverseTooMuch`). That is for refunds one
  after the other; of two that overlap, each must also find what it reaches still open
  when it writes (`OverlapsConserveExactly`, `TwoFullRefundsReverseTwice`).
  Commission and earning parts exceed the reversed amount by one paisa exactly on half
  paise (`PartsAddUpExactly`).
- A suspension that read the status before a deletion brings a deleted property back
  (`DeletedIsLeftExactlyByStaleSuspension`, `StaleSuspensionRevivesDeleted`).
- The free check's cache key trims the text, the query does not
  (`TrimmingIsHarmlessExactly`).
- Setting a present cache key keeps its place in the order, so order by insertion and
  order by expiry differ unless sets follow misses (`ResetKeepsOrderExactly`,
  `ResetValueEvictedEarly`).
- On Sundays "this week" starts tomorrow (`WeekStartsTomorrowExactlyOnSunday`).
- Saved and liked items are looked up by id alone, so the page is right exactly when no
  visible item shares its id with an engagement in another table
  (`EngagedKeepOrderExactly`, `SharedIdConfuses`). Each table generates its ids, so this
  takes rows that were given theirs otherwise.

## Model

| member | source | states |
|---|---|---|
| DedupeProtocol.NoDuplicateIsEverPublished | apps/api/src/controllers/reporterPost.controller.ts:33-51 | Over every schedule of creates, edits and removals, rolled back at any point or not, no two published posts ever share a normalized address and an image fingerprint; stored fingerprints stay right |
| DedupeProtocol.PostsChangeOnlyAsAllowed | apps/api/src/controllers/reporterPost.controller.ts:138-218 | A stored post changes only by its owner's edit or removal or an admin's removal; owner kept, a removed post never republished, an edit leaves exactly the images and address asked for |
| DedupeProtocol.StepKeepsInv | apps/api/src/controllers/reporterPost.controller.ts:178-196 | Every step keeps lock exclusion, and keeps every passed duplicate check true until its transaction commits, even when a post moves in from another address |
| DedupeOutcomes.CheckRefusesExactly | apps/api/src/controllers/reporterPost.controller.ts:39-50 | A transaction at its check becomes a duplicate exactly when some stored post, other than its own row, is published at the normalized address and shares a fingerprint; said over the rows |
| DedupeOutcomes.CreateEnds | apps/api/src/controllers/reporterPost.controller.ts:66-103 | How a create ends on every schedule, unless rolled back: unverifiable exactly when an image cannot be fetched, else a duplicate exactly when a published post is in the way at its check, else committed as a new published post with what was sent and no other row touched |
| DedupeOutcomes.EditEnds | apps/api/src/controllers/reporterPost.controller.ts:138-203 | How an edit ends on every schedule, unless rolled back, by the row it read: not found, without address, unverifiable, or a duplicate of another post at its check, each exactly when; else committed, and the row then carries the images and address asked for, or its own where none were |
| DedupeOutcomes.RemovalEnds | apps/api/src/controllers/reporterPost.controller.ts:206-218 | How an owner's or an admin's removal ends on every schedule, unless rolled back; a committed one leaves the row REMOVED, otherwise as it was, and every other row alone |
| DedupeProgress.BlockedExactly | apps/api/src/controllers/reporterPost.controller.ts:33-39 | An unfinished transaction cannot step exactly while another holds the address lock it asks for, from that one's check to its end, or has a write of the same row staged |
| DedupeProgress.NeverStuck | apps/api/src/controllers/reporterPost.controller.ts:33-39 | As long as a transaction is unfinished some transaction can step: advisory and row locks never deadlock |
| DedupeProgress.NoDeadlockAndBounded | apps/api/src/controllers/reporterPost.controller.ts:75-96 | Every run has at most five moves per transaction and can be continued, without rolling anything back, until all have finished |
| DedupeProgress.ExactlyOneRivalCommits | apps/api/src/controllers/reporterPost.controller.ts:25-31 | Of any number of concurrent creates at one address with pairwise overlapping images exactly one commits and all others are refused as duplicates or rolled back, unless all are rolled back; other writes at the address may run along as long as their images overlap no rival's |
| DedupeProgress.QuietRequestsStayQuiet | apps/api/src/controllers/reporterPost.controller.ts:138-196 | Requests that name another address, or images apart from the rivals', keep that condition on every schedule, whatever rows they edit |
| HashReuse.ReuseHashes | apps/api/src/controllers/reporterPost.controller.ts:166-176 | The loops over the `known` map save for every image the last fingerprint stored for it, or a fresh one if none is; they fail exactly when an image without a stored one cannot be verified |
| HashReuse.ReuseIsRefingerprint | apps/api/src/controllers/reporterPost.controller.ts:166-176 | Reusing stored fingerprints gives exactly what fingerprinting every image afresh gives, position by position, for repeated, reordered and legacy images; when it fails |
| SettlementHandlers.SettlementStore.RecordCapture | apps/api/src/services/ledger.service.ts:48-143 | Keeps the tables valid; a captured payment adds one EARNED earning of the expert, unless the report is delivered already, and touches nothing else |
| SettlementHandlers.SettlementStore.PromoteEarningsOnUnlock | apps/api/src/services/ledger.service.ts:177-202 | Keeps the tables valid; a delivery sets the deadline seven days ahead unless one is set, and puts exactly the EARNED earnings of the request on hold |
| SettlementHandlers.SettlementStore.ExecuteRefund | apps/api/src/services/refund.service.ts:65-127 | Keeps the tables valid; goes through exactly for a pending refund that the provider takes, and then reverses exactly the earnings hit whose status allows it; a refund the provider refuses is pending again and nothing has changed |
| SettlementHandlers.SettlementStore.RejectRefund | apps/api/src/controllers/admin.controller.ts:2052-2077 | Keeps the tables valid; only a pending refund is rejected, and no earning is touched |
| SettlementHandlers.SettlementStore.AcceptReport | apps/api/src/services/verificationSettlement.service.ts:85-122 | Keeps the tables valid; succeeds exactly for the buyer's own delivered report, in time, not accepted yet and with no claim OPEN or UNDER_REVIEW; exactly the held earnings of the request become available with reason BUYER_ACCEPTED; each refusal by its cause, and it changes nothing |
| SettlementHandlers.SettlementStore.CreateClaimWithFreeze | apps/api/src/services/verificationSettlement.service.ts:136-180 | Keeps the tables valid; succeeds exactly for the buyer, before the set deadline, on a delivered report not accepted and with no claim OPEN or UNDER_REVIEW; adds one open claim, freezes exactly the held earnings of the request and leaves none held; each refusal by its cause, and it changes nothing |
| SettlementHandlers.SettlementStore.ExpireClaimWindow | apps/api/src/services/verificationSettlement.service.ts:204-230 | Keeps the tables valid; releases exactly when the report is delivered and not accepted, its deadline has come, no claim is OPEN or UNDER_REVIEW and an earning is EARNED or PENDING_SETTLEMENT, and then exactly those earnings |
| SettlementHandlers.SettlementStore.ResolveClaim | apps/api/src/controllers/admin.controller.ts:3092-3175 | Keeps the tables valid; 404, 400 on a final status and 409 where a unique key refuses, each exactly; else one claim changes, one pending refund of the agreed fee is added exactly on a first approval, the frozen earnings of the request are released exactly on a rejection; every refusal changes nothing |
| SettlementHandlers.SettlementStore.RequestPayout | apps/api/src/services/payout.service.ts:88-133 | One record with the sum of exactly the expert's available earnings, which all join it as REQUESTED; refused exactly when there are none |
| SettlementHandlers.SettlementStore.ProcessPayout | apps/api/src/services/payout.service.ts:140-224 | Keeps the tables valid; succeeds exactly when the record is REQUESTED or RETRYABLE and the provider took it under an id no other record has, and it and its earnings are then PROCESSING; in any other status nothing changes; a failed send counts, and the third goes to MANUAL_REVIEW |
| SettlementHandlers.SettlementStore.InitiateExpertVerificationPayout | apps/api/src/controllers/admin.controller.ts:3743-3772 | An available earning is claimed with all others of its expert into one record that is sent at once; anything else changes nothing |
| SettlementHandlers.SettlementStore.HandlePayoutWebhookEvent | apps/api/src/services/payout.service.ts:235-304 | Keeps the tables valid; an unknown id, or a record in another status than the event needs, is ignored and changes nothing; else the record and exactly its own earnings take the status the event stands for; a second delivery changes nothing |
| SettlementHandlers.SettlementStore.ResolveManualReview | apps/api/src/controllers/admin.controller.ts:3805-3841 | Keeps the tables valid; decides exactly a record under manual review: a retry may be sent again with a fresh count, a write-off is REVERSED and may not be sent again; its earnings follow |
| SettlementHandlers.StepsAreHandlers | apps/api/src/services/ledger.service.ts:177-202 | A handler that is one step makes exactly the transition that its method is proved to make, a delivery only while no row lock is held on the request; a roll-back or a stop only ends what had begun |
| SettlementHandlers.PayoutIsARun | apps/api/src/services/payout.service.ts:100-132 | The undivided payout request equals its read step followed by its write step |
| SettlementHandlers.SendIsARun | apps/api/src/services/payout.service.ts:140-214 | The undivided send equals its read of the record followed by its write |
| SettlementHandlers.ReviewIsARun | apps/api/src/controllers/admin.controller.ts:3805-3841 | The undivided review equals its read of the record followed by its write |
| SettlementHandlers.ResolveIsARun | apps/api/src/controllers/admin.controller.ts:3101-3160 | The undivided decision equals its read of the claim followed by its transaction |
| SettlementHandlers.WebhookIsARun | apps/api/src/services/payout.service.ts:240-301 | An event handled at once equals its lookup, its record statement and its earnings statement in a row |
| SettlementHandlers.RefundIsARun | apps/api/src/services/refund.service.ts:65-127 | A refund processed at once equals its claiming of the row, its reads of the earnings, one for each payment it returns, and its write in a row |
| SettlementHandlers.FailedRefundIsUndone | apps/api/src/services/refund.service.ts:82-107 | A refund that the provider refuses leaves all tables as they were |
| SettlementSafety.StepKeepsInv | apps/api/src/services/verificationSettlement.service.ts:61-230 | Every step of every handler keeps the settlement invariant: references, release reasons, one active claim, no open claim on an accepted request, one refund per claim, what was checked under a row lock |
| ClaimResults.NeverAcceptedWithOpenClaim | apps/api/scripts/phase6-e2e.ts:641-653 | In every reachable state no request is both accepted and under an OPEN claim |
| ClaimResults.AtMostOneActiveClaim | apps/api/prisma/migrations/20260820030000_verification_marketplace_foundation/migration.sql:236-241 | In every reachable state a request has at most one OPEN or UNDER_REVIEW claim, stale resolve calls included |
| ClaimResults.RaceHasOneWinner | apps/api/scripts/phase6-e2e.ts:641-673 | Over whole runs: once an acceptance or a claim of a request has started, no acceptance, claim or sweep of it starts and its row stays as it was checked while the row lock is held; after a finished acceptance none ever starts; after a finished claim none starts before a decision has taken every claim then active on the request away |
| ClaimResults.ActiveIsLeftExactly | apps/api/src/controllers/admin.controller.ts:3101-3136 | A claim leaves OPEN and UNDER_REVIEW exactly by a decision on it, stale or not, for another status that no unique key refuses |
| ClaimResults.AcceptedOnlyByBuyerInWindow | apps/api/src/services/verificationSettlement.service.ts:85-108 | An accepted report has an acceptance of its own in the run that started by its buyer, delivered, in the window and with no active claim, held the row lock throughout and finished |
| ClaimResults.ClaimsOnlyByBuyerInWindow | apps/api/src/services/verificationSettlement.service.ts:136-158 | Every single claim, also a second one on a request, has a start of its own in the run, by the request's buyer before the deadline on a report not accepted, that held the row lock until the finish that inserted this claim |
| ClaimResults.StepKeepsTerms | apps/api/src/services/ledger.service.ts:177-187 | Buyer and fee never change, a deadline is set by the delivery only, seven days ahead, and never moves |
| ClaimResults.ReleaseIsLegitimate | apps/api/src/services/verificationSettlement.service.ts:66-78 | An earning becomes payable only by acceptance or sweep of a request without any claim, or by a rejection if frozen; the reason names the cause and is its first |
| ClaimResults.ReasonTellsTheCause | apps/api/src/services/verificationSettlement.service.ts:66-78 | In every reachable state a release reason is true: some step of the run released the earning, and it is the acceptance, sweep or rejection named, under the conditions above |
| ClaimResults.ReleasedInTime | apps/api/src/services/verificationSettlement.service.ts:204-230 | In every reachable state: an earning released for an expired window goes back to a sweep of its request that started at or after the deadline, on a delivered report not accepted and with no active claim, and held the row lock to its finish; one released for acceptance to such an acceptance in the window |
| ClaimResults.ReasonIsKept | apps/api/scripts/phase6-e2e.ts:655-662 | A release reason is never overwritten and the earning is not released again |
| ClaimResults.ReleasedAtMostOnce | apps/api/scripts/phase6-e2e.ts:485-505 | Over every interleaving each earning is released at most once |
| ClaimResults.FrozenIsReleasedExactlyByRejection | apps/api/src/services/verificationSettlement.service.ts:182-196 | A frozen earning becomes payable exactly when some claim on its request is rejected |
| ClaimResults.OneRefundPerClaim | apps/api/src/controllers/admin.controller.ts:3107-3157 | In every reachable state a claim has at most one refund, its amount is the agreed fee or 0, and an approved claim has one |
| ClaimResults.LosingApprovalChangesNothing | apps/api/src/controllers/admin.controller.ts:3126-3175 | A call losing on the unique claim key leaves all tables as they were; a winning one adds exactly one refund and moves no earning |
| ClaimResults.FinalStatusesAbsorb | apps/api/src/controllers/admin.controller.ts:3101-3162 | With undivided resolve calls final statuses absorb, `resolvedAt` is set exactly in these, and the release on rejection runs exactly once per rejected claim |
| ClaimResults.StaleResolveOverwrites | apps/api/src/controllers/admin.controller.ts:3096-3136 | Exactly when a resolve call that read the claim earlier overwrites a final status, and when `resolvedAt` stops telling the truth |
| ClaimResults.StaleResolveReopensRejectedClaim | apps/api/src/controllers/admin.controller.ts:3112-3121 | A run that takes a REJECTED claim back to UNDER_REVIEW |
| ClaimResults.AcceptedRequestMayHaveClaimUnderReview | apps/api/src/controllers/admin.controller.ts:3101-3136 | A run to an accepted request whose claim is under review |
| ClaimResults.SecondClaimReleasesUnderPendingRefund | apps/api/scripts/phase6-e2e.ts:482-483 | A run that releases frozen earnings while a refund is pending |
| PayoutResults.RecordTotalsAreSums | apps/api/src/services/payout.service.ts:100-132 | In every reachable state a record's total is the sum of the paise of its earnings, all of one expert |
| PayoutResults.EarningJoinsOneRecord | apps/api/src/services/payout.service.ts:79-87 | An earning that joined a record stays in that one |
| PayoutResults.ConcurrentPayoutsOneWins | apps/api/scripts/phase6-e2e.ts:675-683 | Of two requests in flight that read a common earning the first to write gets its record, the other changes nothing |
| PayoutResults.LaterPayoutOfJoinedEarningFails | apps/api/src/services/payout.service.ts:116-125 | A payout request that read an earning joined meanwhile changes nothing, however much later it writes |
| PayoutResults.ClaimedEarningIsNeverAvailableAgain | apps/api/src/services/payout.service.ts:101-118 | A claimed earning is never available again, so no later request can pick it up |
| PayoutResults.PaiseAreConserved | apps/api/src/services/ledger.service.ts:132-143 | In every reachable state the earnings sum to those at the start plus what was captured |
| PayoutStatus.AgreementKeptExactly | apps/api/src/services/payout.service.ts:178-301 | Every step, divided as in the code, keeps record and earning statuses in agreement up to follow-up statements still to come, except exactly: a refund reversing an earning, as it read it or as it is, whose record is not REVERSED; an event's earnings statement after its record moved on; and an event's handler that stops before that statement |
| PayoutStatus.StatusesAgreeAlongRuns | apps/api/src/services/payout.service.ts:247-298 | After every run without such a step statuses agree whenever no event is between its two statements |
| PayoutStatus.ProcessingOnlyBySend | apps/api/src/services/payout.service.ts:140-195 | A record enters PROCESSING, or takes a payout id, exactly by a send the provider took, undivided or resumed, that finds it REQUESTED or RETRYABLE when it writes |
| PayoutStatus.ProcessingWasSent | apps/api/src/services/payout.service.ts:178-195 | Over every interleaving a record that is PROCESSING, unless it was at first, was sent at some step of the run, and was REQUESTED or RETRYABLE when that was written |
| PayoutStatus.IdsStayUnique | apps/api/prisma/schema.prisma:1636 | Along every run no two payout records have the same payout id, so an event names one record at most |
| PayoutStatus.PaidOnlyByWebhook | apps/api/src/services/payout.service.ts:227-258 | A record enters PAID exactly by the provider's confirmation reaching it, at once or by a delivery looked up earlier, while PROCESSING |
| PayoutStatus.PaidWasConfirmed | apps/api/src/services/payout.service.ts:240-251 | Over every interleaving a PAID record was confirmed at some step of the run, while PROCESSING, by a delivery for a payout id the record then had |
| PayoutStatus.PaidIsLeftExactly | apps/api/src/services/payout.service.ts:200-214 | A record leaves PAID exactly by a reversal event or by a send or review that read it earlier |
| PayoutStatus.ReversedIsLeftOnlyByStaleWrite | apps/api/src/controllers/admin.controller.ts:3819-3841 | A record leaves REVERSED only by a send or review that read it earlier |
| PayoutStatus.PaidAndReversedAreFinal | apps/api/src/services/payout.service.ts:289-301 | With undivided sends and reviews, events divided or not, PAID only ever becomes REVERSED, and REVERSED stays |
| PayoutRetries.RetriesAreCapped | apps/api/src/services/payout.service.ts:204-214 | Over every run without a step that breaks the cap a record is in MANUAL_REVIEW exactly at three failed sends and is never sent beyond |
| PayoutRetries.CapKeptExactly | apps/api/src/services/payout.service.ts:200-214 | Every step, divided or not, keeps the cap, except exactly: a failed send whose read count and whose row's count disagree about the cap or whose row is at it, a write-off putting back a count above it, and a failure event judged at the cap |
| PayoutRetries.UndividedSendsAreCapped | apps/api/src/services/payout.service.ts:200-214 | With undivided sends and reviews the cap holds in every run, however events are divided |
| PayoutRetries.RetriesCountFailures | apps/api/src/services/payout.service.ts:206-209 | Along every run the stored count is the number of failed sends since the last reset, as long as no write-off puts back a count read before it changed |
| PayoutRetries.CountMovesExactly | apps/api/src/controllers/admin.controller.ts:3826-3832 | The stored count moves with every failed send and every reset, except exactly on such a write-off |
| PayoutRetries.ReportedFailuresAreNotCapped | apps/api/src/services/payout.service.ts:260-287 | While the retry cap of undivided handlers holds, a provider-reported failure always leaves a PROCESSING record RETRYABLE with its count unchanged, never in MANUAL_REVIEW |
| PayoutSamples.SlowSendUndoesPaid | apps/api/src/services/payout.service.ts:178-214 | A run in which a slow second send takes a PAID record back to RETRYABLE |
| PayoutSamples.RefundedEarningIsStillPaid | apps/api/src/services/ledger.service.ts:353-366 | A run in which a reversed earning is paid out in full |
| PayoutSamples.LateReversalOfPaidEarning | apps/api/src/services/ledger.service.ts:300-366 | A run in which a refund reads an earning as RETRYABLE and writes REVERSED after it has been paid; the record stays PAID |
| PayoutSamples.LateReversalOfRequestedEarning | apps/api/src/services/ledger.service.ts:300-366 | A run in which a refund reads an earning as available and writes REVERSED after it has joined a payout record |
| PayoutSamples.OvertakenConfirmationStays | apps/api/src/services/payout.service.ts:247-298 | A run in which a reversal between the two statements of a confirmation leaves the record REVERSED and its earning PAID; delivering either event again changes nothing |
| PayoutSamples.AbandonedConfirmationStays | apps/api/src/services/payout.service.ts:247-255 | A run in which a handler stops between the two statements: record PAID, earning PROCESSING, and redelivery is ignored |
| PayoutSamples.ConcurrentSendsMissTheCap | apps/api/src/services/payout.service.ts:140-214 | A run in which two failing sends leave a record RETRYABLE with three failed attempts |
| LedgerReversal.RecordReversalForRefund | apps/api/src/services/ledger.service.ts:276-390 | The loop: only open payments that have an order are reversed, oldest first; a payment is closed exactly when reversed in full; commission and earning parts are the rounded shares; the entries and the remainder make up the refund |
| LedgerReversal.RefundIsSplit | apps/api/src/services/ledger.service.ts:284-290 | Reversed amounts and remainder make up the refund; something remains only when every open payment is used up |
| LedgerReversal.OldestFirst | apps/api/src/services/ledger.service.ts:279-288 | A payment is touched only after all earlier open ones are reversed in full |
| LedgerReversal.ShareIsRounded | apps/api/src/services/ledger.service.ts:306-322 | A part of a reversal is its exact share rounded to the nearest paisa, halves up |
| LedgerReversal.PartsAddUpExactly | apps/api/src/services/ledger.service.ts:288-322 | Commission and earning parts add up to the reversed amount, except for one paisa exactly on half paise; a full reversal always adds up |
| LedgerReversal.OpenAmountIsRightExactly | apps/api/src/services/ledger.service.ts:386-389 | The payments left open are worth what was open less what was reversed, if and only if the refund covers all that is open or is the sum of the oldest few open payments |
| LedgerReversal.RefundsConserveExactly | apps/api/src/services/ledger.service.ts:276-390 | Over any list of refunds processed one after the other: reversed and still open make up what was open at first if and only if every refund lands on such a boundary, and are more otherwise; then no more is reversed than was open |
| LedgerReversal.TwoPartialRefundsReverseTooMuch | apps/api/src/services/ledger.service.ts:386-389 | Two refunds of 60 against one payment of 100 reverse 120 |
| RefundOverlap.LateWriteConservesExactly | apps/api/src/services/ledger.service.ts:279-389 | A refund writing on payments it read earlier: reversed and still open are never less than what was open, and equal it if and only if the refund ends on a boundary of what it read and every payment it reaches is still open |
| RefundOverlap.OverlapsConserveExactly | apps/api/src/services/ledger.service.ts:276-390 | Over every interleaving of any number of refunds of one request the sum is kept exactly when every refund lands in this way, and then no more is reversed than was open |
| RefundOverlap.AloneIsSerial | apps/api/src/services/ledger.service.ts:276-390 | A refund with nothing between its read and its write is one of a list processed one after the other |
| RefundOverlap.TwoFullRefundsReverseTwice | apps/api/src/services/ledger.service.ts:279-289 | Two refunds of 100 that both read one open payment of 100 reverse 200, though one after the other they land |
| RefundResults.RefundCommitsOnce | apps/api/src/services/refund.service.ts:61-127 | Along every run, with any number of handlers on the same refund, at most one is in flight and the ledger transaction commits at most once; if none stops half-way, it has committed exactly when the refund ends processed and idle |
| RefundResults.ReversedExactlyIfReached | apps/api/src/services/ledger.service.ts:284-365 | The earning behind an open payment is reversed exactly when its status allows it and the refund exceeds what the older open payments are worth |
| RefundResults.FullRefundLeavesNothingPayable | apps/api/src/services/ledger.service.ts:276-390 | A refund of all that is open on a request leaves none of its earnings held, frozen or available |
| TtlCaching.TtlCache.Get | apps/api/src/lib/cache.ts:23-33 | A live entry is answered and kept, an expired one dropped and not answered, an absent key changes nothing |
| TtlCaching.TtlCache.Set | apps/api/src/lib/cache.ts:35-44 | A present key gets value and expiry in place; a new one goes to the end, after the first entry has gone if the cache is full; the size bound |
| TtlCaching.ReplayInv | apps/api/src/lib/cache.ts:35-44 | After every history keys are distinct, the size is within the bound (one for a bound of zero), and every entry is the last value set for its key |
| TtlCaching.GetIsLastPut | apps/api/src/lib/cache.ts:23-33 | Get answers only the last value set for the key, set less than ttl ago, for any clock |
| TtlCaching.EvictsClosestToExpiry | apps/api/src/lib/cache.ts:36-42 | With sets only after misses insertion order is expiry order and the entry evicted is closest to expiry |
| TtlCaching.MissedOnlyUnderPressure | apps/api/src/lib/cache.ts:36-43 | A value set less than ttl ago is missing only if at least maxEntries distinct other keys were set since |
| TtlCaching.ResetKeepsOrderExactly | apps/api/src/lib/cache.ts:43 | Exactly when setting a present key keeps the order by expiry |
| TtlCaching.ResetValueEvictedEarly | apps/api/src/lib/cache.ts:35-44 | A history in which a value set again is evicted one millisecond later |
| FreeCheck.FreeCaseCheck | apps/api/src/controllers/property.controller.ts:381-424 | Reply and cache after a check, for every query and cache content; refused exactly without any field; on a miss the answer is the first approved listing whose field of the query's kind contains the text up to case, none exactly when there is none, and it is stored for 60 s |
| FreeCheck.LookupAnswers | apps/api/src/controllers/property.controller.ts:400-410 | For every database and query the lookup finds the first approved row whose field chosen by the query contains the text somewhere, letter by letter up to case, and nothing exactly when no row does |
| FreeCheck.AnswerIsUnique | apps/api/src/controllers/property.controller.ts:400-410 | A database and a query have one answer in this sense, so the lookup cannot give another |
| FreeCheck.CacheKeyDetermines | apps/api/src/controllers/property.controller.ts:367-371 | Two queries share a key exactly when they are of the same kind and their trimmed texts agree up to case |
| FreeCheck.TrimCutsSpaces | apps/api/src/controllers/property.controller.ts:367-371 | Trimming cuts white space off both ends, nothing else, and leaves none there |
| FreeCheck.HitIsRecentAnswer | apps/api/src/controllers/property.controller.ts:392-410 | A cached answer is what the database gave less than 60 s ago to a query of the same kind with the same key: the first row that fitted it, or none if none did; without outer white space, to this very query |
| FreeCheck.TrimmingIsHarmlessExactly | apps/api/src/controllers/property.controller.ts:367-410 | Trimming changes no answer of any database exactly when there is nothing to trim |
| FreeCheck.ChecksSetOnlyAfterMisses | apps/api/src/controllers/property.controller.ts:393-424 | Checks served one after the other set a key only after a miss, and the cache after them is the one after their gets and sets |
| FreeCheck.EventsInOrder | apps/api/src/controllers/property.controller.ts:393-424 | If check times never go back, neither does the clock of their gets and sets, so the cache results apply to them |
| FreeCheck.RepeatedCheckIsHit | apps/api/src/controllers/property.controller.ts:360-397 | A check repeated less than 60 s after its answer was stored is a hit unless at least 5000 other keys were stored since |
| FreeCheck.CacheStaysInExpiryOrder | apps/api/src/controllers/property.controller.ts:360-397 | The check's cache stays within 5000 entries in the order of expiry, so the entry evicted is closest to expiry |
| FeedMerge.FeedIsFirstPage | apps/api/src/controllers/property.controller.ts:638-751 | The limited fetches merged, sorted and cut equal the first page of the full merge, ties included |
| FeedMerge.StableSortUnique | apps/api/src/controllers/property.controller.ts:749-751 | Two lists sorted newest first that agree on the order within every creation time are the same list: the stable sort has one result |
| Hydration.HydrationRestoresRank | apps/api/src/controllers/property.controller.ts:215-233 | Exactly the ranked ids still approved, each with its own row, in rank order, without duplicates, whatever order the second query uses |
| Hydration.EngagedKeepOrderExactly | apps/api/src/controllers/property.controller.ts:892-895 | The page shows the visible engaged items in engagement order if and only if no visible one shares its id with an engagement in another table |
| Hydration.SharedIdConfuses | apps/api/src/controllers/property.controller.ts:892-895 | A page on which a post taken down shows as the listing with the same id |
| Shuffling.Shuffle | apps/api/src/controllers/admin.controller.ts:2483-2487 | The in-place countdown loop computes the shuffle of its input by the drawn indices |
| Shuffling.ShuffleIsBijective | apps/api/src/controllers/admin.controller.ts:2483-2487 | For every length: every result permutes the input, every permutation is reached, and on distinct items different draws give different results |
| Shuffling.GenerateTemporaryPassword | apps/api/src/controllers/admin.controller.ts:2475-2489 | Always 12 characters, at least one letter and one digit, none of the easily confused ones; a rearrangement of exactly the twelve characters drawn |
| Shuffling.CharsetsExactly | apps/api/src/controllers/admin.controller.ts:2476-2478 | A character may be drawn exactly when it is a letter or digit other than I, O, l, o, 0 and 1 |
| Paging.ParsePaging | apps/api/src/controllers/admin.controller.ts:4199-4203 | Page at least 1 and limit 1 to 100 whatever was sent; values in range are kept, an unreadable page is 1 and limit 20, a larger limit 100 |
| Paging.PagesRebuildTheList | apps/api/src/controllers/admin.controller.ts:4189-4197 | Pages 1..totalPages rebuild the list, all but the last are full, a page is non-empty exactly within totalPages, which is at least 1 |
| OwnerProperties.PlanUpdate | apps/api/src/controllers/property-owner.controller.ts:188-264 | An edit is refused exactly when it breaks one of three rules; an accepted one stores exactly the status and dispute type sent, or keeps the row's, leaves exactly the named ownership document beside the others sent or stored, keeps coordinates not sent, and keeps a good row good |
| OwnerProperties.CreateProperty | apps/api/src/controllers/property-owner.controller.ts:45-137 | A create is refused exactly without title, area, status with the dispute type it asks for, a coordinate, or one https ownership document; else the row holds exactly what was sent and is published at once |
| OwnerProperties.CreateEnds | apps/api/src/controllers/property-owner.controller.ts:45-137 | On every run: an accepted create adds one row, holding what was sent and visible; any other changes nothing |
| OwnerProperties.EditEnds | apps/api/src/controllers/property-owner.controller.ts:144-264 | On every run, with any steps between its read and its write: an edit of the caller's own row that breaks none of the rules writes exactly what was sent, and what the row it read had where nothing was sent, over owner and status as they are by then; any other edit changes nothing |
| OwnerProperties.HttpsExactly | apps/api/src/controllers/property-owner.controller.ts:37 | An address passes exactly when it begins with https:// in any mix of case |
| OwnerProperties.ReplaceOwnership | apps/api/src/controllers/property-owner.controller.ts:230-239 | Replacing the ownership document leaves exactly the new one, whatever was stored |
| OwnerProperties.PropertiesStayOk | apps/api/src/controllers/property-owner.controller.ts:45-267 | Every interleaving keeps both coordinates, exactly one https ownership document, the health of the stored document count and a consistent classification |
| OwnerProperties.RowIsLastWritten | apps/api/src/controllers/property-owner.controller.ts:241-264 | Over every interleaving a row's fields are those of the last create or edit committed on it, whatever moderation did since |
| OwnerProperties.ClassificationWasSent | apps/api/src/lib/propertyClassification.ts:22-36 | Over every interleaving each stored classification is exactly one that a create or an accepted edit of this row sent |
| OwnerProperties.ReapprovalNeedsReview | apps/api/src/controllers/admin.controller.ts:929-938 | A property not approved is approved again only by a later approval that found it PENDING |
| OwnerProperties.DeletedIsLeftExactlyByStaleSuspension | apps/api/src/controllers/admin.controller.ts:1073-1083 | DELETED is left exactly by a suspension that read the status before |
| OwnerProperties.DeletedIsFinal | apps/api/src/controllers/admin.controller.ts:1078-1083 | With undivided suspensions a deleted property stays deleted through any edits |
| OwnerProperties.StaleSuspensionRevivesDeleted | apps/api/src/controllers/admin.controller.ts:1064-1106 | A run that makes a deleted property visible to buyers again |
| WeeklySettlement.GetSettlements | apps/api/src/controllers/earnings.controller.ts:288-307 | One entry per week that has purchases, with that week's amount and count, latest week first |
| WeeklySettlement.HistoryConserves | apps/api/src/controllers/earnings.controller.ts:302-303 | Amounts and counts of all entries sum to the totals over all settled purchases |
| WeeklySettlement.EachPurchaseInOneBucket | apps/api/src/controllers/earnings.controller.ts:291-300 | Every settled purchase falls in exactly one entry, that of the week of its settlement day, or of its creation day when it has none |
| WeeklySettlement.WeekKeyIsMonday | apps/api/src/controllers/earnings.controller.ts:294-297 | A key is a Monday from 5 days before to 1 day after the date, and two dates share it exactly when they lie in one Sunday-to-Saturday week |
| WeeklySettlement.WeekStartsTomorrowExactlyOnSunday | apps/api/src/controllers/earnings.controller.ts:31-34 | The start of "this week" lies in the future exactly on Sundays |
| WeeklySettlement.NextPayoutIsNextMonday | apps/api/src/controllers/earnings.controller.ts:111-114 | The next payout falls on the first Monday strictly after today |

## Left out

- Outside services: the payment provider, image host and file store appear as inputs (whether a transfer or fetch succeeds, which id comes back). Clock readings and random indices are inputs too.
- Which earnings lie behind the payments a refund returns is an arbitrary set in the step system; `RefundResults` takes it from the payments for refunds processed at once.
- PayoutStatus.AgreementKeptExactly: does not model the row lock that a refund of several payments holds on an earning it has written while it reads the next; all its writes show when it commits, so such a refund interleaves a little more freely than the database allows.
- Bank-account and eligibility checks before a payout, and the refusal when transfers would go by another route: refusals that change nothing.
- Requests for reports whose status later leaves REPORT_UNLOCKED, and cancellation with its fee split.
- The status FAILED is listed among reversible earnings, but no code assigns it.
- LedgerReversal.PartsAddUpExactly: does not model floating point; the fraction is taken exactly and only the final rounding is modelled. A payment whose ledger entries are missing, and the issue rows written for paid or in-flight earnings, are left out.
- FreeCheck.HitIsRecentAnswer: does not model case folding beyond ASCII letters, nor query parameters sent as arrays.
- FreeCheck.ChecksSetOnlyAfterMisses: does not cover checks that overlap in time, where two may miss before either sets.
- FeedMerge.FeedIsFirstPage: does not model rows of equal time coming in different orders from the limited and the full query; each table has one order.
- The built-in sort is its specification (sorted and stable), and in the settlement history an insertion by distinct weeks.
- WeeklySettlement.GetSettlements: does not model `toFixed`, time zones or daylight saving; amounts are whole paise.
- OwnerProperties.PropertiesStayOk: does not model rows from before the current rules (missing coordinates, plain-URL documents); title, area, place and media fields take no part in any rule here. Dispute types beyond their presence are not told apart.
- View counters, engagement counts, formatting, notifications, audit rows and analytics.
- Listing moderation, sign-in, identity checks and password reset; report access and advertising.
