# Verification of the escrow marketplace server

A Dafny model of the parts of the Go server that must stay right under concurrent callers, crashes,
redelivered events and arbitrary table contents, with proofs of what they promise. `dafny verify
dfyconfig.toml` checks the whole project.

* **Sealed-bid auction.** `Auction` has the rows and transactions, `AuctionStore` the same transactions
  statement by statement on mutable tables, `AuctionRuns` every interleaving of the service's calls:
  only the bid that the selection rule puts first among the bids eligible at finalization can be accepted.
  `AuctionSelection` says in the columns of the rows who is eligible and who comes first, `AuctionResults` what each
  transaction leaves in the rows, and `AuctionAdmission` exactly when a call that nobody interrupts goes through.
  `AuctionBidders` says exactly which runs give a bidder more than one live commit or bid, `AuctionStrikes` what
  strike counts stand for. `AuctionSends` has the escrows that accepting calls create on the chain and which of them
  are kept, `AuctionResends` exactly when another can follow, `AuctionSerialAccepts` a rule for callers that rules it
  out; `AuctionLateRun` and `AuctionDoubleSend` are single runs. `Commitment` has the commitment that binds a reveal
  to its commit.
* **Idempotency in UCP.** `KeyLock` is the reference-counted lock per key and the recorded response, as
  steps of any number of callers; `KeyLockAnswers` says what each of them answers, `KeyLockProgress` that they all return; `IdempotencyGuard` is the lock over
  its mutable entries.
* **Creating an escrow.** `CreateEscrow` is the intent-keyed, crash-tolerant protocol as steps of callers that
  may crash anywhere, with the indexer that inserts escrows it sees on the chain; `CreateEscrowStore` its statements,
  retry loop and milestone loop on mutable rows. `CreateEscrowSteps` has what single steps leave alone,
  `CreateEscrowOutcomes` what each step makes of a row and exactly which steps end a call.
  `CreateEscrowRecovery` says exactly which steps abandon a row, `CreateEscrowRetries` when a row is past recovery,
  `CreateEscrowUnderway` exactly when a call under way or a new one can still succeed; `CreateEscrowRuns` has single
  runs.
* **Delegation tokens.** `Dct` walks lineages over any token table, gaps and cycles included; `DctStore` mints,
  delegates and revokes; `DctRuns` follows tokens over whole runs. `DctRows` says column by column which tokens are
  issued for exactly which requests, `DctReasons` what each reason of an introspection means.
* **Attestation chains.** `Attestation` is the three-colour search for cycles, `AttestationChain` the
  validation of a set of links.
* **Decompositions.** `Decomposition` turns a proposal into nodes, `DecompositionRequests` says so in the fields of the
  request; `Finalization` turns leaves into RFQs,
  `FinalizationRuns` follows concurrent finalizations.
* **Bookkeeping.** `Indexer` has the log chunks and the cursor, `Reputation` the counters and damped counts,
  `EventBus` the buffer of recent events and its paging.

`Common`, `Sorting` and `Text` are shared helpers.

Conventions. A database statement or transaction is atomic. A protocol is a step function over a state that
holds the rows and, for each caller, where it is; `Exec` runs any schedule of steps, and a step that is not
enabled changes nothing, so a statement about all schedules is one about all interleavings. Calls outside the
server (the chain, random ids, the clock, credential and signature checks, whether a statement fails) are
arguments of the steps. Digests are injective: the digested text stands for the digest, or the hash is a
parameter. Where a loop or an object is updated in place the model is a method over a mutable class, proved
equal to the function that the theorems are about.

What the proofs found, the code being modelled as it is:

* A row of CreateEscrow can be left "submitting" with no caller to go on with it, and then no retry ever succeeds
  (`RetriesCannotRecover`). A crash of the claimant does this, but so do, without any crash, a reset that fails after
  a failed chain call, a claim that takes effect while its reply is an error, and a hash that cannot be stored;
  nothing else does (`StepAbandonsExactly`, `FailedResetAbandons`, `CrashAfterSendingStrands`).
* When the indexer sees EscrowCreated before the caller finalizes, it stores the address in a row of its own, and
  the unique index on the address then refuses every finalization (`IndexerFirstStrands`). When a retry can still
  succeed is an if-and-only-if (`RetryCanSucceedExactly`).
* CommitBid reads the clock before its transaction. An insert that lands after the bidder has already revealed
  gives the bidder a second live commit while the first is still "revealed", and a second bid once that is revealed
  too (`LateInsertAllowsSecondBid`). A run keeps one live commit per bidder throughout exactly when no insert in it
  lands beside a commit that is still "revealed" (`OneLiveCommitExactly`); one live commit, one bid, and no open
  commit beside a bid exactly when no insert lands after a reveal (`OneEachExactly`); and one bid per bidder exactly
  when no second reveal succeeds (`OneBidExactly`).
* AcceptBid creates its escrow on the chain before its transaction, so several can be created for one bid: by
  concurrent accepts (`TwoAcceptsSendTwice`), and also one after the other, when an accept fails after its chain call
  and is tried again (`RetriedAcceptSendsTwice`). Another escrow can follow exactly when a call stands at its chain
  call, or the tests that a call still has ahead of it, or those of a new call, pass (`AnotherSendExactly`). Once the
  bid is accepted, only a call that already stands there can add one (`AfterAcceptanceExactly`). Accepts that run one
  at a time and do not fail after the chain call create one (`SerialAcceptsSendOnce`). The accepted bids are exactly
  the bids of the escrows that are kept (`AcceptedBidsAreKeptSends`).
* A mint that passed its checks before a freeze and is inserted after it is not revoked by the freeze, and its
  token is active once the escrow is thawed (`MintInFlightEscapesFreeze`). Unexpired mints in flight are exactly what
  the sweeps miss (`SweepMissesExactlyPendingMints`). Everything that was in the table, and everything delegated from
  it, stays inactive (`SweptTokensNeverReturn`).
* The commitment binds every term whatever the nonce; of the nonce and the salt it binds the two joined by the
  separator, so a separator can stand in either (`CommitmentBinds`, `NonceAndSaltCanTrade`, `OnePairCollides`).
* The root hash of an attestation chain binds its messages as long as none has a line break (`RootHashBinds`); with
  one, a link can stand for two (`OneMessageCanStandForTwo`).
* Log chunks tile their range exactly when no step of the loop wraps around 64 bits (`RequestsTileExactly`); a scan
  that ends has covered its range even where it wrapped (`CompleteScanCovers`), and one up to the largest block never
  ends (`LastBlockIsNeverDone`).

## Model

| member | source | states |
|---|---|---|
| `Auction.BestExists` | go-server/internal/bidding/bidding.go:193-206 | Every non-empty ballot has a bid that comes strictly before all others |
| `Auction.WinnerIsUnique` | go-server/internal/bidding/bidding.go:193-206 | A ballot has one winner under amount, duration, commit time, bid id, whatever order the rows are listed in |
| `AuctionSelection.BallotIsWhoStands` | go-server/internal/bidding/bidding.go:255-309 | A bid is on the ballot, with the columns of its row and the creation time of its commit, if and only if it is a pending, unexpired bid of the RFQ with a revealed commit of its own |
| `AuctionSelection.WinnerIsFirstChoice` | go-server/internal/bidding/bidding.go:193-309 | The winner of a ballot is a bid that stands and precedes every other bid that stands: smaller amount, else shorter duration, else earlier commit, else smaller id; no winner means that no bid stands |
| `AuctionSelection.FinalizationChooses` | go-server/internal/bidding/bidding.go:311-417 | A finalization that goes through names that bid, or none, and changes no other column of the RFQ but its sealing state and the time |
| `AuctionStore.Store.EligibleCandidates` | go-server/internal/bidding/bidding.go:255-309 | The loop over the bids returns exactly the ballot of eligible bids, each before the next by amount, duration, commit time and id |
| `AuctionStore.Store.UpsertDiscipline` | go-server/internal/storage/queries.go:2194-2217 | One more strike, and the later of the old and the new cooldown |
| `AuctionStore.Store.CollectCooldowns` | go-server/internal/bidding/bidding.go:370-406 | Each bidder with an unrevealed commit gets one cooldown, computed from the new strike count |
| `AuctionStore.Store.FinalizeSealedBidding` | go-server/internal/bidding/bidding.go:311-417 | The statements of finalization leave exactly the tables of the finalizing transaction and report as best the first choice among the bids that stand, spelled out in the rows |
| `AuctionStore.Store.CommitBid` | go-server/internal/bidding/bidding.go:809-946 | Cooldown test, superseding and insert leave exactly the tables of the commit transaction |
| `AuctionStore.Store.RevealBid` | go-server/internal/bidding/bidding.go:948-1101 | The bid is inserted and linked, or nothing is, when the commit is no longer "committed" |
| `AuctionStore.Store.AcceptBid` | go-server/internal/bidding/bidding.go:1105-1360 | The five statements of acceptance happen together or not at all, as the accepting transaction says |
| `AuctionRuns.OnlyTheBestBidIsAccepted` | go-server/internal/bidding/bidding.go:1105-1156 | In every interleaving each accepted bid of a sealed RFQ is the named best bid, the unique minimum of the ballot counted at finalization |
| `AuctionResults.AcceptedBidCameFirst` | go-server/internal/bidding/bidding.go:1105-1156 | In every run an accepted bid of a sealed RFQ stood, at a finalization after the reveal deadline, and came before every other bid that stood there, in the columns of the rows |
| `AuctionRuns.AtMostOneBidIsAccepted` | go-server/internal/bidding/bidding.go:1341-1360 | In every interleaving at most one bid of a sealed RFQ is accepted |
| `AuctionRuns.ResultIsWrittenOnce` | go-server/internal/storage/queries.go:946-976 | Once final, the result of an RFQ and its ballot never change over any further run |
| `AuctionRuns.BallotIsTakenAfterReveals` | go-server/internal/bidding/bidding.go:311-348 | A ballot is counted only by a finalization of its RFQ, from the state it reads and by its own clock reading, which is after the reveal deadline |
| `AuctionRuns.FinalizationStrikes` | go-server/internal/bidding/bidding.go:370-406 | Each bidder with a commit still "committed" gets one strike and a cooldown of the later of the old one and the reading plus the duration for the new count; nobody else's record changes |
| `AuctionResults.FinalizationDisciplines` | go-server/internal/bidding/bidding.go:319-406 | The same with the durations spelled out: fifteen minutes at the first strike, six hours at the second, a day from the third on |
| `AuctionResults.CommitStores` | go-server/internal/bidding/bidding.go:862-946 | A commit is stored if and only if no cooldown runs and neither its nonce nor its commitment was used before by the bidder there; it has the columns of the request, and the bidder's open commits are superseded |
| `AuctionResults.RevealStores` | go-server/internal/bidding/bidding.go:948-1101 | A reveal stores one pending bid with the offer's columns and links its commit to it if and only if the commit is still "committed" |
| `AuctionResults.AcceptSettles` | go-server/internal/bidding/bidding.go:1341-1360 | An acceptance leaves the bid accepted, every other pending bid of the RFQ rejected, its commit won and the other live ones lost, and the RFQ closed, or changes nothing |
| `AuctionAdmission.RfqIsCreated` | go-server/internal/bidding/bidding.go:500-520 | An RFQ is stored if and only if it is open, without a result, and its deadlines lie ahead in order |
| `AuctionAdmission.CommitAlone` | go-server/internal/bidding/bidding.go:809-946 | A commit call that nobody interrupts stores a commit if and only if the RFQ is open, its commit deadline ahead, the bidder not the buyer, no cooldown runs and nonce and commitment are unused |
| `AuctionAdmission.RevealAlone` | go-server/internal/bidding/bidding.go:948-1075 | A reveal call that nobody interrupts stores a bid if and only if the commitment checks out, the phase is right, the commit is the bidder's own open one, and amount, duration and expiry are within the RFQ's |
| `AuctionAdmission.FinalizeAlone` | go-server/internal/bidding/bidding.go:319-348 | A finalization that nobody interrupts goes through if and only if the RFQ is sealed and open and its reveal deadline has passed |
| `AuctionAdmission.CancelAlone` | go-server/internal/api/handlers.go:1365-1405 | A cancellation that nobody interrupts leaves no pending bid and no live commit |
| `AuctionAdmission.BidsAreAdmitted` | go-server/internal/bidding/bidding.go:1010-1038 | In every run each stored bid is within the budget, of a positive amount, expires by the deadline, and is not the buyer's own |
| `AuctionAdmission.CommitKeysAreUnique` | go-server/internal/storage/queries.go:1800-1818 | In every run a bidder's commits in an RFQ differ in nonce and in commitment |
| `AuctionStrikes.StrikesCountRfqs` | go-server/internal/bidding/bidding.go:370-406 | In every interleaving a bidder's strike count is the number of RFQs whose finalization found the bidder unrevealed: one for each, however many commits or attempts |
| `AuctionStrikes.RefinalizingChangesNothing` | go-server/internal/bidding/bidding.go:319-348 | Once an RFQ is final, finalizing it again at any later state of any run changes nothing |
| `AuctionRuns.DisciplineNeverRelaxes` | go-server/internal/bidding/bidding.go:92-101 | Strike counts and cooldowns never decrease over a run |
| `AuctionRuns.NoCommitDuringCooldown` | go-server/internal/bidding/bidding.go:208-231 | No sealed commit is created while its bidder's cooldown runs, in every interleaving |
| `AuctionBidders.OneLiveCommitExactly` | go-server/internal/bidding/bidding.go:862-946 | In every run each prefix leaves each bidder at most one live commit in an RFQ if and only if no insert succeeds beside a commit of that bidder that is still "revealed" |
| `AuctionBidders.OneEachExactly` | go-server/internal/bidding/bidding.go:862-946 | In every run each prefix leaves each bidder at most one live commit and one bid in an RFQ, and no open commit beside a bid, if and only if no insert succeeds for a bidder who has already revealed there |
| `AuctionBidders.OneBidExactly` | go-server/internal/bidding/bidding.go:948-1101 | At the end of any run each bidder has at most one bid in an RFQ if and only if no reveal succeeded for a bidder who already had one |
| `AuctionBidders.OneCommitAndOneBidEach` | go-server/internal/bidding/bidding.go:809-946 | Runs whose inserts land before the commit deadline never do that: one live commit and one bid ever per bidder |
| `AuctionRuns.RevealedCommitsHaveOwnBids` | go-server/internal/storage/queries.go:1975-1987 | In every run distinct revealed commits point to distinct bids |
| `AuctionBidders.InsertKeepsOneEachExactly` | go-server/internal/bidding/bidding.go:862-946 | A successful insert keeps one live commit and one bid per bidder, and no open commit beside a bid, if and only if its bidder has no bid in the RFQ |
| `AuctionBidders.InsertKeepsOneLiveCommitExactly` | go-server/internal/bidding/bidding.go:862-946 | A successful insert keeps one live commit per bidder if and only if the bidder has not revealed yet |
| `AuctionLateRun.LateInsertAllowsSecondBid` | go-server/internal/bidding/bidding.go:809-946 | A run of ten steps from the start in which a late insert gives one bidder two bids |
| `AuctionSends.SendsAreForTheBestBid` | go-server/internal/bidding/bidding.go:1105-1268 | In every interleaving each escrow created on the chain for a sealed RFQ is for its best bid, and each accepting call creates at most one |
| `AuctionSends.AcceptedBidsAreKeptSends` | go-server/internal/bidding/bidding.go:1276-1360 | In every interleaving a bid is accepted if and only if a kept escrow was sent for it, one whose own call accepted the bid in its transaction, and then exactly one |
| `AuctionSends.AtMostOneSendIsKept` | go-server/internal/bidding/bidding.go:1276-1360 | Of all the escrows sent for a sealed RFQ at most one is kept by the call that sent it |
| `AuctionResends.AnotherSendExactly` | go-server/internal/bidding/bidding.go:1105-1268 | In every reachable state another escrow can still be sent for a finalized sealed RFQ with best bid b if and only if a call stands at its chain call for b; or a commit still "revealed" links to b and a call has read b; or such a commit links to b, b is pending, and the deadline, the expiry and the credentials pass for a call on its way to b, or now while the RFQ is open or a cancellation can reopen it |
| `AuctionResends.AfterAcceptanceExactly` | go-server/internal/bidding/bidding.go:1341-1360 | Once the best bid is accepted, another escrow can be sent if and only if a call already stands at its chain call |
| `AuctionSerialAccepts.SerialAcceptsSendOnce` | go-server/internal/bidding/bidding.go:1105-1360 | In every run in which accepts of a sealed RFQ do not overlap and none fails after its chain call, at most one escrow is sent for it |
| `AuctionDoubleSend.TwoAcceptsSendTwice` | go-server/internal/bidding/bidding.go:1263-1345 | A run from the start in which two concurrent accepting calls create two escrows for one bid |
| `AuctionDoubleSend.RetriedAcceptSendsTwice` | go-server/internal/bidding/bidding.go:1263-1345 | A run from the start in which an accept fails after its chain call and only then another begins: two escrows, and the bid is accepted |
| `Commitment.CommitmentBinds` | go-server/internal/bidding/bidding.go:757-807 | Two valid reveals, whatever their nonces, match one commitment if and only if they are for one RFQ and agree on every term, numbers by value, and on nonce and salt joined by the separator |
| `Commitment.DigestedText` | go-server/internal/bidding/bidding.go:787-806 | A commitment is the digest of twelve parts in this order, separated: domain, RFQ, bidder, amount, duration, bond, digests of milestones and message, expiry, digest of the trimmed mandate, nonce, salt |
| `Commitment.OneNonceBindsTheSalt` | go-server/internal/bidding/bidding.go:998-1015 | Under one stored nonce they match if and only if they agree on every term and on the salt |
| `Commitment.HeadersAgree` | go-server/internal/bidding/bidding.go:757-807 | The joined payload splits uniquely into its separator-free fields |
| `Commitment.HeadersDetermineTerms` | go-server/internal/bidding/bidding.go:724-807 | Equal headers mean equal amount, duration, bond, milestones, message, expiry and mandate |
| `Commitment.NonceAndSaltCanTrade` | go-server/internal/bidding/bidding.go:757-807 | For any valid terms and any parts x, y, z, the nonces x|y and x with the salts z and y|z match one commitment |
| `Commitment.OnePairCollides` | go-server/internal/bidding/bidding.go:757-807 | One such pair of valid reveals: a|b with c, and a with b|c |
| `Commitment.ValidExactly` | go-server/internal/bidding/bidding.go:724-807 | A commitment can be computed if and only if the RFQ id is positive, the bidder has no separator, nonce and salt are not blank, the amount is a positive integer, the bond one that is not negative, the duration not negative and the expiry positive |
| `Text.IntegersReadBack` | go-server/internal/bidding/bidding.go:724-740 | Every integer is read back from its decimal text |
| `KeyLock.MutualExclusion` | go-server/internal/ucp/service.go:52-82 | In every interleaving at most one call is between acquire and release for a key, though entries are freed and made again |
| `KeyLock.LockTableIsExact` | go-server/internal/ucp/service.go:62-82 | A key has an entry exactly while it has callers between increment and decrement, and the entry counts them |
| `KeyLock.IdleServiceHoldsNothing` | go-server/internal/ucp/service.go:50-51 | When every call has returned the lock map is empty |
| `KeyLockProgress.NoCallIsStuck` | go-server/internal/ucp/service.go:62-82 | No deadlock: in every interleaving a call that has not returned can move or, while it waits for a mutex, the call holding that mutex can |
| `KeyLockProgress.StepsLowerWork` | go-server/internal/ucp/service.go:499-548 | Every step of a call that changes anything leaves fewer steps ahead of the calls |
| `KeyLockProgress.RunsEnd` | go-server/internal/ucp/service.go:499-548 | Without arrivals a run changes the state at most as often as there is work left |
| `KeyLockProgress.QuietExactlyWhenReturned` | go-server/internal/ucp/service.go:62-82 | No step of a call can change anything if and only if every call has returned |
| `KeyLockProgress.AllCanReturn` | go-server/internal/ucp/service.go:62-82 | From every reachable state the calls can all return without a new one arriving |
| `KeyLock.NothingFollowsTheRecord` | go-server/internal/ucp/service.go:499-548 | Once a response is recorded for a key the function never runs for it again and no second record is made |
| `KeyLock.SuccessCarriesTheRecord` | go-server/internal/ucp/service.go:499-548 | Every keyed success carries the recorded response of the same operation and request |
| `KeyLockAnswers.ReplayAnswers` | go-server/internal/ucp/service.go:513-524 | In every run a keyed call that reads the record of its key returns the recorded body if operation and request hash are the recorded ones, and a conflict otherwise |
| `KeyLockAnswers.NoRecordRuns` | go-server/internal/ucp/service.go:525-530 | Without a record it runs the function |
| `KeyLockAnswers.UnreadableFails` | go-server/internal/ucp/service.go:526-528 | A read that fails fails the call, without a run |
| `KeyLockAnswers.RunIsLogged` | go-server/internal/ucp/service.go:530-537 | A run that fails fails the call; one that answers is recorded next |
| `KeyLockAnswers.RecordingAnswers` | go-server/internal/ucp/service.go:534-545 | The call returns its own body if its record goes in, which then is of its operation and hash, and fails otherwise |
| `KeyLockAnswers.UnkeyedAnswers` | go-server/internal/ucp/service.go:506-509 | A call without a key returns what its function does and is never recorded |
| `KeyLock.SuccessesAgree` | go-server/internal/storage/queries.go:2766-2786 | Any two successes for a key carry the same response |
| `KeyLock.ReuseForAnotherRequestFails` | go-server/internal/ucp/service.go:499-548 | Reusing a recorded key for another operation or request never succeeds and never runs the function, in any continuation |
| `IdempotencyGuard.Guard.Count` | go-server/internal/ucp/service.go:62-71 | Find or create the entry and count the caller: the protocol's registering step |
| `IdempotencyGuard.Guard.TryLock` | go-server/internal/ucp/service.go:73 | Taking the entry's mutex: the protocol's locking step |
| `IdempotencyGuard.Guard.Unlock` | go-server/internal/ucp/service.go:74-75 | Letting go of the entry's mutex: the protocol's unlocking step |
| `IdempotencyGuard.Guard.Uncount` | go-server/internal/ucp/service.go:76-81 | Uncounting the caller and freeing the entry after the last: the protocol's deregistering step |
| `CreateEscrow.OneRowPerIntent` | go-server/internal/escrow/service.go:362-424 | In every interleaving with crashes one intent has one row |
| `CreateEscrow.AtMostOneSend` | go-server/internal/escrow/service.go:439-470 | In every interleaving with crashes an intent is sent to the chain at most once |
| `CreateEscrow.SuccessReportsTheReceipt` | go-server/internal/escrow/service.go:515-589 | A caller that succeeds reports the one transaction sent for its intent and that transaction's receipt |
| `CreateEscrow.SuccessesAgree` | go-server/internal/escrow/service.go:426-435 | All callers with one intent that succeed report one row, hash, address and chain id |
| `CreateEscrow.MilestonesComeWithCreation` | go-server/internal/escrow/service.go:520-577 | The milestone rows are those of the intent, once, exactly from the step that creates the escrow on |
| `CreateEscrowRecovery.AbandonedForever` | go-server/internal/escrow/service.go:439-513 | A row being submitted whose claimant is gone is never written again by anyone |
| `CreateEscrowRecovery.RetriesCannotRecover` | go-server/internal/escrow/service.go:439-457 | No retry of an abandoned intent ever succeeds |
| `CreateEscrowRecovery.StepAbandonsExactly` | go-server/internal/escrow/service.go:439-513 | In every reachable state a step abandons a row if and only if its claimant crashes, a reset after a failed chain call does not take effect, the last attempt to store the hash fails or the wait before the next is cancelled, or the claim takes effect while its reply is an error |
| `CreateEscrowRuns.FailedResetAbandons` | go-server/internal/escrow/service.go:459-466 | A run from the start, without a crash, that abandons a row |
| `CreateEscrowUnderway.RetryCanSucceedExactly` | go-server/internal/escrow/service.go:426-589 | In every reachable state a new call can still succeed if and only if the intent has no row, or its row is pending, or claimed by a caller that is still there and has not sent a transaction that cannot be finalized, or waits for a transaction that was mined and whose address no other row has, or is created with its chain id |
| `CreateEscrowUnderway.UnderwayCanSucceedExactly` | go-server/internal/escrow/service.go:405-589 | In every reachable state a call already under way, at whatever point, can still succeed if and only if it stands in hope: it has read a finished row, is about to send, holds the hash of a transaction that can be confirmed while its row is being submitted, at any attempt to store it, has succeeded, or its row can still be brought to success |
| `CreateEscrowUnderway.OvertakenReportsStored` | go-server/internal/escrow/service.go:535-557 | A caller overtaken between its receipt and its finalizing transaction reports the stored hash, address and id of the created row |
| `CreateEscrowOutcomes.RowBecomes` | go-server/internal/escrow/service.go:405-589 | In every reachable state each step makes exactly this of a row: the claim, the reset, the stored hash, the finalized fields, the indexer's move, or nothing |
| `CreateEscrowOutcomes.EndsExactly` | go-server/internal/escrow/service.go:405-589 | In every reachable state a call ends with an error exactly at the listed steps, and with a success exactly at the three that report a created row |
| `CreateEscrowRetries.NobodySucceedsPastRecovery` | go-server/internal/escrow/service.go:520-556 | On an unfinished row where that fails no call ever succeeds, not even one under way |
| `CreateEscrowRuns.IndexerFirstStrands` | go-server/internal/indexer/indexer.go:466-500 | A run from the start, without crash or failure, in which the indexer stores the new escrow first and the caller's row can never be finalized |
| `CreateEscrowRuns.CrashAfterSendingStrands` | go-server/internal/escrow/service.go:459-513 | A run from the start that crashes between the chain call and storing its hash: the transaction is mined and the row abandoned |
| `CreateEscrowStore.Escrows.RowOfIntent` | go-server/internal/escrow/service.go:362-366 | Finds the row of an intent, or none if there is none |
| `CreateEscrowStore.Escrows.InsertPending` | go-server/internal/escrow/service.go:366-424 | The insert under the unique index: the protocol's inserting step |
| `CreateEscrowStore.Escrows.TransitionStatus` | go-server/internal/storage/queries.go:224-238 | The status moves if and only if it was the expected one; nothing else changes |
| `CreateEscrowStore.Escrows.Claim` | go-server/internal/escrow/service.go:439-447 | The claim: the protocol's claiming step |
| `CreateEscrowStore.Escrows.SetCreateTxHash` | go-server/internal/storage/queries.go:240-258 | The hash is stored if and only if the row is being submitted |
| `CreateEscrowStore.Escrows.PersistHash` | go-server/internal/escrow/service.go:467-513 | The retry loop is the protocol's persisting steps, at most three, ended by success, by cancellation or by the last failure |
| `CreateEscrowStore.Escrows.HoldsAddress` | go-server/internal/storage/migrations/001_create_tables.sql:32 | True exactly when a row other than the given ones has the address |
| `CreateEscrowStore.Escrows.Discover` | go-server/internal/indexer/indexer.go:466-500 | The indexer's insert: the protocol's discovering step, and nothing when the address is stored |
| `CreateEscrowStore.Escrows.Finalize` | go-server/internal/escrow/service.go:520-577 | The compare-and-set under the unique address and the milestone loop: the protocol's finalizing step, or no change |
| `Dct.CanonicalizeItems` | go-server/internal/dct/service.go:87-103 | The loop computes the canonical form of a list |
| `Dct.CanonicalListsTheNames` | go-server/internal/dct/service.go:87-103 | A canonical list is sorted, has no repetition, and lists exactly the cleaned items that are not blank |
| `Dct.CanonicalizeTwice` | go-server/internal/dct/service.go:121-135 | Storing a scope and reading it back changes nothing |
| `Text.TrimmedEnds` | go-server/internal/dct/service.go:91 | Trimming takes exactly the white space at both ends |
| `Text.LowersLetters` | go-server/internal/dct/service.go:91 | Lower-casing takes each capital letter to the small one in its place, and nothing else |
| `Sorting.ComparesLexicographically` | go-server/internal/dct/service.go:101 | Strings are sorted by the first character in which they differ, a shorter one before those it begins |
| `Dct.CheckSubset` | go-server/internal/dct/service.go:153-167 | True exactly when the list is no longer and all its items are in the other |
| `Dct.SubsetIsInclusion` | go-server/internal/dct/service.go:153-167 | On lists without repetition this is set inclusion, and with a shorter list proper inclusion |
| `Dct.WalkUp` | go-server/internal/dct/service.go:432-491 | The walk ends on every table, cyclic ones included, with the reasons its specification collects |
| `Dct.Introspect` | go-server/internal/dct/service.go:494-520 | Introspection reports what its specification says, error paths included |
| `Dct.ReportsActiveExactly` | go-server/internal/dct/service.go:420-520 | No reason is reported if and only if the token and all its ancestors up to a root are canonical, unrevoked and unexpired, in one live escrow, issuer-linked, and attenuate step by step |
| `DctReasons.ReasonsAreExact` | go-server/internal/dct/service.go:420-520 | On any table introspection fails exactly for a wrong secret, a missing escrow or a scope on the trail that does not decode; otherwise it reports each reason if and only if the token or its escrow has that fault, some step of its trail has, or the trail ends in it, each fault spelled out in the columns |
| `DctReasons.TokenHasTrail` | go-server/internal/dct/service.go:432-447 | Every token has a trail up to a root, a gap or the point where it would go in a circle |
| `Dct.LineageIsDistinct` | go-server/internal/dct/service.go:432-447 | A lineage that reaches a root meets no token twice |
| `Dct.ActiveTokensAttenuate` | go-server/internal/dct/service.go:454-486 | An active token's operations and resources are subsets of every ancestor's, it expires no later, and every ancestor is active too |
| `DctRows.GrantsItsNames` | go-server/internal/dct/service.go:454-486 | The operations and resources that a token grants are the lowered and trimmed names in its stored lists |
| `DctStore.Store.PrepareMint` | go-server/internal/dct/service.go:190-295 | Mint's checks let exactly the specified row through |
| `DctRows.MintIssues` | go-server/internal/dct/service.go:190-295 | Mint issues a token if and only if the request names a subject, operations and resources, expires in the future, is allowed and its escrow takes part; the token lists exactly the names of the requested operations as operations and of the resources as resources, with the lowered subject and the issuer or else the subject |
| `DctRows.MintWaitsExactly` | go-server/internal/dct/service.go:221-295 | A granted mint waits for its insert under its new id with those columns; a refused one leaves no trace |
| `DctStore.Store.PrepareDelegate` | go-server/internal/dct/service.go:298-409 | Delegate's checks let exactly the specified row through |
| `DctRows.DelegateIssues` | go-server/internal/dct/service.go:298-410 | Delegate issues a token if and only if the parent is active, its secret is presented, the request is allowed, names a subject and some scopes, is unexpired and asks for no more than the parent has and for less of something; the token has the request's columns, one level below the parent and in its escrow |
| `DctRows.DelegationWaitsExactly` | go-server/internal/dct/service.go:305-410 | Likewise for a delegation |
| `DctRows.RowsAreIssued` | go-server/internal/dct/service.go:190-410 | In every run each token, waiting or inserted, answers a mint or a delegation of the run that was granted when it was checked, and has that request's columns still, but for its revocation |
| `DctStore.Store.RevokeToken` | go-server/internal/storage/dct_queries.go:90-117 | Revokes the token unless it is revoked, and touches nothing else |
| `DctStore.Store.RevokeByEscrow` | go-server/internal/storage/dct_queries.go:119-132 | Revokes exactly the unrevoked tokens of the escrow, and reports their number |
| `DctStore.Store.FreezeAndRevoke` | go-server/internal/storage/emergency_tx.go:8-35 | Freezes the escrow and revokes its unrevoked tokens together |
| `DctStore.Store.ResolveAndRevoke` | go-server/internal/storage/emergency_tx.go:37-65 | Resolves the escrow and revokes its unrevoked tokens together |
| `DctReasons.FreezeStops` | go-server/internal/storage/emergency_tx.go:8-35 | A freeze marks only that escrow frozen, revokes exactly its unrevoked tokens, with that reason, and leaves none active, none to be minted and none to be delegated |
| `DctReasons.ResolveStops` | go-server/internal/storage/emergency_tx.go:37-65 | An emergency resolve does so likewise, and resolves the escrow |
| `DctRuns.RevocationIsForever` | go-server/internal/storage/dct_queries.go:90-132 | In every later state of any run a revoked token keeps its first revocation, and neither it nor any token below it is active |
| `DctRuns.SweptTokensNeverReturn` | go-server/internal/storage/emergency_tx.go:8-65 | After RevokeByEscrow, a freeze or a resolve every token the escrow had, and every token ever made below one, is inactive for good, thawed or not |
| `DctRuns.SweepMissesExactlyPendingMints` | go-server/internal/storage/emergency_tx.go:8-65 | A row that passed its checks but is not inserted yet can become active after RevokeByEscrow, a freeze or a resolve if and only if it is a mint that has not expired |
| `DctRuns.MintInFlightEscapesFreeze` | go-server/internal/dct/service.go:221-295 | A run from the start in which a mint checked before a freeze and inserted after it is active once the escrow is thawed |
| `DctRuns.DepthIsDistanceToRoot` | go-server/internal/dct/service.go:221-410 | In every run a token's depth is its distance to its root, and every delegation has spent operations, resources or life |
| `DctRuns.ChainsAreBounded` | go-server/internal/dct/service.go:298-303 | A chain of delegations is shorter than the operations, resources and seconds its root has |
| `DctRuns.NoStructuralFaults` | go-server/internal/dct/service.go:420-520 | On minted and delegated tokens introspection fails only for a wrong id or secret and never reports a profile, gap, cycle, escrow, expiry-order or scope fault; an expired ancestor only with an expired token |
| `Attestation.DetectCycles` | go-server/internal/attestation/attestation.go:239-272 | The search ends and reports a cycle if and only if the parent links contain one, at an id that is on one |
| `Attestation.Search.Visit` | go-server/internal/attestation/attestation.go:249-264 | A visit ends with the id finished, the calls around it untouched, or with a cycle |
| `AttestationChain.ValidateChain` | go-server/internal/attestation/attestation.go:145-237 | Valid if and only if the list is empty or ids are unique, links sound and attached to their parents, no cycle, and children covered; otherwise it gives one reason, which is true of the links. When valid the root hash is that of the sorted messages and the covered escrows are exactly those referenced, the child ids when given, in strictly increasing order |
| `AttestationChain.OrderOfLinksIsIrrelevant` | go-server/internal/attestation/attestation.go:219-235 | Two validations of the same links in different orders have the same verdict, root hash, count and sequence of covered escrows |
| `AttestationChain.RootHashBinds` | go-server/internal/attestation/attestation.go:219-226 | With injective digests and messages without line breaks, two sets of links have one root hash if and only if they have the same messages, each as often |
| `AttestationChain.OneMessageCanStandForTwo` | go-server/internal/attestation/attestation.go:219-226 | With a line break in a message one link has the root hash of two |
| `AttestationChain.ValidChainIsForest` | go-server/internal/attestation/attestation.go:173-197 | In a valid chain exactly one path leads from a root to each link |
| `Decomposition.CheckProposal` | go-server/internal/decomposition/decomposition.go:125-165 | The checks pass if and only if the proposal is acceptable, and then index it by id |
| `DecompositionRequests.NormalizedFields` | go-server/internal/decomposition/decomposition.go:125-158 | Ids, parents and types are trimmed, preferences trimmed and lowered, and nothing else of a sub-task changes |
| `DecompositionRequests.AcceptableExactly` | go-server/internal/decomposition/decomposition.go:125-175 | Sub-tasks pass the checks if and only if there are some, each with an id of its own, one of the five types and four preferences, a preference only where nothing hangs below, and a parent, if named, among them |
| `Decomposition.StuckMeansCyclic` | go-server/internal/decomposition/decomposition.go:242-246 | Sub-tasks that all wait for one another contain a cycle |
| `Decomposition.RootedMeansAcyclic` | go-server/internal/decomposition/decomposition.go:199-206 | Where every sub-task hangs below a root no sub-task is its own ancestor |
| `Decomposition.CreateNodes` | go-server/internal/decomposition/decomposition.go:186-247 | The worklist ends; with details that marshal it succeeds if and only if the parent relation is acyclic, and then each node is created once, after its parent, at its distance from its root |
| `Decomposition.Propose` | go-server/internal/decomposition/decomposition.go:125-247 | A proposal is stored if and only if it passes the checks, marshals and has no cycle |
| `DecompositionRequests.NodesAreOfTheRequest` | go-server/internal/decomposition/decomposition.go:199-241 | The stored nodes are those of the sub-tasks, field by field, each for a different one, with consecutive ids, below the node of its parent |
| `Finalization.LeafNodes` | go-server/internal/decomposition/decomposition.go:484-498 | The counting loops return exactly the nodes that are nobody's parent |
| `Finalization.LeafMeansNobodysParent` | go-server/internal/decomposition/decomposition.go:484-498 | A stored node is a leaf if and only if no sub-task of the proposal named it as parent |
| `Finalization.LastNodeIsLeaf` | go-server/internal/decomposition/decomposition.go:484-498 | A stored decomposition has a leaf |
| `Finalization.ValidateLeafNodes` | go-server/internal/decomposition/decomposition.go:449-482 | The issues are those of each leaf in turn |
| `Finalization.NoIssuesMeansSettleable` | go-server/internal/decomposition/decomposition.go:249-253 | A decomposition is valid if and only if each leaf has a type, is final, and has its circuit if it needs one |
| `Finalization.ValidLeafBuilds` | go-server/internal/decomposition/decomposition.go:585-671 | A valid leaf becomes an RFQ if and only if the verifier panel suits it |
| `Finalization.BuiltAsAsked` | go-server/internal/decomposition/decomposition.go:585-671 | A leaf becomes an RFQ if and only if its trimmed type is one of the four and the panel, the quorum and the circuit it needs are there. The RFQ has the leaf's title and the caller's buyer, terms and token; it is sealed, of tier 1 and with the panel's first verifier for a quorum or a proof, and open, of tier 0 and without one otherwise; it requires per type the artifacts, the panel and quorum, or the circuit |
| `Finalization.Store.FinalizeDecomposition` | go-server/internal/decomposition/decomposition.go:358-413 | The statements, the loop and the rollbacks leave exactly the tables of the finalizing transaction |
| `Finalization.Store.SetStatusIfCurrent` | go-server/internal/storage/queries.go:1248-1293 | The status and RFQ ids change if and only if the status was the expected one |
| `Finalization.Store.LinkRfq` | go-server/internal/storage/queries.go:1504-1521 | A node is linked if and only if it was not linked yet |
| `FinalizationRuns.AtMostOneFinalization` | go-server/internal/decomposition/decomposition.go:364-380 | Of any number of concurrent finalizations of a decomposition at most one commits, and the decomposition is finalized if and only if one has |
| `FinalizationRuns.LinkedExactlyTheLeaves` | go-server/internal/decomposition/decomposition.go:381-391 | In every run a node has an RFQ if and only if its decomposition is finalized and no node hangs below it; the RFQ is its own, and the one it asks for, column by column, on the terms of a caller that named the buyer |
| `FinalizationRuns.OneCallersTerms` | go-server/internal/decomposition/decomposition.go:323-391 | A finalized decomposition lists one RFQ for each leaf, shallower leaves first and then by id, all on the terms of one caller that named its buyer |
| `FinalizationRuns.DraftExactly` | go-server/internal/decomposition/decomposition.go:249-253 | In every run a decomposition is a draft if and only if one of its leaves has no type, is flagged for more work or is to be proved without a circuit |
| `FinalizationRuns.NoOrphanedRfq` | go-server/internal/decomposition/decomposition.go:358-391 | Every RFQ created by finalizations belongs to a node |
| `FinalizationRuns.ValidIsPrepared` | go-server/internal/decomposition/decomposition.go:323-356 | A finalization gets to its transaction, with the RFQs its leaves ask for on the caller's terms, if and only if the decomposition is valid, the caller names its buyer and the panel suits every leaf |
| `FinalizationRuns.PreparedCommitsUnlessOvertaken` | go-server/internal/decomposition/decomposition.go:358-413 | A prepared finalization commits if and only if the decomposition is still valid and no RFQ is refused, and then every leaf has its RFQ on that caller's terms; otherwise it leaves no trace |
| `Indexer.FilterLogs` | go-server/internal/chain/client.go:93-117 | The loop makes the requests its specification lists, with 64-bit wrap-around, or fails with one of them |
| `Indexer.RequestsTileExactly` | go-server/internal/chain/client.go:102-104 | The requests are complete and tile the range in order, without gap or overlap, none too long, if and only if first + size * ((last - first) / size) + size is below 2^64 and one answer per chunk comes |
| `Indexer.LastBlockIsNeverDone` | go-server/internal/chain/client.go:102-104 | A scan up to the largest 64-bit block is never complete, whatever is answered |
| `Indexer.LastBlockWraps` | go-server/internal/chain/client.go:102-104 | Asked for the largest block alone with chunks of one, the loop goes on with block 0 |
| `Indexer.CompleteScanCovers` | go-server/internal/chain/client.go:93-117 | A completed scan has covered every block of its range, even where it wrapped around |
| `Indexer.CursorIsCovered` | go-server/internal/indexer/indexer.go:222-305 | With a start block set, in every interleaving of overlapping polls each block from it to the stored cursor has been scanned for factory events |
| `Indexer.PollMovesCursor` | go-server/internal/indexer/indexer.go:222-281 | A poll on its own starts after the cursor, at the start block or 250 blocks back, scans up to the height it is told and leaves the cursor at that height; with nothing to do or a failed request the cursor stays, and a height beyond int64 is scanned but not saved |
| `Indexer.SavedExactly` | go-server/internal/indexer/indexer.go:272-279 | Whatever other polls have done, saving leaves the cursor at the height that the poll was told if that fits in int64, and leaves it alone otherwise |
| `Indexer.HeightsAreTold` | go-server/internal/indexer/indexer.go:227-279 | In every run each poll works up to a height that it was told, and the cursor is such a height once it is set |
| `Reputation.Store.RecordOutcome` | go-server/internal/storage/queries.go:579-642 | Stores the event and bumps its counter together, or does neither |
| `Reputation.DeliverIsExact` | go-server/internal/storage/queries.go:619-642 | After any deliveries each counter is the number of stored events of that address, role and outcome |
| `Reputation.CountersCountDistinctEvents` | go-server/internal/storage/queries.go:542-642 | However often, in whatever order and with whatever outcomes logs are redelivered, each counter is the number of distinct events whose first delivery told that outcome |
| `Reputation.CountersCountFirstTellings` | go-server/internal/storage/queries.go:542-642 | However often and in whatever order logs are delivered, a counter is the number of recordable events of that address and role, told apart by address, role, transaction and log index but for case and blanks, whose first telling has that outcome |
| `Reputation.RedeliveryChangesNothing` | go-server/internal/storage/queries.go:592-612 | A second delivery of an identity changes nothing |
| `Reputation.ComputeDampedCounts` | go-server/internal/storage/queries.go:724-742 | The weighted sums equal the recurrence D(xs + [o]) = factor * D(xs) + unit(o) |
| `Reputation.DampedIsAtMostRaw` | go-server/internal/storage/queries.go:724-742 | No damped count exceeds its raw count or is negative |
| `Reputation.FactorOneIsRaw` | go-server/internal/storage/queries.go:724-742 | With factor one the damped counts are the raw counts |
| `Reputation.DampedCountsConserveWeight` | go-server/internal/storage/queries.go:724-742 | The three damped counts add up to the geometric series of the number of events, whatever the outcomes |
| `Reputation.SeriesIsGeometric` | go-server/internal/storage/queries.go:724-742 | That series times (1 - factor) is 1 - factor^n |
| `Reputation.DampedIsBounded` | go-server/internal/storage/queries.go:724-742 | With a factor below one no damped count exceeds 1 / (1 - factor) |
| `EventBus.Bus.StoreRecent` | go-server/internal/events/bus.go:190-200 | The buffer holds the last thousand published events, in order |
| `EventBus.Bus.RecentEvents` | go-server/internal/events/bus.go:115-167 | The loops return the first matching events after the named one, or from the oldest if it is gone |
| `EventBus.PollReadsOn` | go-server/internal/events/bus.go:129-145 | A poll reads on from the reader's position or, if that is gone, from the oldest event held; it never repeats one |
| `EventBus.PagingIsExact` | go-server/internal/events/bus.go:115-167 | Polling with the last id, events published in between, gives exactly the wanted events in order, without gap or repeat, if and only if no poll came when a wanted event had been evicted unread and a later one was held |
| `EventBus.PagingInTimeIsExact` | go-server/internal/events/bus.go:115-167 | If every poll names an event still in the buffer, paging is exact |
| `EventBus.InTimeExactly` | go-server/internal/events/bus.go:129-145 | The named event is in the buffer if and only if the buffer reaches back to the reader's position |
| `EventBus.ShortAnswerCatchesUp` | go-server/internal/events/bus.go:160-163 | After an answer that is not full nothing wanted is left |
| `EventBus.Itoa` | go-server/internal/events/bus.go:223-235 | The digits are the decimal text of the number, and twenty bytes are enough for every 64-bit one |
| `EventBus.SubscriptionIdsAreUnique` | go-server/internal/events/bus.go:219-235 | Different numbers give different subscription ids |

## Left out

- HTTP, MCP, streaming, configuration, RPC transport, JSON and SQL text, and the ABI: plumbing around the modelled logic.
- Cryptography: signature, credential and authorization checks enter as their results; digests are injective.
- The contracts on the chain: a send either produces a transaction with a fixed receipt or fails without one.
- CanonicalizeItems: trims and lower-cases ASCII text only; text outside ASCII is not modelled here or elsewhere.
- Blocking on a mutex and crashes: callers of `KeyLock` and `CreateEscrow` are steps of a state machine; the methods of `IdempotencyGuard` and `CreateEscrowStore` are proved to be those steps, and a caller that finds a mutex taken takes no step.
- Checkout handling in UCP: only the idempotency wrapper is modelled, for one service instance; the JSON round trip of a stored response is the identity.
- OneCommitAndOneBidEach: gives a condition that suffices, all inserts landing before the commit deadline; the exact one is in OneEachExactly and OneBidExactly.
- OnlyTheBestBidIsAccepted: is about sealed RFQs; open-mode bids may be accepted without a ballot.
- CommitmentBinds: agrees on the stake mandate up to surrounding space, because the code trims it before hashing.
- The re-bid rate limit, the creation and normalisation of RFQs, and the receipt that AcceptBid waits for: not part of this model.
- Introspect: reads the token table, the escrow row and the clock in one step; the source reads row by row, so a revocation or a freeze that lands in between may be seen in part.
- The checks of Mint and Delegate read the clock and the rows in one step each.
- The reads of a finalization before its transaction are one step: nodes never change but for their link, which finalization does not read.
- A failing statement inside the transaction of CreateDecomposition: it rolls the whole transaction back.
- CursorIsCovered: needs a start block; without one the first poll begins at a look-back from whatever height it is told.
- CommitBid: the form of its address, nonce and commitment, and the parsing of numbers elsewhere, are checked before the modelled calls begin; a keyed call's key is already trimmed.
- BuiltAsAsked: the description, the stake of zero and the empty milestone and credential lists of an RFQ are constants or copies left out of the model; the terms that are passed on unchanged are one text.
- RootHashBinds: holds for messages without line breaks; that they are needed is OneMessageCanStandForTwo.
- Propose: the tests that a decomposition names a buyer and a title, and the description of a sub-task, are not part of the model.
- Events of single escrows: the cursor advances past their failures, so nothing is claimed about them; nor is a factory log whose handler fails retried.
- DampedIsBounded: over exact reals; floating-point rounding and the cap of ten thousand listed events are not modelled.
- ShortAnswerCatchesUp: paging needs ids that are set and unique; heartbeats published within one second share one.
- Delivery of events to subscribers over channels, market context, task rows and audit entries are not modelled.
- Token ids are random: MintInFlightEscapesFreeze and the other runs of tokens take a new id to be in use nowhere.
- The indexer's own rows are kept as their addresses only; that a row of the indexer may also refuse the escrow row that AcceptBid inserts is one of the failures of its transaction.
