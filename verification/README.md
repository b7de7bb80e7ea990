# Verified models of the restaurant's bills, bookings and limits

This project states, in Dafny, what the backend's hardest parts do and proves what they are for. The parts
are independent; each is a specification over plain values, the imperative code proved to compute it, and
theorems about single steps and whole runs.

- **Point-of-sale bills** (`SyrveOrders`, `SyrveParser`, `SyrveObserver`, `SyrveState`, `SyrveEvidence`,
  `SyrvePoll`, `SyrvePollTheorems`, `SyrveWebhook`, `SyrveSystem`, `SyrveFence`, `SyrveHolds`, `SyrveReadLaws`,
  `SyrvePollLaws`, `SyrveNoticeLaws`, `SyrveWitnesses`). Each restaurant table keeps
  a ledger of bill versions, a set of active bills and a revision fence. Complete polls, single-bill
  notifications and staff actions move bills between tables, and new configurations are adopted. The main
  results: replayed polls do nothing, closure is all-or-nothing, no delayed event reopens a bill, transfers
  conserve bills, and `free` is never said without an opening before it, which was heard as `occupied` exactly
  when it was not by a poll without verified visibility.
- **Bookings** (`BookingTime`, `Bookings`, `BookingService`, `BookingSlots`, `BookingEffects`, `BookingBlocks`,
  `BookingRuns`, `BookingHistory`, `BookingReaders`, `BookingLaws`, `TimeLaws`, `BookingWitnesses`).
  Creations, banquets, approvals, transfers and planned unavailability compete for
  `[start, start + length + 15)` per table and date. The main results: no table is promised twice for one
  minute and bookings stay out of blocks in any run without the operations that look at too little (approving
  a new time; for blocks also a waiter's move and a guest's request by a blank number), and in a run with them
  exactly under stated conditions on each such step; runs from empty books in which they fail; a guest has one
  active booking a day; a booking's time and tables change only where they are moved.
- **Limits** (`RequestLimiter`, `LoginThrottle`, `PinThrottle`, `OperationLease`; `LimiterLaws`, `LoginLaws`,
  `PinLaws`, `LeaseLaws`). Rate bounds over every window, end to end for the requests actually sent, and
  exclusion over every run.
- **Smaller pieces** (`Catalog`, `CatalogLaws`, `LocalTime`). An injective and exact classification of tables,
  and the loop that turns a Kyiv wall-clock time into an instant.

The modules named after laws say of each operation, from the fields of its input alone and with the source's
numbers, exactly when it is accepted and what it leaves; the specifications are proved to obey them.

`Basics` and `Text` hold what all of them share. Classes stand for rows or fields the source updates in
place; a refused transaction leaves them as they were. Row and advisory locks are taken to serialize
transactions and the database clock never to run backwards. A clock read before a lock is waited for may be
older than what other transactions did meanwhile; the rate and PIN theorems cover those runs.

Where the code differs from what its names or callers suggest, the model follows the code:

- Approving a new time (booking-reschedule-approval.service.ts:106-127) searches the booking's own `table_id`
  only, for other bookings and for blocks. `BookingSlots.RescheduleExactly` and
  `BookingBlocks.RescheduleBlocksExactly` give the exact conditions under which that is enough;
  `BookingWitnesses.RescheduleCanDoubleBook` and `BookingWitnesses.RescheduleCanEnterABlock` are runs from
  empty books in which it is not.
- A waiter's move does not consult blocks; `BookingBlocks.WaiterTransferExactly` says exactly when it still
  keeps out of them, and `BookingWitnesses.WaiterCanEnterABlock` is a run in which it does not.
- The check before a guest's creation trims the table number and passes a blank one unchecked
  (availability-blocks.service.ts:170-171, 439-450), while the creation looks up, and makes, the number as it is
  written (bookings.service.ts:299-326). A table can so be numbered by one space and be booked inside a block:
  `BookingWitnesses.BlankNumberCanEnterABlock`, with the exact condition in `BookingBlocks.GuestRequestExactly`.
- A PIN reservation counts with its transaction's start time, so one that waits for its lock can be overtaken
  by another caller's clean-up, which drops rows the late reservation would still have counted.
  `PinThrottle.RunsAreBounded` gives the bound that holds for every such lag, `PinThrottle.LagIsTight` shows
  that no longer window keeps it.
- The check for a block already planned (availability-blocks.service.ts:576-578) compares `undefined` with
  `null` and so never finds one; the model has no such refusal.
- The services read the length of an old booking, one without stored minutes, in three ways; see
  `BookingTime.ReadersAgree` and `BookingTime.BlocksReaderAgrees`. Rows written by any creation store the
  minutes; what moves of older rows still keep is in `BookingReaders`.

`dafny verify dfyconfig.toml` checks the project.

## Model

| member | source | states |
|---|---|---|
| SyrveOrders.MergeSyrveOrders | backend/src/syrve/syrve-order-observer.ts:114-127 | the one-pass merge fills its map with exactly the left fold of the reconciliation rule over every record of every batch |
| SyrveOrders.MergeMeaning | backend/src/syrve/syrve-order-observer.ts:114-127 | an id is in the result iff some read mentions it; an uncontested id keeps its whole newest record, and two differing newest records give the unknown, status-less record of one of them |
| SyrveOrders.MergeIgnoresOrder | backend/src/syrve/syrve-order-observer.ts:114-127 | permuting the reads never changes an id's timestamp or verdict, nor anything at all of a non-conflicting id |
| SyrveOrders.ReconcileAssociative | backend/src/syrve/syrve-order-observer.ts:118-124 | reconciling three records of one bill is associative |
| SyrveOrders.MergeAppend | backend/src/syrve/syrve-order-observer.ts:114-127 | merging a concatenation is joining the two merges |
| SyrveOrders.MergeOfChunks | backend/src/syrve/syrve-order-observer.ts:114-127 | however the reads are cut into chunks, and however each merged chunk is listed, merging the chunks gives the one-pass result |
| SyrveOrders.MergeIdempotent | backend/src/syrve/syrve-order-observer.ts:114-127 | reading everything twice changes nothing |
| SyrveOrders.JoinAllIsMerge | backend/src/syrve/syrve-state-reducer.ts:238-263 | merging the per-page results is the same as one pass over all of them |
| SyrveParser.ParseSyrveOrders | backend/src/syrve/syrve-order-observer.ts:81-112 | a response is taken whole iff correlated, within bounds, every row acceptable for the organization and the question asked, and no bill twice; then each bill is decoded as specified |
| SyrveParser.Decode | backend/src/syrve/syrve-order-observer.ts:93-110 | a decoded bill always satisfies the reducers' own validity check; it is unknown exactly when it carries a reason, and a known one lists tables and a cash group |
| SyrveParser.ParsePosAvailability | backend/src/syrve/syrve-order-observer.ts:64-79 | an availability answer is accepted iff every row is acceptable, no register repeats, and there are as many rows as registers asked about |
| SyrveParser.AvailabilityIsComplete | backend/src/syrve/syrve-order-observer.ts:69-78 | an accepted answer says of every register asked about whether it is alive; an omitted one never passes for live |
| SyrveParser.ParsedBillsStayValid | backend/src/syrve/syrve-state-reducer.ts:131-139 | bills from accepted responses stay valid through merge and qualification, so they never make a poll throw |
| SyrveReadLaws.RowTakenExactly | backend/src/syrve/syrve-order-observer.ts:81-105 | a bill's row is taken iff each of its fields is as asked: organization, id, version, creation state, and for a created bill one to two thousand different tables, a cash group and a status |
| SyrveReadLaws.UncreatedBillMeans | backend/src/syrve/syrve-order-observer.ts:93-97 | a bill not created yet says nothing but its version and why |
| SyrveReadLaws.CreatedBillMeans | backend/src/syrve/syrve-order-observer.ts:98-110 | a created bill says its tables, its cash group and the verdict of its status |
| SyrveReadLaws.RegisterTakenExactly | backend/src/syrve/syrve-order-observer.ts:64-79 | a register's row is taken iff it is one asked about, of the organization, and says whether it is alive; and then it says just that |
| SyrveObserver.ObserveLink | backend/src/syrve/syrve-order-observer.ts:151-181 | open, explicitly closed and unknown ids of a link are pairwise disjoint, together name every saved bill and every bill read for the table, and a failed read or dead register leaves no open or closed verdict |
| SyrveObserver.FailedReadsGiveNoVerdict | backend/src/syrve/syrve-order-observer.ts:143-150 | a bill with a verdict comes from complete reads, a live register and the cash group of the table |
| SyrveReadLaws.LostExactly | backend/src/syrve/syrve-order-observer.ts:165-178 | why a saved bill without a verdict is unknown, the first reason that applies |
| SyrveReadLaws.QualifiedExactly | backend/src/syrve/syrve-order-observer.ts:136-155 | what a merged bill is worth: nothing after a failed read, no verdict without a live register or with a table of another register, else what it said |
| SyrveReadLaws.ReadMeans | backend/src/syrve/syrve-order-observer.ts:114-150 | what was read of a bill: the merge of the rows by table and by id, each for what it is worth |
| SyrveState.CopyState | backend/src/syrve/syrve-state-reducer.ts:71-90 | a stored state is either refused or read back satisfying the representation invariant |
| SyrveState.StoredStateReadsBack | backend/src/syrve/syrve-state-reducer.ts:71-90 | round trip: a valid state written in any element order reads back unchanged |
| SyrveState.ReadableStatesAreStored | backend/src/syrve/syrve-state-reducer.ts:71-90 | whatever reads back is stored faithfully, each id once |
| SyrveReadLaws.ValidStateExactly | backend/src/syrve/syrve-state-reducer.ts:71-90 | a state is well-formed iff suppressed bills are active, active ones in the ledger, it was last open iff it has some, and every version is a safe integer with no print only when unknown |
| SyrveState.ReduceStaffAction | backend/src/syrve/syrve-state-reducer.ts:370-382 | a staff action takes effect iff it names the table's scope, twice, and its revision, and proposes another; it keeps the invariant, suppresses exactly the bills active before when it frees by hand, and rotates the fence |
| SyrveState.StatusEvent | backend/src/syrve/syrve-state-reducer.ts:384-401 | `occupied` iff the transition changed, is not silenced, kept its scope, and some bill newly joined the active set; `free` iff instead the last bills left and more than legacy repairs left |
| SyrveState.SupersedesTransitive | backend/src/syrve/syrve-state-reducer.ts:283-341 | the rule for replacing a ledger row composes, so it describes whole runs |
| SyrveEvidence.GetSyrveOrderIdsToObserve | backend/src/syrve/syrve-state-reducer.ts:97-107 | the plan covers exactly the active and still unknown bills, in pairwise disjoint pages each within one bounded read |
| SyrveEvidence.PagesCover | backend/src/syrve/syrve-state-reducer.ts:97-107 | cutting a listing into pages loses and adds no bill |
| SyrveEvidence.PagesAreBounded | backend/src/syrve/syrve-state-reducer.ts:97-107 | each page is non-empty and within the bound, and no bill is on two pages |
| SyrveReadLaws.AskedForExactly | backend/src/syrve/syrve-state-reducer.ts:97-107 | a poll asks for exactly the active bills and those on hold |
| SyrveEvidence.CollectOrderEvidence | backend/src/syrve/syrve-state-reducer.ts:232-264 | the loop over pages gives all pages together or none: count, plan, organization, checks, cash group and order validity each end it as specified |
| SyrveEvidence.GatherPages | backend/src/syrve/syrve-state-reducer.ts:241-260 | the page loop stops at the first page that fails or shows another cash group |
| SyrveEvidence.FailedPageDecides | backend/src/syrve/syrve-state-reducer.ts:241-260 | once a page fails, later pages cannot change the verdict |
| SyrveEvidence.GatheredPages | backend/src/syrve/syrve-state-reducer.ts:241-263 | a reading that succeeds holds every page, all of their bills valid |
| SyrveReadLaws.PageCountsExactly | backend/src/syrve/syrve-state-reducer.ts:243-258 | a page counts iff it was answered as asked, all reads succeeded and the table can be judged |
| SyrveReadLaws.PageMalformedExactly | backend/src/syrve/syrve-state-reducer.ts:244-253 | a page aborts the poll iff too many bills were asked for or bills came by id that were not |
| SyrveReadLaws.ReadingExactly | backend/src/syrve/syrve-state-reducer.ts:241-263 | pages make a reading iff every one counts, all bills are well-formed and all show one cash group |
| SyrvePoll.ReduceSyrveOrderState | backend/src/syrve/syrve-state-reducer.ts:266-368 | the two-phase reducer with its local maps and sets equals the specified poll, including which inputs throw; a poll captured at another scope or revision leaves the state as it was and says which |
| SyrvePoll.DeriveLedger | backend/src/syrve/syrve-state-reducer.ts:316-341 | phase one computes the prospective ledger, the accepted and repaired bills and the diagnostics bill by bill without touching membership |
| SyrvePoll.ApplyMembership | backend/src/syrve/syrve-state-reducer.ts:352-357 | phase two opens accepted open bills and removes accepted gone ones only when closure is allowed |
| SyrvePoll.RestoreRepairs | backend/src/syrve/syrve-state-reducer.ts:344-347 | a legacy repair that cannot remove its bill keeps the old unknown record |
| SyrvePoll.PollKeepsValid | backend/src/syrve/syrve-state-reducer.ts:266-368 | a poll keeps the ledger invariant: freed within active within ledger, `open` iff active is non-empty, null fingerprint only on unknown |
| SyrvePoll.PollAdvances | backend/src/syrve/syrve-state-reducer.ts:266-368 | a poll drops no ledger id, decreases no timestamp, and an equal-version conflict stays unknown |
| SyrvePoll.EvidenceIsValid | backend/src/syrve/syrve-state-reducer.ts:258-263 | evidence that is accepted is keyed by id and valid |
| SyrvePollTheorems.PollKeepsOrWeighs | backend/src/syrve/syrve-state-reducer.ts:266-368 | a poll either leaves the state alone or is the weighing of accepted evidence, and in both cases keeps the invariant and advances the ledger |
| SyrvePollTheorems.ClosureIsAllOrNothing | backend/src/syrve/syrve-state-reducer.ts:293-358 | a removal means verified visibility, an explicit verdict for every saved bill, no unknown left in the ledger, and evidence no older than any known version |
| SyrvePollTheorems.AbsentBillBlocksEveryRemoval | backend/src/syrve/syrve-state-reducer.ts:293-358 | one saved bill missing from the read blocks every removal |
| SyrvePollTheorems.PollOpensOnlyNewest | backend/src/syrve/syrve-state-reducer.ts:283-341 | a bill a poll opens carries an open record of this table at least as new as every version known, and identical to equally new ones |
| SyrvePollTheorems.EvidenceReplays | backend/src/syrve/syrve-state-reducer.ts:232-264 | the same input read against the state it produced gives the same evidence or none |
| SyrvePollTheorems.ReplayChangesNothing | backend/src/syrve/syrve-state-reducer.ts:283-368 | an applied view applied again changes nothing, whatever mix of stale, conflicting, departed and repaired bills it holds |
| SyrvePollTheorems.ReplayedPollIsNoOp | backend/src/syrve/syrve-state-reducer.ts:232-401 | re-applying a poll under a refreshed fence is a no-op: state equal, `changed` false, no physical event |
| SyrvePollLaws.OtherPolls | backend/src/syrve/syrve-state-reducer.ts:278-285 | a poll that does not weigh evidence throws or leaves the state as it was, and for which reason, on the fields of the request and the pages |
| SyrvePollLaws.BillLeavesExactly | backend/src/syrve/syrve-state-reducer.ts:306-358 | a saved bill leaves iff visibility is verified, every saved bill was read open or closed here or explicitly on live other tables, no unknown bill was read here or without tables, no row of the next ledger is unknown, and its own gone record is newer than or identical to every known one |
| SyrvePollLaws.BillJoinsExactly | backend/src/syrve/syrve-state-reducer.ts:306-357 | a bill joins iff it was read open here, newer than or identical to every known version, and not on hold |
| SyrvePollLaws.LedgerAfter | backend/src/syrve/syrve-state-reducer.ts:308-347 | the ledger row of every bill after a poll: left by an outdated read, put on hold without print where contested, else recorded with its meaning here |
| SyrvePollLaws.RestAfter | backend/src/syrve/syrve-state-reducer.ts:360-367 | suppressions stay with the bills that stay; the last state; and the proposed revision iff something changed |
| SyrvePollLaws.StaleIsReported | backend/src/syrve/syrve-state-reducer.ts:321-322 | a stale bill is reported iff an outdated read concerns the table |
| SyrvePollLaws.UnknownIsReported | backend/src/syrve/syrve-state-reducer.ts:348-351 | unknown bills are reported iff the table is not settled, and unverified visibility iff it is not verified |
| SyrvePollLaws.ConflictIsReported | backend/src/syrve/syrve-state-reducer.ts:323-350 | a conflict is reported iff the next ledger holds a contested version |
| SyrveWebhook.ReduceSyrveWebhookOrder | backend/src/syrve/syrve-state-reducer.ts:146-230 | the loop over all linked tables equals the specified notification, including every refusal; a bill still being created, unless outdated, leaves an unknown row of its version on every table |
| SyrveWebhook.ReduceOneTable | backend/src/syrve/syrve-state-reducer.ts:165-229 | one table's share, as the loop body computes it, with the unknown row of a bill still being created |
| SyrveWebhook.WebhookKeepsValid | backend/src/syrve/syrve-state-reducer.ts:146-230 | a notification keeps the ledger invariant on every table |
| SyrveWebhook.WebhookAdvances | backend/src/syrve/syrve-state-reducer.ts:146-230 | a notification drops no ledger id and decreases no timestamp |
| SyrveWebhook.WebhookOpensOnlyNewest | backend/src/syrve/syrve-state-reducer.ts:156-164 | a bill a notification opens is at least as new as every version known on all tables |
| SyrveWebhook.TransferConservation | backend/src/syrve/syrve-state-reducer.ts:146-230 | a usable open version makes the bill active on exactly the listed linked tables, except where a table reports `unknown_orders`; no other bill moves |
| SyrveWebhook.WebhookMovesOnlyItsBill | backend/src/syrve/syrve-state-reducer.ts:141-146 | membership, suppression and ledger row of every other bill stay as they were |
| SyrveWebhook.HeldTransfersAreExplained | backend/src/syrve/syrve-state-reducer.ts:181-216 | a table reports `unknown_orders` for an opening iff this version is on hold there, or the bill sits there and cannot leave yet |
| SyrveNoticeLaws.OutdatedIsIgnored | backend/src/syrve/syrve-state-reducer.ts:156-159 | an outdated notification changes nothing on any table, says so, and emits nothing |
| SyrveNoticeLaws.LedgerAfterNotice | backend/src/syrve/syrve-state-reducer.ts:163-216 | the row of the bill on every table after a notification, on the fields of the states, the bill and the last read |
| SyrveNoticeLaws.UnplacedIsHeldEverywhere | backend/src/syrve/syrve-state-reducer.ts:163-195 | after a notification of a bill still being created every linked table holds that id at that version as unknown |
| SyrveNoticeLaws.MembershipAfterNotice | backend/src/syrve/syrve-state-reducer.ts:196-213 | the bill is active on a table afterwards iff it is open there, or was and either is not gone, or the table may not close, or its version is contested or on hold |
| SyrveNoticeLaws.RestAfterNotice | backend/src/syrve/syrve-state-reducer.ts:217-226 | suppressions stay with the bills that stay; a changed table, and only that, gets its proposed revision |
| SyrveNoticeLaws.NoticeReports | backend/src/syrve/syrve-state-reducer.ts:186-216 | conflicts and unknown bills are reported iff the version is contested, stays on hold, or the bill is gone and stays saved |
| SyrveNoticeLaws.NoticeIsTaken | backend/src/syrve/syrve-state-reducer.ts:146-181 | a notification is taken whenever it is addressed rightly, and placeable unless outdated |
| SyrveNoticeLaws.TakenNoticeFits | backend/src/syrve/syrve-state-reducer.ts:146-181 | and only then |
| SyrveSystem.StepKeepsLedgers | backend/src/syrve/syrve-state-reducer.ts:146-382 | any poll, notification, staff action or adopted configuration keeps every table's invariant and binding and advances its ledger |
| SyrveSystem.RunKeepsSystem | backend/src/syrve/syrve-state-reducer.ts:146-382 | so does any run, over any number of tables |
| SyrveSystem.RunAdvancesLedgers | backend/src/syrve/syrve-state-reducer.ts:146-382 | along any run no ledger id is dropped, no timestamp decreases, and a conflict stays unknown until a strictly newer version; tables stay bound as they were, whatever configurations are adopted |
| SyrveSystem.EvidenceIsObserved | backend/src/syrve/syrve-state.store.ts:239-247 | every bill in the evidence is one whose known versions the store looked up on all tables |
| SyrveSystem.OpeningsAreNewest | backend/src/syrve/syrve-state-reducer.ts:156-164 | whenever a bill newly becomes active on any table its version dominates the versions known on all tables |
| SyrveSystem.NoDelayedReopening | backend/src/syrve/syrve-state-reducer.ts:141-164 | no delayed poll or notification reopens a bill once any table knows a version that closes it, moves it away or is contested: a later opening is strictly newer, in any interleaving |
| SyrveSystem.OpeningSpeaksIffVisible | backend/src/syrve/syrve-state-reducer.ts:384-401 | a poll that opens a bill says `occupied` iff visibility was verified |
| SyrveSystem.StepSpeaks | backend/src/syrve/syrve-state-reducer.ts:384-401 | `occupied` is emitted iff a bill newly joined other than through a poll without verified visibility, and `free` iff the last bills left for more than legacy repairs; a pure repair is silent |
| SyrveSystem.FreeFollowsOpening | backend/src/syrve/syrve-state-reducer.ts:384-401 | in any run from a table without bills, each `free` follows an opening of that table, silent or not, with no other `free` in between |
| SyrveSystem.OccupiedExactlyWhenHeard | backend/src/syrve/syrve-state-reducer.ts:384-401 | at any point of any run an `occupied` came since the last `free` iff some opening since then was not by a poll without verified visibility |
| SyrveSystem.FreeFollowsOccupied | backend/src/syrve/syrve-state-reducer.ts:384-401 | hence in a run whose polls all verified visibility, from a table without bills, each `free` follows an `occupied` with no other `free` in between |
| SyrveSystem.AdoptionFencesOldRequests | backend/src/syrve/syrve-state.store.ts:76-82 | until the configuration revision a table left is adopted again, in whatever run, no poll or staff action captured under it changes the table or says anything |
| SyrveFence.StaffActionExactly | backend/src/syrve/syrve-state-reducer.ts:370-382 | a staff action takes effect iff its two scopes and its revision are the table's; else the state stays and the refusal names the scope first |
| SyrveFence.LatePollIsRefused | backend/src/syrve/syrve-state-reducer.ts:110-119 | a poll captured at another scope or revision leaves the state, reports no change, and emits nothing |
| SyrveFence.NothingCapturedBeforeCounts | backend/src/syrve/syrve-state-reducer.ts:110-119 | with fresh revisions, once any step has changed a table, no poll or staff action captured before it, at any earlier revision, changes anything or says anything in any later state of any run |
| SyrveFence.KnownExactly | backend/src/syrve/syrve-state.store.ts:239-247 | the versions a poll is given are those the tables of its integration and organization hold of the bills read |
| SyrveFence.StaffStep | backend/src/syrve/syrve-state-reducer.ts:370-382 | a current staff action frees its table by hand or only rotates its revision, and says nothing |
| SyrveFence.AdoptStep | backend/src/syrve/syrve-state.store.ts:76-82 | an adoption gives its table the new configuration and a new revision, unless it has it already |
| SyrveHolds.HoldKeepsFromFree | backend/src/syrve/syrve-state-reducer.ts:311-358 | from when a table holds a version unresolved, in any run, it is said to be free only by a step after which it knows a strictly newer version of that bill |
| SyrveHolds.UnplacedKeepsFromFree | backend/src/syrve/syrve-state-reducer.ts:163-195 | so a bill still being created keeps every linked table from being said to be free until a newer version of it is known there |
| SyrveWitnesses.SilentOpeningThenFree | backend/src/syrve/syrve-state-reducer.ts:384-401 | a poll without verified visibility opens a bill and its closing notification follows: `free` is the first thing the table ever says |
| SyrveWitnesses.OpenThenClosed | backend/src/syrve/syrve-state-reducer.ts:232-401 | a verified open read and then a verified closed read of one bill: `occupied`, then `free` |
| RequestLimiter.QuotaTable.Claim | backend/src/syrve/syrve-request-limiter.ts:74-113 | one claim transaction changes the login's two rows and returns the wait as specified, and touches no other login |
| RequestLimiter.QuotaTable.Cooldown | backend/src/syrve/syrve-request-limiter.ts:159-171 | an accepted cooldown only ever moves the login row forward; one out of range changes nothing |
| RequestLimiter.Acquire | backend/src/syrve/syrve-request-limiter.ts:130-157 | the bounded retry loop: a permit comes from exactly one granted claim, made last, and lives at most a second from before that claim and never past the deadline |
| RequestLimiter.RetryAfterMs | backend/src/syrve/syrve-request-limiter.ts:54-62 | the delay is the clamped number of seconds when the header is a plain count of at most nine digits, the clamped distance between the header's date and the response's or the local clock's otherwise, and one minute without a usable header (section 10.2.3 of RFC 9110) |
| RequestLimiter.ApplyKeepsBarrier | backend/src/syrve/syrve-request-limiter.ts:74-113 | quota rows never move back, the directory row never outlasts the login row, and the login row bars every earlier grant and cooldown |
| RequestLimiter.RunsAreBarred | backend/src/syrve/syrve-request-limiter.ts:74-113 | that barrier holds after any run of claims of both groups and cooldowns by any number of instances, also where a cooldown reads its clock and then waits behind a claim |
| RequestLimiter.NoPermitDuringCooldown | backend/src/syrve/syrve-request-limiter.ts:159-171 | no permit of either group is granted during a cooldown |
| RequestLimiter.GrantsAreSpaced | backend/src/syrve/syrve-request-limiter.ts:74-113 | any two granted claims of a login, of one group or of both, lie the applicable gap apart |
| RequestLimiter.SendIsPrompt | backend/src/syrve/syrve-request-limiter.ts:146-151 | a dispatch made under a permit returned by the loop leaves less than a second after the claim that granted it |
| RequestLimiter.Spread | backend/src/syrve/syrve-request-limiter.ts:6-13 | permits a gap apart spread over the gap times one less than their number |
| RequestLimiter.RateBound | backend/src/syrve/syrve-request-limiter.ts:6-13 | of the dispatches made under permits the loop returned, in any run of claims and cooldowns, any 60 s window holds at most 2 conservative and at most 10 in all, any ten minutes at most 100 directory dispatches |
| LimiterLaws.ConservativeClaim | backend/src/syrve/syrve-request-limiter.ts:93-107 | a conservative claim is granted iff the login's row is due, and then bars the login for 31 s |
| LimiterLaws.DirectoryClaim | backend/src/syrve/syrve-request-limiter.ts:83-107 | a directory claim is granted iff both rows are due, and then bars both for 6.1 s; refused, it leaves only a missing login row made |
| LimiterLaws.WaitIsEnough | backend/src/syrve/syrve-request-limiter.ts:86-107 | a claim that starts when the returned wait is over is granted, unless something else claimed meanwhile |
| LimiterLaws.WaitIsNotLonger | backend/src/syrve/syrve-request-limiter.ts:86-107 | one a millisecond earlier is refused |
| LimiterLaws.CooldownIsObeyed | backend/src/syrve/syrve-request-limiter.ts:159-171 | in any run, no claim after an accepted cooldown is granted before its end |
| LimiterLaws.PermitExactly | backend/src/syrve/syrve-request-limiter.ts:135-151 | an attempt returns a permit iff it was neither aborted nor late nor refused by the guard, its claim was granted, and a second from before the claim and the deadline are ahead |
| LimiterLaws.RetriesExactly | backend/src/syrve/syrve-request-limiter.ts:152-154 | it waits and tries again iff the wait ends before the deadline |
| LimiterLaws.CancelledExactly | backend/src/syrve/syrve-request-limiter.ts:135-154 | when it is cancelled |
| LimiterLaws.LimitedExactly | backend/src/syrve/syrve-request-limiter.ts:138-152 | when the caller is told to wait, and for how long |
| LimiterLaws.RetryAfterExactly | backend/src/syrve/syrve-request-limiter.ts:54-62 | the delay a header asks for, in all its forms, brought within a minute and a day |
| LoginThrottle.DeveloperLoginThrottle.Reserve | backend/src/developer/developer-login-throttle.ts:14-28 | for a clock that does not run backwards, each call accepts iff the full history of accepted attempts admits it, though both structures are pruned |
| LoginThrottle.Decision | backend/src/developer/developer-login-throttle.ts:21-25 | the pruned structures decide exactly what the full history decides |
| LoginThrottle.WindowBounds | backend/src/developer/developer-login-throttle.ts:3-25 | at most 5 accepted attempts per address in 15 minutes, 20 overall in a minute, and 200 distinct addresses in 15 minutes |
| LoginLaws.AdmittedExactly | backend/src/developer/developer-login-throttle.ts:14-28 | an attempt is admitted iff fewer than 5 were accepted from its address in 15 minutes, fewer than 20 in a minute, and its address is known or fewer than 200 are |
| PinThrottle.StaffPinAttempts.ReserveAttempt | backend/src/staff/staff-pin-throttle.service.ts:82-138 | refused under a lock, which is reported at its latest, or with five attempts counted; otherwise inserts one pending row; however late the call runs, also after a clean-up with a later clock |
| PinThrottle.StaffPinAttempts.MarkCredentialFailure | backend/src/staff/staff-pin-throttle.service.ts:140-191 | only a still pending reservation becomes a failure, and the fifth failure in the window locks the subject for 15 minutes |
| PinThrottle.StaffPinAttempts.ClearThrough | backend/src/staff/staff-pin-throttle.service.ts:235-248 | a success erases its own reservation and earlier failures, never a failure, lock or pending row of a later reservation |
| PinThrottle.StaffPinAttempts.ReleaseReservation | backend/src/staff/staff-pin-throttle.service.ts:250-263 | a release erases only the still pending row itself |
| PinThrottle.StaffPinAttempts.CleanupStaleAttempts | backend/src/staff/staff-pin-throttle.service.ts:265-279 | retention drops only rows no later decision counts and no lock still in force |
| PinThrottle.ReserveKeepsBound | backend/src/staff/staff-pin-throttle.service.ts:94-136 | a reservation let through, at a clock no more than the lag behind the latest clean-up, keeps at most 5 standing attempts in any window shorter than 15 minutes less the lag |
| PinThrottle.EraseKeepsBound | backend/src/staff/staff-pin-throttle.service.ts:235-263 | erasing rows keeps the bound and the correspondence of rows and history |
| PinThrottle.RunsAreBounded | backend/src/staff/staff-pin-throttle.service.ts:82-138 | in any run in which reservations may trail the latest clean-up by a lag, no subject has more than 5 attempts, not erased by a success or release, in any window shorter than 15 minutes less that lag |
| PinThrottle.FullWindowsAreBounded | backend/src/staff/staff-pin-throttle.service.ts:82-138 | a run in which no clean-up overtakes a waiting reservation keeps the bound in every window shorter than 15 minutes |
| PinThrottle.LagIsTight | backend/src/staff/staff-pin-throttle.service.ts:265-279 | for every lag a run of eight steps in which six attempts stand in a window one millisecond longer than the bound allows: the theorem cannot be improved |
| PinLaws.ReservedExactly | backend/src/staff/staff-pin-throttle.service.ts:82-138 | a reservation is let through iff the subject has no lock ending later and fewer than five attempts no older than 15 minutes; it adds one pending row |
| PinLaws.FailedExactly | backend/src/staff/staff-pin-throttle.service.ts:140-191 | a failure is recorded iff the row is this subject's and pending; the fifth locks for 15 minutes |
| PinLaws.ClearedExactly | backend/src/staff/staff-pin-throttle.service.ts:235-248 | a success deletes exactly its own row and the subject's failures before it |
| PinLaws.ReleasedExactly | backend/src/staff/staff-pin-throttle.service.ts:250-263 | a release deletes exactly its own row while pending |
| PinLaws.CleanedExactly | backend/src/staff/staff-pin-throttle.service.ts:265-279 | a clean-up deletes exactly the rows whose lock is over and that were pending for 20 minutes or failed 15 minutes ago |
| OperationLease.SyrveOperations.ExpireRows | backend/src/syrve/syrve-operations.service.ts:25-28 | only the owner's lapsed rows change, to failed |
| OperationLease.SyrveOperations.InsertRow | backend/src/syrve/syrve-operations.service.ts:47-49 | a row is inserted iff the owner has no running one, as the unique index asks |
| OperationLease.SyrveOperations.Start | backend/src/syrve/syrve-operations.service.ts:43-53 | a new operation starts iff sweeping leaves the owner no live one; then its row is running for this owner and runner with a 60 s lease inside a 30 min budget |
| OperationLease.SyrveOperations.Guard | backend/src/syrve/syrve-operations.service.ts:57-64 | passing means that no other operation of the owner is running, that no other runner passes, and that an outcome stored at that instant takes effect; refused means that it would change nothing |
| OperationLease.SyrveOperations.RenewLease | backend/src/syrve/syrve-operations.service.ts:92-97 | a lease is renewed iff still live, never past the operation's budget |
| OperationLease.SyrveOperations.FinishOperation | backend/src/syrve/syrve-operations.service.ts:82-86 | an outcome is stored iff the lease still holds |
| OperationLease.SyrveOperations.CleanupRetention | backend/src/syrve/syrve-operations.service.ts:30-38 | retention fails lapsed rows and forgets finished ones older than a day |
| OperationLease.SyrveOperations.Read | backend/src/syrve/syrve-operations.service.ts:98-105 | a read never shows a lapsed operation as running, nor another owner's |
| OperationLease.RunsAreConsistent | backend/src/migrations/2026100700010-CreateSyrveOperations.ts:18 | after any run of the five statements by any owners and runners, each owner has at most one running row, and running rows have no outcome yet |
| OperationLease.OneGuardPerOwner | backend/src/syrve/syrve-operations.service.ts:57-64 | after any run, at any instant at most one operation of an owner passes its guard |
| OperationLease.LapsedForGood | backend/src/syrve/syrve-operations.service.ts:57-97 | once an operation has lapsed, no continuation of the run lets it pass again, be renewed, or store `done` |
| OperationLease.FinishedForGood | backend/src/syrve/syrve-operations.service.ts:82-86 | along any continuation of a run, a finished row is either forgotten or exactly as it was |
| LeaseLaws.ExpiredExactly | backend/src/syrve/syrve-operations.service.ts:25-28 | expiring fails exactly the owner's rows that run past lease or budget |
| LeaseLaws.ForgottenExactly | backend/src/syrve/syrve-operations.service.ts:30-38 | a sweep forgets exactly the owner's finished rows older than a day; a fresh result survives |
| LeaseLaws.InsertedExactly | backend/src/syrve/syrve-operations.service.ts:43-53 | an operation is inserted iff its id is new and its owner has none running, with a minute's lease within half an hour |
| LeaseLaws.RenewedExactly | backend/src/syrve/syrve-operations.service.ts:92-97 | a renewal extends exactly a held lease, to a minute from now or the end of the budget |
| LeaseLaws.RenewalKeepsAlive | backend/src/syrve/syrve-operations.service.ts:92-97 | a lease renewed within a minute of the last renewal is held until the budget ends |
| LeaseLaws.FinishedExactly | backend/src/syrve/syrve-operations.service.ts:82-86 | an outcome is stored exactly under a held lease |
| Catalog.By | backend/src/syrve/syrve-catalog.ts:88-97 | the grouping loop computes the left fold that appends each value to its key's list |
| Catalog.GroupMeaning | backend/src/syrve/syrve-catalog.ts:88-97 | a key is present iff some value has it, and its list has one entry for each place that holds such a value, and no other values |
| Catalog.MoloNumber | backend/src/syrve/syrve-catalog.ts:98-103 | a table number is supported iff, trimmed, it is decimal digits standing for a 32-bit non-negative integer, and then it is that integer |
| Catalog.LeadingZerosDoNotMatter | backend/src/syrve/syrve-catalog.ts:98-103 | leading zeros do not change the number a label stands for |
| Catalog.BuildSyrveCatalogPreview | backend/src/syrve/syrve-catalog.ts:106-144 | the preview loops compute the specified proposals, missing tables and conflicts |
| Catalog.ProposalsPreserveNumbers | backend/src/syrve/syrve-catalog.ts:134-142 | a proposal pairs an active provider table with a row of the same number |
| Catalog.ProposalsInjective | backend/src/syrve/syrve-catalog.ts:134-142 | no two proposals share a provider table or a row |
| Catalog.SoleClassification | backend/src/syrve/syrve-catalog.ts:134-142 | a table that can be judged alone is proposed, missing or contested by whether one, none or more rows carry its number |
| Catalog.ClassificationIsExact | backend/src/syrve/syrve-catalog.ts:119-142 | every active provider table is exactly one of proposed, missing or in some conflict |
| Catalog.BuildSyrveMappingPreview | backend/src/syrve/syrve-mapping-preview.ts:4-18 | a pair stays iff no saved link uses its row and none of this organization its provider table; a dropped pair is already confirmed or reported |
| Catalog.OfferedPairsJoinSavedLinks | backend/src/syrve/syrve-mapping-preview.ts:8-18 | the pairs left, together with the organization's saved links, pair each table at most once and preserve numbers |
| CatalogLaws.ProposedExactly | backend/src/syrve/syrve-catalog.ts:134-142 | a table and a row are proposed iff the number is not negative, its id occurs once in the catalogue, its number once among active tables, and exactly this row carries it |
| CatalogLaws.MissingExactly | backend/src/syrve/syrve-catalog.ts:134-142 | a table is missing iff it can be judged and no row carries its number |
| CatalogLaws.DuplicateIdReported | backend/src/syrve/syrve-catalog.ts:118-120 | an id is reported iff it occurs more than once |
| CatalogLaws.NumberReported | backend/src/syrve/syrve-catalog.ts:121-127 | a number is reported, with all its rows and tables, iff several active tables or several rows have it, or an active table has it below zero |
| CatalogLaws.UnsupportedRowReported | backend/src/syrve/syrve-catalog.ts:128-130 | a row is reported on its own iff it carries no number |
| CatalogLaws.PairStaysExactly | backend/src/syrve/syrve-mapping-preview.ts:8-18 | a pair stays iff no saved link uses its row and none of the organization its table |
| CatalogLaws.DroppedPairReported | backend/src/syrve/syrve-mapping-preview.ts:12-17 | a dropped pair is reported iff the first saved link of its row is another or there is none |
| LocalTime.KyivLocalDateTimeToUtc | backend/src/bookings/guest-bookings.service.ts:629-642 | the three-step loop computes the third correction of the target |
| LocalTime.ThreeCorrectionsSuffice | backend/src/bookings/guest-bookings.service.ts:629-642 | for any positive offset with at most one change in reach, the result shows the target time iff the clock shows it at all |
| LocalTime.AmbiguousTimeIsLater | backend/src/bookings/guest-bookings.service.ts:629-642 | a time shown twice resolves to the later instant |
| LocalTime.SkippedTimeUsesLaterOffset | backend/src/bookings/guest-bookings.service.ts:629-642 | a skipped time is read with the offset in force after the change, and shows an earlier time |
| BookingTime.StoredTimeReadsBack | backend/src/bookings/bookings.service.ts:126-150 | a stored booking time parses back to the minutes it was formatted from, within the day |
| BookingTime.TimeLabelReadsBack | backend/src/bookings/bookings.service.ts:152-156 | so does the label shown to guests |
| BookingTime.AcceptedTimeIsStored | backend/src/bookings/bookings.service.ts:158-177 | a time accepted at creation is stored as the same minutes |
| BookingTime.NormalizedTimeIsCanonical | backend/src/bookings/booking-reschedule-approval.service.ts:241-247 | a requested new time, once normalized, is readable and in the very form creation stores |
| BookingTime.SecondsDoNotMoveTime | backend/src/bookings/availability-blocks.service.ts:561-574 | adding seconds to a block's bounds does not move them |
| BookingTime.NormalizeDuration | backend/src/bookings/bookings.service.ts:120-124 | a length from 30 to 720 minutes is kept up to rounding, shorter ones become 30, longer ones 720, and missing, zero and non-finite ones two hours |
| BookingTime.RemarksKeepDuration | backend/src/bookings/bookings.service.ts:179-195 | the system text in the remarks alone gives every service the stored length back |
| BookingTime.ReadersAgree | backend/src/bookings/admin-attention.service.ts:456-466 | on any row the bookings and requests services read the same length, unless the minutes are missing and the remarks give one time twice |
| BookingTime.BlocksReaderAgrees | backend/src/bookings/availability-blocks.service.ts:612-617 | the blocks service reads the same length as the bookings service iff the minutes are stored, or the bracketed times can be read and say what the stated length says |
| TimeLaws.TimeReadExactly | backend/src/bookings/bookings.service.ts:126-150 | a time is read from what stands before its first and second colon, spaces aside, below 24 and 60 |
| TimeLaws.NewTimeTakenExactly | backend/src/bookings/booking-reschedule-approval.service.ts:241-247 | a new time is taken iff, spaces around it aside, it is hours and minutes of the clock, with seconds or without; they are set to zero |
| TimeLaws.LengthTakenExactly | backend/src/bookings/bookings.service.ts:120-124 | missing, not finite and zero lengths are two hours; the rest is rounded and brought within half an hour and twelve hours |
| TimeLaws.StoredLengthRead | backend/src/bookings/availability-blocks.service.ts:612-617 | stored minutes from half an hour on are read alike by every service, at most twelve hours of them |
| TimeLaws.StatedLengthRead | backend/src/bookings/availability-blocks.service.ts:612-617 | without them the blocks service reads the stated length, and two hours where there is none |
| TimeLaws.BracketedLengthRead | backend/src/bookings/admin-attention.service.ts:456-466 | the other two read the bracketed times, two hours where there are none, and throw where these cannot be read |
| BookingService.Reservations.HasConflict | backend/src/bookings/bookings.service.ts:243-282 | the search finds a conflict iff some active booking at the table, own or assigned, on the date and not excepted stands in the slot's way |
| BookingService.Reservations.HasBlock | backend/src/bookings/availability-blocks.service.ts:469-485 | the search finds a block iff one on the table or its zone covers part of the slot |
| BookingService.Reservations.HasOtherBooking | backend/src/bookings/bookings.service.ts:69-118 | the search finds another booking iff some pending or approved one on the date has the same phone or the same device |
| BookingService.Reservations.AssertBookable | backend/src/bookings/availability-blocks.service.ts:164-188 | the check before a creation looks a table up by id and else by the trimmed number, and passes iff it finds none, or no block covers the slot there |
| BookingService.Reservations.RequestBooking | backend/src/bookings/bookings.controller.ts:45-58 | a guest's request on arrival: a number that says something must be a table's and goes on trimmed, a blank one goes on as it is; then the check and the creation, or nothing changed |
| BookingService.Reservations.RemainingStatus | backend/src/bookings/booking-table-status.ts:9-50 | a table is reserved iff an approved booking holds it that day, else pending iff a pending one does, else free |
| BookingService.Reservations.SynchronizeTable | backend/src/bookings/booking-table-status.ts:52-87 | a table that is neither closed nor, unless released, physically in use takes the status its bookings give it; no other table changes |
| BookingService.Reservations.SetTableStatusOnlyForToday | backend/src/bookings/bookings.service.ts:398-416 | only today's booking colours its table, never a closed, occupied or cleaning one |
| BookingService.Reservations.Create | backend/src/bookings/bookings.service.ts:704-759 | a guest's request: refused with nothing changed, also where a table was made on the way, if the guest has another booking that day or any check fails; else the new state exactly as specified |
| BookingService.Reservations.CreateManual | backend/src/bookings/bookings.service.ts:802-889 | a booking taken by staff: new state exactly as specified, or refused with nothing changed |
| BookingService.Reservations.CreateManualBanquet | backend/src/bookings/bookings.service.ts:942-1112 | a booking over several tables: all of them checked and assigned, or nothing changed |
| BookingService.Reservations.CoordinatedTransition | backend/src/bookings/coordinated-bookings.provider.ts:85-244 | approval and arrival: a booking that changed since its tables were read is refused; else every table is locked and checked before the row and the table statuses change |
| BookingService.Reservations.UpdateBookingStatusWithLock | backend/src/bookings/bookings.service.ts:1342-1429 | a closing is refused for a missing booking, a no-show after arrival and a completion of a rejected or cancelled one; else it stores the status of that closing and recomputes today's tables |
| BookingService.Reservations.SyncSingleTableTransferAssignment | backend/src/bookings/booking-table-assignment-transfer.ts:16-60 | the only assignment is moved, or one is added; several, or a lone non-primary one, refuse |
| BookingService.Reservations.WaiterTransfer | backend/src/bookings/bookings.service.ts:1541-1633 | a waiter's move: new state exactly as specified, arrival forgotten, both tables recomputed |
| BookingService.Reservations.TransferBooking | backend/src/bookings/availability-blocks.service.ts:251-399 | an administrator's move off a table: new state exactly as specified, or refused |
| BookingService.Reservations.ApproveTableChange | backend/src/bookings/admin-attention.service.ts:123-199 | an approved change of table: booking, request and tables updated together, or nothing |
| BookingService.Reservations.ApproveReschedule | backend/src/bookings/booking-reschedule-approval.service.ts:21-160 | an approved new time: only the booking's own table searched, booking and request updated together, or nothing |
| BookingService.Reservations.CreateBlock | backend/src/bookings/availability-blocks.service.ts:60-116 | a block is planned iff its target exists, its range is in order and no active booking is there |
| BookingSlots.ClearSlotKeepsSound | backend/src/bookings/bookings.service.ts:276-282 | a row may take a slot that is clear at each of its tables |
| BookingSlots.SoundSlotIsClear | backend/src/bookings/bookings.service.ts:276-282 | conversely an active row sits soundly only at a clear slot |
| BookingSlots.NewBookingIsWritten | backend/src/bookings/bookings.service.ts:721-757 | a new row reads back as the minutes and length it was checked with |
| BookingSlots.CreateKeepsSound | backend/src/bookings/bookings.service.ts:704-759 | a guest's request keeps every table promised at most once for every minute |
| BookingSlots.ManualKeepsSound | backend/src/bookings/bookings.service.ts:802-889 | so does a booking taken by staff |
| BookingSlots.BanquetKeepsSound | backend/src/bookings/bookings.service.ts:1020-1076 | so does a banquet, on all its tables |
| BookingSlots.PlacedExactlyWhenSound | backend/src/bookings/bookings.service.ts:350-370 | at bookable tables, a guest's only draft of the day is refused exactly when placing it would promise a table twice |
| BookingSlots.TransitChangesOneRow | backend/src/bookings/coordinated-bookings.provider.ts:153-217 | approval and arrival touch one row and not its slot |
| BookingSlots.CloseChangesOneRow | backend/src/bookings/bookings.service.ts:1431-1538 | closings touch one row, not its slot, and leave it inactive |
| BookingSlots.WaiterTransferKeepsSound | backend/src/bookings/bookings.service.ts:1541-1633 | a waiter's move keeps tables from being promised twice |
| BookingSlots.TransferKeepsSound | backend/src/bookings/availability-blocks.service.ts:288-330 | so does an administrator's move |
| BookingSlots.ApproveChangeKeepsSound | backend/src/bookings/admin-attention.service.ts:362-393 | so does an approved change of table |
| BookingSlots.RescheduleExactly | backend/src/bookings/booking-reschedule-approval.service.ts:106-150 | approving a new time keeps it iff the search the other operations make, over every table of the booking, is clear |
| BookingSlots.PlainRescheduleKeepsSound | backend/src/bookings/booking-reschedule-approval.service.ts:106-150 | without banquets approving a new time always keeps it |
| BookingLaws.PlacedExactly | backend/src/bookings/bookings.service.ts:276-370 | a draft is placed iff every table is there to be booked and no other booking in force shares a minute with it there, cleaning included, and none in force that day is for the same phone or device |
| BookingLaws.PlacedLeaves | backend/src/bookings/bookings.service.ts:721-757 | it then adds one row with the drafted date, minutes, length, guests and identity, and claims today's tables |
| BookingLaws.RequestPlacedExactly | backend/src/bookings/bookings.controller.ts:45-58 | a guest's request for a table by id or by its number within spaces is placed iff guests are admitted and the check and the searches allow it |
| BookingLaws.UnknownNumberIsRefused | backend/src/bookings/guest-table-number-validation.service.ts:16-34 | a number that says something and is no table's or is too long is refused, and so is a request that names no table |
| BookingLaws.BlankNumberMakesTable | backend/src/bookings/bookings.service.ts:299-326 | a blank number that is not empty and no table's makes a visible free table of that number |
| BookingLaws.StaffBookingExactly | backend/src/bookings/bookings.service.ts:802-889 | staff may book any table there is; the booking is approved and has no device |
| BookingLaws.BanquetExactly | backend/src/bookings/bookings.service.ts:942-1076 | a banquet names two or more different tables, all there, with its primary among them |
| BookingLaws.CheckedExactly | backend/src/bookings/availability-blocks.service.ts:164-188 | the check passes iff the time is readable, the date not past, and no block on the table or its zone meets the slot |
| BookingLaws.TransitExactly | backend/src/bookings/coordinated-bookings.provider.ts:104-217 | approval and arrival are accepted iff the booking is in force and was approved or arrived already, or every table of it is there to be booked, free of others then and, for an arrival today, not in use |
| BookingLaws.TransitLeaves | backend/src/bookings/coordinated-bookings.provider.ts:164-240 | it leaves the booking approved, with the arrival recorded, and today's tables reserved or occupied unless in use or closed |
| BookingLaws.CoordinatedExactly | backend/src/bookings/coordinated-bookings.provider.ts:104-150 | under the locks also the table, the date and all tables must be as read before |
| BookingLaws.ClosedExactly | backend/src/bookings/bookings.service.ts:1431-1538 | a closing is refused iff the booking is missing, for a no-show after arrival, and for a completion of a rejected or cancelled one |
| BookingLaws.ClosedLeaves | backend/src/bookings/bookings.service.ts:1342-1429 | the status each closing leaves, the recount of today's tables, and that a repeated completion leaves everything as it was |
| BookingLaws.WaiterMovesExactly | backend/src/bookings/bookings.service.ts:1541-1592 | a waiter may move exactly today's approved bookings, with at most one, primary, assignment, to another free table with seats and time |
| BookingLaws.WaiterMoveLeaves | backend/src/bookings/bookings.service.ts:1577-1614 | it leaves the booking at that table with its arrival forgotten, and both tables recounted in turn |
| BookingLaws.StaffMovesExactly | backend/src/bookings/availability-blocks.service.ts:251-330 | an administrator may move exactly bookings in force, not of a past day, to a table neither taken nor blocked then |
| BookingLaws.StaffMoveLeaves | backend/src/bookings/availability-blocks.service.ts:332-399 | it leaves the booking at that table with its arrival kept, and today's two tables recounted |
| BookingLaws.ChangeAskedExactly | backend/src/bookings/admin-attention.service.ts:65-121 | a guest may ask for another table while the booking is in force and nobody has arrived; asking again adds nothing |
| BookingLaws.ChangeGrantedExactly | backend/src/bookings/admin-attention.service.ts:123-199 | a request for another table is granted iff pending, for a booking in force whose guests have not arrived, to a table neither taken nor blocked then nor, today, in use |
| BookingLaws.ChangeLeaves | backend/src/bookings/admin-attention.service.ts:143-186 | the grant settles the request, moves the booking, recounts the table left and claims the next one for it |
| BookingLaws.NewTimeGrantedExactly | backend/src/bookings/booking-reschedule-approval.service.ts:43-139 | a new time is granted iff the request is pending, the booking in force and not arrived, the time readable, and its own table there to be booked, unblocked and not taken by its own bookings, and the guest free that day |
| BookingLaws.NewTimeNeverGranted | backend/src/bookings/booking-reschedule-approval.service.ts:43-95 | and no new time is granted without a request, its booking, a table, a time of the clock and a readable length |
| BookingLaws.NewTimeLeaves | backend/src/bookings/booking-reschedule-approval.service.ts:141-155 | the grant settles the request and sets the requested date and minutes, and changes nothing else |
| BookingLaws.DayBlockedExactly | backend/src/bookings/availability-blocks.service.ts:60-116 | a block for a whole day is planned iff it has a reason, is not past, its target exists and no booking in force is there |
| BookingLaws.SpanBlockedExactly | backend/src/bookings/availability-blocks.service.ts:60-116 | one between two readable times also iff they are in order and no booking in force there meets them |
| BookingLaws.RemovedExactlyOne | backend/src/bookings/availability-blocks.service.ts:138-146 | removing a block removes that block and no other |
| BookingEffects.PlacedSlot | backend/src/bookings/bookings.service.ts:158-177 | the new row holds exactly its tables at the drafted date and minutes, for the normalized length and the cleaning |
| BookingEffects.PlacedBanquet | backend/src/bookings/bookings.service.ts:1049-1076 | a banquet holds exactly the tables asked for, two or more, and marks only its own table as primary |
| BookingEffects.TransferredTables | backend/src/bookings/availability-blocks.service.ts:386-399 | today, the table left, if nobody is at it, is free iff no other booking holds it |
| BookingEffects.WaiterMovedTables | backend/src/bookings/bookings.service.ts:1588-1614 | the next table becomes reserved; the one left stays occupied or cleaning unless these guests had arrived there |
| BookingEffects.ClosedBookingFreesTable | backend/src/bookings/bookings.service.ts:1394-1425 | today's table of a closed booking, not closed itself and, short of completion, not in use, is then free iff no other booking holds it |
| BookingEffects.PlannedBlock | backend/src/bookings/availability-blocks.service.ts:107-116 | a planned block covers exactly the minutes asked for, all day without bounds, on exactly the target |
| BookingBlocks.GuardedCreateKeepsApart | backend/src/bookings/availability-blocks.service.ts:164-188 | a guarded guest request that names its table by an id or a number that is not blank never lands in planned unavailability, even at a table made for it |
| BookingBlocks.GuestRequestExactly | backend/src/bookings/bookings.service.ts:293-326 | any guest request keeps bookings out of blocks iff its table is found by id, or its number is not blank, or is no table's yet, or no block covers the slot at the table with that blank number |
| BookingBlocks.GuardedManualKeepsApart | backend/src/bookings/availability-blocks.service.ts:164-188 | nor does a guarded booking taken by staff |
| BookingBlocks.GuardedBanquetKeepsApart | backend/src/bookings/bookings.controller.ts:80-98 | nor does a banquet guarded table by table |
| BookingBlocks.TransferKeepsApart | backend/src/bookings/availability-blocks.service.ts:320-330 | nor does an administrator's move |
| BookingBlocks.ApproveChangeKeepsApart | backend/src/bookings/admin-attention.service.ts:395-414 | nor does an approved change of table |
| BookingBlocks.CreateBlockKeepsApart | backend/src/bookings/availability-blocks.service.ts:88-116 | no block is planned over an active booking, on the table or through its zone |
| BookingBlocks.WaiterTransferExactly | backend/src/bookings/bookings.service.ts:1541-1592 | a waiter's move keeps bookings out of blocks iff no block covers the slot at the new table |
| BookingBlocks.RescheduleBlocksExactly | backend/src/bookings/booking-reschedule-approval.service.ts:96-104 | an approved new time keeps bookings out of blocks iff every table of the booking is unblocked |
| BookingRuns.RunsNeverDoubleBook | backend/src/bookings/bookings.service.ts:276-282 | in any run of creations, approvals, arrivals, closings, the three transfers, blocks and requests, no two active bookings sharing a table on a date overlap, cleaning included |
| BookingRuns.RunsWithoutBanquetsNeverDoubleBook | backend/src/bookings/booking-reschedule-approval.service.ts:106-150 | nor in any run without banquets that also approves new times |
| BookingRuns.TwoBookingsNeverShareAMinute | backend/src/bookings/bookings.service.ts:276-282 | from empty books, two active bookings at one table on one date never share a minute |
| BookingRuns.RunsKeepBookingsOutOfBlocks | backend/src/bookings/availability-blocks.service.ts:88-104 | in any run without waiter moves, new times and numbers of nothing but space, no active booking overlaps a block on one of its tables or their zones |
| BookingRuns.RunsWithoutBanquetsKeepOutOfBlocks | backend/src/bookings/booking-reschedule-approval.service.ts:96-104 | nor in any run without waiter moves, banquets and numbers of nothing but space that also approves new times |
| BookingRuns.RunsAreSoundExactly | backend/src/bookings/booking-reschedule-approval.service.ts:106-150 | any run at all, banquets and new times included, keeps every table promised at most once throughout iff each new time it grants lands on a slot that is clear at every table of the booking |
| BookingRuns.RunsAreApartExactly | backend/src/bookings/bookings.service.ts:1541-1592 | any run at all keeps bookings out of blocks throughout iff no block covers the slot at the table of each waiter's move, at any table of each booking given a new time, and at each table a guest reaches by a blank number |
| BookingRuns.OverForGood | backend/src/bookings/coordinated-bookings.provider.ts:153-158 | a rejected, cancelled or completed booking never becomes active again in any run |
| BookingHistory.StepTraces | backend/src/bookings/bookings.service.ts:1342-1633 | no step drops a booking or changes its guest or length; its date and minutes change only where a pending request of its own is approved, and then to the time asked for; its tables change only in one of the three transfers of it, and then to the one it was moved to |
| BookingHistory.TimeStaysUntilRescheduled | backend/src/bookings/booking-reschedule-approval.service.ts:141-155 | along any run a booking keeps its date and minutes until a new time is approved for it |
| BookingHistory.TablesStayUntilMoved | backend/src/bookings/availability-blocks.service.ts:332-384 | along any run a booking keeps exactly its tables until one of the three transfers moves it |
| BookingHistory.GuestStays | backend/src/bookings/bookings.service.ts:158-177 | along any run a booking keeps its guest, party and length |
| BookingHistory.SettledForGood | backend/src/bookings/admin-attention.service.ts:129-132 | a settled request, for a table or for a time, stays settled through any run |
| BookingHistory.GrantedOnce | backend/src/bookings/booking-reschedule-approval.service.ts:43-51 | a new time once granted is refused again after any run |
| BookingHistory.RunsKeepOneBookingPerGuest | backend/src/bookings/entities/booking.entity.ts:35-51 | in any run, new times included, no two bookings of one date, pending or approved, have the same phone or the same device |
| BookingHistory.StepTracesStatus | backend/src/bookings/bookings.service.ts:1342-1633 | a booking's status changes only by its own approval, arrival or closing, and then to that one; its arrival is recorded only by its own arrival and forgotten only by a waiter's move of it |
| BookingHistory.NoShowIsRefused | backend/src/bookings/bookings.service.ts:1461-1487 | once arrival is recorded, a no-show is refused in any run until a waiter moves the booking |
| BookingHistory.StatusStays | backend/src/bookings/bookings.service.ts:1342-1429 | along any run that neither approves, seats nor closes it, a booking keeps its status |
| BookingHistory.ChangeGrantedOnce | backend/src/bookings/admin-attention.service.ts:129-132 | a change of table once granted is refused again after any run |
| BookingReaders.WrittenRowsLookAlike | backend/src/bookings/availability-blocks.service.ts:612-617 | on rows that store their minutes every service sees the double bookings the run theorems speak of |
| BookingReaders.TransferKeepsWhatBlocksSee | backend/src/bookings/availability-blocks.service.ts:288-330 | an administrator's move never promises a table twice on any rows, however old, as the service that judges it reads them |
| BookingReaders.TransferAsOthersSee | backend/src/bookings/availability-blocks.service.ts:288-330 | as another service reads them it does so iff the next table is clear in that service's eyes |
| BookingReaders.ChangeKeepsWhatRequestsSee | backend/src/bookings/admin-attention.service.ts:362-393 | an approved change of table keeps it on any rows as the requests service reads them |
| BookingReaders.ChangeAsOthersSee | backend/src/bookings/admin-attention.service.ts:362-393 | as another service reads them iff the next table is clear in its eyes |
| BookingReaders.WaiterAsOthersSee | backend/src/bookings/bookings.service.ts:1541-1592 | a waiter's move, which takes every row without stored minutes for two hours, keeps it as a service reads them iff the next table is clear in its eyes |
| BookingReaders.PlaceAsOthersSee | backend/src/bookings/bookings.service.ts:350-370 | among rows of any age a creation keeps tables from being promised twice, as a service reads them, iff the search is clear in its eyes; for the bookings service that is always so |
| BookingReaders.TransitKeepsWhatAllSee | backend/src/bookings/coordinated-bookings.provider.ts:153-217 | approval and arrival keep it on any rows as every service reads them |
| BookingReaders.CloseKeepsWhatAllSee | backend/src/bookings/bookings.service.ts:1431-1538 | so do closings |
| BookingReaders.RescheduleAsOthersSee | backend/src/bookings/booking-reschedule-approval.service.ts:106-150 | a new time keeps it on any rows, as a service reads them, iff the slot asked for is clear in its eyes at every table of the booking |
| BookingReaders.PlainRescheduleKeepsWhatRequestsSee | backend/src/bookings/booking-reschedule-approval.service.ts:106-150 | without banquets it does so on any rows as the requests service reads them |
| BookingReaders.WrittenRowsSitAlike | backend/src/bookings/availability-blocks.service.ts:488-530 | on rows that store their minutes every service sees the bookings in blocks the run theorems speak of |
| BookingReaders.CreateBlockAsOthersSee | backend/src/bookings/availability-blocks.service.ts:76-116 | a new block keeps bookings of any age out of it, as a service reads them, iff the comparison finds none in its eyes |
| BookingReaders.CreateBlockKeepsWhatBlocksSee | backend/src/bookings/availability-blocks.service.ts:76-116 | as the blocks service reads them it always does, and a block for a whole day as every service does |
| BookingReaders.OldRowsCanCollide | backend/src/bookings/availability-blocks.service.ts:612-617 | two old rows on which the administrator's move puts one booking onto another in the bookings service's eyes |
| BookingWitnesses.RescheduleCanDoubleBook | backend/src/bookings/booking-reschedule-approval.service.ts:106-127 | from empty books a banquet, a booking, a request and its approval promise a table twice, though everything before the approval kept the promise |
| BookingWitnesses.RescheduleCanEnterABlock | backend/src/bookings/booking-reschedule-approval.service.ts:96-104 | from empty books a banquet given a new time sits, at a table it was assigned, in a planned block |
| BookingWitnesses.WaiterSeatsGuestsInABlock | backend/src/bookings/bookings.service.ts:1541-1592 | whatever the time of a booking taken today at an otherwise empty restaurant, a block planned on the other table does not keep a waiter from moving the guests into it |
| BookingWitnesses.WaiterCanEnterABlock | backend/src/bookings/bookings.service.ts:1541-1592 | in particular from empty books, at six in the evening |
| BookingWitnesses.BlankNumberCanEnterABlock | backend/src/bookings/availability-blocks.service.ts:439-450 | from empty books: a guest asks for a table by one space, and it is made; staff plan it as unavailable; another guest asks by the same space and sits in the block, though everything before kept out of it |

## Left out

- BookingService.Reservations.Create: the restaurant being open and the guest not being banned are one boolean input; the client's phone is taken to equal the booking's normalized one, and the uniqueness of a new table's number in its canonical form is taken for granted.
- BookingService.Reservations.RequestBooking: the advisory lock taken for a blank number is keyed by the id in the request instead of the table, so that such a request is serialized with others at that table only by the row lock of the creation; the model takes it as one step all the same.
- BookingService.Reservations.CreateManual: whether the guest is banned is a boolean input, and the date's format is not checked.
- BookingService.Reservations.CreateManualBanquet: whether the guest is banned is a boolean input; the assignment table is taken to exist in the database.
- BookingService.Reservations.UpdateBookingStatusWithLock: timestamps, reasons, remarks and histories of a closing are not kept.
- BookingService.Reservations.CreateBlock: its searches and its insert are one atomic step, as the advisory lock around it intends.
- BookingTime.RemarksKeepDuration: what the two text patterns find in the remarks is an input; that guests' own text comes after the system's lines is taken from the order in which they are joined.
- BookingTime.StoredTimeReadsBack: JavaScript's number syntax beyond plain decimal digits (signs, exponents, hexadecimal) is read as malformed.
- BookingRuns.RunsNeverDoubleBook: tables are neither deleted nor moved to another zone during a run, and a booking never extends past midnight into the next date, as in the code.
- Bookings.Resolve: table numbers are taken to be unique. The database asks that only within a zone and for numbers of digits in canonical form, so two tables without a zone, or in two zones, may share a number that is not digits; which of them a look-up by number finds is not modelled.
- BookingRuns.RunsKeepBookingsOutOfBlocks: overlap between two blocks is not excluded, because the code does not exclude it.
- OperationLease.SyrveOperations.Start: composes its three statements in one call with three clock readings; that other statements may fall between them is in the run theorems, whose events are the single statements.
- RequestLimiter.Acquire: the local monotonic clock shares the database's time line, and each attempt's waits, guard and abort signals are inputs.
- RequestLimiter.RetryAfterMs: parsing the two headers as dates is an input.
- SyrveSystem.NoDelayedReopening: notifications delivered in one transaction are consecutive steps, and linking or unlinking a table during a run is not modelled.
- SyrveState.CopyState: UUID syntax and case folding; ids are opaque, and the sorted arrays are sets and maps.
- SyrveParser.ParseSyrveOrders: JSON shapes are inputs: a field of the wrong shape is absent.
- Catalog.BuildSyrveCatalogPreview: MOLO rows without a provider table, sections, names and the summary counts.
- Reading the catalogue and provider versions, HTTP, notifications, logs, histories, permissions and the frontend: they carry data to and from the parts above and decide nothing the theorems speak of.
- The legacy status projection kept for compatibility tests, and the raw approval, arrival and reschedule methods that the coordinated services replace.
- Automatic completion of past days' bookings: on each booking it is the closing `Complete` at a time a timer sets, which the run theorems allow; how it then recomputes the tables' statuses is not modelled.
- Table statuses as a global invariant: creation writes them directly instead of recomputing, so only the synchronizing steps are stated.
