# Verification of the hotel backend's booking, payment and inventory protocol

This project models the transactions of a hotel backend and proves what they keep over every run. One
shared state holds reservations, inventory rows per room type and night, hold rows, payments, refunds,
the coin ledger, the audit trail and a clock. The same facts are kept twice in that state (sold
counters and confirmed stays, hold rows and pending bookings, balances and ledger, stored webhook
answers and their effects), and the code argues from row locks, clock order and unique indexes that
the copies agree. Here that argument is made precise and checked for every order of steps.

Verify with `dafny verify dfyconfig.toml`.

## How it is laid out

- `Tables`, `Lifecycle`, `Inventory`, `Coins`, `Transactions`: the rows, and one function per
  transaction from the rows it starts from to the rows it leaves. `Apply` is one step of the system,
  `Run` a sequence of them.
- `Invariants`, `StayProofs`, `StaySteps`, `Capacity`, `PaymentProofs`, `CoinProofs`, `TrailProofs`,
  `Runs`: what every step keeps, one aspect at a time, and the theorems about whole runs.
- `BookingOutcomes`, `PaymentOutcomes`: what each operation comes to for the guest, said in the columns of
  the rows: when it commits, what it leaves, what it costs, and what stays as it was.
- `Storage` and the `*Ops` modules: the services as the backend writes them, classes that change the
  tables statement by statement, with rollbacks and loops. Every method is proved to leave the tables
  the transaction function says, so the theorems about runs are theorems about these methods.
- `StaleWrites`, `LateCoins`, `StaleRuns`: operations whose reading lies before the writes, and coin
  postings over a balance read before, with anything in between; `ExtensionWrites`: the two writes of an
  extension; `ChargeProofs`: when a kept charge is still money.
- `Interleaving`: bookings, confirmations and expiries cut into lock, check, write and commit
  statements that interleave freely. `LockOrder`: the row locks and deadlock.
- `Webhook`, `Idempotency`, `Canonical`: deliveries, quotes, claims, takeovers, crashes and sweeps, and
  the canonical request body.
- `ExpiryQueue`, `RateLimit`, `AvailabilityQueries`, `Pricing`, `Membership`: the expiry job, the rate
  limiter, search and quotes, and membership expiry.
- `Counterexamples`, `StaleClock`, `PaidRuns`: concrete runs for what the code does not guarantee.

Money is in paise, times in milliseconds, dates in day numbers. A row's id is its position in its
table. Row locks, unique indexes, the failing update of a missing row and all-or-nothing commit are
taken as given. Unless a module says otherwise, a transaction is one atomic step that reads the clock
at that step; in `Runs` this includes the readings of the admin services, which `StaleWrites` takes apart.

## What the code does not guarantee

Each of these is proved; where there is a condition under which the code is right, it is the exact one.

- The admin services read the booking, its payments and its refunds before their transaction, take no
  lock and write without a second look. Acceptance, cancellation and no-show keep the tables in
  agreement exactly when the status is still the one read, and a refund exactly when, besides, the
  amount still remains (`StaleWrites.PlayKeepsExactly`). Otherwise an acceptance over an expiry confirms a
  stay without selling its rooms, a cancellation over a confirmation leaves rooms sold to nobody, a
  no-show over a cancellation counts no rooms, and two refunds give back more than was paid
  (`StaleRuns.AcceptanceRun`, `StaleRuns.CancellationRun`, `StaleRuns.NoShowRun`,
  `StaleRuns.RefundRun`).
- Coins are posted over a balance read without a lock, by bookings, expiries, cancellations, credits and
  adjustments. Balance and ledger agree exactly when nobody has posted since the reading
  (`LateCoins.LatePostKeepsAccountsExactly`, `LateCoins.PostingKeepsExactly`). Two bookings can spend the
  same coins, and of two adjustments one can get lost (`StaleRuns.RedemptionRun`, `StaleRuns.AdjustmentRun`).
- An extension writes the expiry of the booking and that of its hold rows one after the other, without a
  transaction. When extensions overlap the two agree in the end exactly when the last write to either
  says the same (`ExtensionWrites.ExtensionsAgreeExactly`). Rows that lapse first give the rooms away while
  the booking still confirms unchecked, which is safe exactly when the rooms are still free
  (`ExtensionWrites.CrossedExtensionsLapse`, `ExtensionWrites.LapsedRowsOversellExactly`).
- A success event can confirm a booking with a payment that has been refunded in full, and one flagged
  for refund keeps its flag when it confirms. Kept charges are money exactly when no refunded payment is
  confirmed with (`ChargeProofs.RunKeepsMoneyExactly`, `PaidRuns.RefundedPaymentConfirms`,
  `PaidRuns.FlaggedPaymentConfirms`).
- Extending a hold, and accepting a booking as an administrator, look at neither the clock nor the
  rooms. They are safe exactly when the hold is still live or its rooms are free again
  (`Capacity.ExtendOversellsExactly`, `Capacity.AcceptOversellsExactly`,
  `Counterexamples.LapsedExtensionOversells`, `Counterexamples.LapsedAcceptanceOversells`).
- A confirmation reads its clock before it waits for the reservation lock, so an on-time approval can
  come after its hold has lapsed. It is safe exactly when the hold is live on the real clock at that
  point or the rooms are free (`Interleaving.MoveKeepsSys`,
  `Interleaving.UntimelyConfirmationOversells`, `StaleClock.StaleClockOversells`).
- Taking over a stalled webhook claim does not renew its age. Processing happens once exactly as long
  as no event is taken from a claimant that can still commit (`Webhook.MoveKeepsOnce`,
  `Webhook.StalledEventCanCommitTwice`, `Webhook.DoubleCommitIsReachable`). A claimant is counted as
  alive for the 15 s it may wait for a transaction slot plus the 20 s the transaction may last.
- A repeated request is answered with its booking only if its quote was read before the booking committed.
  One sent after that, as for a lost response, finds the quote used and is refused, whatever its key says
  (`Idempotency.RepeatReplaysExactly`, `Idempotency.LateRepeatIsRefused`).
- When a booking commits but its acknowledgement is lost, the service releases the completed claim. Then a
  repeated request whose quote was read before books a second time, and a later one does with another
  quote. Claims and bookings agree exactly as long as no such claim is released within its day
  (`Idempotency.MoveKeepsInv`, `Idempotency.LostAnswerBooksTwice`, `Idempotency.FreedKeyBooksAnew`).
- Committing does not look at whether the quote has been used, so requests under two keys that read one
  quote both book from it. Quotes yield one booking each exactly as long as no booking commits from a used
  one (`Idempotency.MoveKeepsQuotesSingle`, `Idempotency.QuoteBooksTwice`).
- The late path checks items one at a time. That is enough on all tables exactly when no two items share
  a night, and no reachable booking has two items (`Capacity.LateCheckSufficesExactly`,
  `Runs.RunBooksOneItem`, `Counterexamples.ItemsShareTheLastRoom`).
- The lock order that README.md:52-54 asks for is not kept everywhere: acceptance takes
  nights and hold rows before the reservation row, cancellation its hold rows or nights, and the coin
  credit the account before the reservation. Any number of transactions can get into a circle of waits
  exactly when two are at odds over one booking: a confirmation with an acceptance or cancellation, an
  expiry with an acceptance or the cancellation of a pending booking, a cancellation that refunds coins with
  the credit (`LockOrder.ServicesDeadlockExactly`, `LockOrder.AcceptanceDeadlocksExactly`,
  `LockOrder.ServicesNeverDeadlock`). And cancelling a confirmed stay takes nights in the order an UPDATE
  meets them, which is safe beside bookings exactly when that is the order of dates
  (`LockOrder.ScanDeadlocksExactly`).
- Search does not look at holds, so it can show a room type that cannot be booked, never the reverse
  (`AvailabilityQueries.ShownAgainstBookable`).
- A late confirmation does not take back coins that expiry has refunded (`CoinProofs.NotifyCoinShape`,
  `PaidRuns.CoinsStayRefunded`).

## Model

| member | source | states |
|---|---|---|
| Runs.RunOversellsExactly | src/bookings/booking-inventory.service.ts:36-201 | From an opened, empty hotel, every state along a run keeps every night within its rooms if and only if each extension and each acceptance in the run found its hold still live or its rooms free. Creations, expiries, on-time and late confirmations, cancellations, completions, no-shows and the clock need no guard |
| Runs.SoldCounterRefinesReservations | src/bookings/booking-inventory.service.ts:231-308 | After any run of transactions that read and write in one step: `soldRooms` of a night is the sum of the item quantities of the CONFIRMED, COMPLETED and NO_SHOW bookings on it, the active hold quantity is that of the pending bookings with a live hold, and each booking has exactly the hold rows its status calls for (with readings apart from their writes: StaleWrites.FreshPlaysAgree) |
| Runs.RunChargesOnce | src/payments/payment-confirmation.service.ts:260-320 | After any run of transactions that read and write in one step: two payments of one booking are never both kept charges nor both live attempts, a captured payment is flagged or its booking was confirmed, each amount is the booking total, and refunds stay within the amount (with readings apart from their writes: StaleWrites.FreshPlaysAgree) |
| Runs.RunConservesCoins | src/alter-cash/alter-cash.service.ts:99-250 | After any run: a balance is the sum of its ledger rows, non-negative and equal to the newest `balanceAfter`; a booking's REDEEM and REDEEM_REFUND rows net to 0 exactly when its trail went through EXPIRED or CANCELLED and to minus the coins redeemed otherwise; its EARN rows sum to the earnable amount exactly once it is stamped, which only a COMPLETED booking is, and to 0 before |
| Runs.RunTrailReplays | src/bookings/booking-lifecycle.ts:15-41 | After any run of transactions that read and write in one step each audit trail is a contiguous walk of legal edges (and refund self-loops) from PAYMENT_PENDING to the present status, with at most three real changes, at most one arrival in CONFIRMED and no EXPIRED after it (with readings apart from their writes: StaleWrites.FreshPlaysAgree) |
| Runs.RunHoldLifetime | src/bookings/bookings.service.ts:61-121 | With a TTL of at most an hour: a pending hold never ends later than an hour after creation, all its rows carry the reservation's expiry, and no further transaction moves the expiry back while payment is pending |
| Runs.RunKeepsHoldBound | src/bookings/bookings.service.ts:28-32 | The one-hour bound on pending holds survives any run |
| Runs.RunKeepsInv | src/payments/payment-confirmation.service.ts:48-59 | Every reachable state satisfies the stay, payment, coin and trail invariants together |
| Runs.StepKeepsInv | src/payments/reservation-lock.ts:45-63 | Any single transaction keeps those invariants, whatever it decides |
| Runs.RunOnKeepsInv | src/payments/payment-sessions.service.ts:60-64 | Whatever commits after a consistent state, the invariants hold, and no booking's terms and no payment's booking or amount are rewritten |
| BookingOutcomes.BookingCommitsExactly | src/bookings/bookings.service.ts:195-306 | A booking commits if and only if it asks for at least one room and night, its guest is known, every night from check-in up to check-out has a row and the rooms free, and the account has the coins; an unknown guest is NotFound, a full night Conflict |
| BookingOutcomes.BookingIsAsQuoted | src/bookings/bookings.service.ts:217-285 | A committed booking is a new row of the guest over the item, total, currency and coins of the quote, pending until the clock plus the TTL, with one hold row a night; the redeemed coins leave the balance and no other row changes |
| BookingOutcomes.BookingKeepsItsQuote | src/bookings/bookings.service.ts:221-238 | After a booking, whatever commits, its guest, item, total, currency and coins stay those requested, and every payment of it is over the quoted total in the quoted currency |
| BookingOutcomes.FreeRoomsUnfold | src/bookings/booking-inventory.service.ts:36-43 | Without hold rows a night has its rooms less the blocked and sold ones; one more hold row takes its quantity if and only if it is for that night, expires after the clock and its booking is still pending |
| BookingOutcomes.ExtensionTellsTheExpiry | src/bookings/bookings.service.ts:61-110 | A guest is told the expiry the hold has afterwards: the present one with more than 20 minutes left, else 15 minutes more but at most an hour from creation; nothing is written and nothing told if and only if the booking is not pending or that is no longer ahead; a missing or foreign booking is NotFound |
| BookingOutcomes.ExtensionReachesItsRows | src/bookings/bookings.service.ts:96-107 | Every hold row of the booking carries the expiry told to the guest, and no other row of any table changes |
| BookingOutcomes.ExpiryReleasesLapsedHolds | src/bookings/bookings.service.ts:434-478 | Expiry happens if and only if the booking is pending and its expiry is not after the clock; then it is EXPIRED, its hold rows are gone and nobody else's, and no counter, payment or refund changes; otherwise no row changes |
| BookingOutcomes.ExpirySparesLiveHolds | src/bookings/bookings.service.ts:446-461 | A hold that still lasts when its row is locked is left alone |
| BookingOutcomes.ExpiryGivesCoinsBack | src/alter-cash/alter-cash.service.ts:137-186 | The guest of an expired booking has exactly the redeemed coins back: a pending booking cannot have had them back before |
| BookingOutcomes.StayOperationsCommitExactly | src/admin/bookings/admin-bookings.service.ts:166-366 | Acceptance commits if and only if the booking is pending, no-show and completion if and only if it is confirmed, cancellation if and only if it is Pending, pending payment or confirmed; each refusal has its error |
| BookingOutcomes.AcceptanceConfirms | src/admin/bookings/admin-bookings.service.ts:174-195 | An accepted booking is confirmed at the clock, has no expiry and no hold rows, and no payment or coin moves |
| BookingOutcomes.StayEnds | src/bookings/bookings.service.ts:539-552 | Completion and no-show rewrite the status, add one row to the trail and change nothing else |
| BookingOutcomes.CancellationFreesTheStay | src/admin/bookings/admin-bookings.service.ts:206-247 | A cancelled booking has no hold rows and no expiry, the counters of a confirmed one fall by exactly its demand, and its guest has the redeemed coins back unless they came back before |
| BookingOutcomes.CreditPaysWhatWasEarned | src/alter-cash/alter-cash.service.ts:188-269 | A completed booking not yet stamped is stamped, its guest's balance rises by exactly what it earns, and its EARN rows sum to that |
| BookingOutcomes.CreditHappensOnce | src/alter-cash/alter-cash.service.ts:202-233 | A booking that is not completed or is stamped is not credited, and crediting twice is crediting once |
| BookingOutcomes.CompletionPaysTheGuest | src/bookings/bookings.service.ts:522-558 | A confirmed stay that is completed ends COMPLETED and stamped, with the guest richer by exactly what it earns |
| BookingOutcomes.AdjustmentMovesBalanceExactly | src/alter-cash/alter-cash.service.ts:271-313 | An adjustment is made if and only if it is not zero, the account is there and the balance stays non-negative; then that balance moves by the amount and one ledger row says so |
| BookingOutcomes.RedemptionTakesTheCoins | src/alter-cash/alter-cash.service.ts:99-134 | A redemption succeeds if and only if there is nothing to redeem or the account has that many coins; then exactly those leave it |
| PaymentOutcomes.PreparationNeedsTheHold | src/payments/payment-sessions.service.ts:116-135 | A checkout is prepared if and only if the booking is the guest's, pending, and its hold outlasts the clock by more than the margin; else NotFound or Conflict |
| PaymentOutcomes.PreparationPicksTheAttempt | src/payments/payment-sessions.service.ts:137-179 | A live attempt younger than the stale age is handed out again and nothing is written; an older one fails and a new one over the booking total takes its place |
| PaymentOutcomes.PreparationOpensAnAttempt | src/payments/payment-sessions.service.ts:166-179 | A booking without a live attempt gets a new pending one over its total and currency, and no payment changes |
| PaymentOutcomes.PublicationNeedsTheHold | src/payments/payment-sessions.service.ts:205-241 | A session is published if and only if its attempt is pending and its booking still pending with more hold left than the margin; otherwise an attempt that is pending fails, and nothing else changes |
| PaymentOutcomes.RejectionFailsTheAttempt | src/payments/payment-sessions.service.ts:272-277 | A rejected session fails its attempt if that is still pending and changes nothing else |
| PaymentOutcomes.EventIsRejectedExactly | src/payments/payment-confirmation.service.ts:197-230 | An event is rejected, and changes nothing, if and only if it matches no payment of its booking in amount and currency, or succeeds for a booking that is neither pending, expired nor confirmed; each reason has its cause |
| PaymentOutcomes.SuccessIsOnRecord | src/payments/payment-confirmation.service.ts:260-320 | A success over the right amount for a booking that is pending, expired or confirmed leaves its payment CAPTURED, with the booking confirmed or the payment due back, and no other payment changed |
| PaymentOutcomes.SuccessConfirmsExactly | src/payments/payment-confirmation.service.ts:292-422 | A success confirms an unconfirmed booking if and only if its attempt had not failed and its hold is live or every night still has the rooms; otherwise the payment is captured and flagged, with the reason, and nothing else changes |
| PaymentOutcomes.SecondPaymentIsDueBack | src/payments/payment-confirmation.service.ts:266-284 | For a confirmed booking, the payment captured already is answered again without a change and any other is captured, flagged and answered as a duplicate |
| PaymentOutcomes.FailureFailsTheAttempt | src/payments/payment-confirmation.service.ts:232-258 | A failure leaves a captured payment as it is and fails any other; no booking and no other payment changes |
| PaymentOutcomes.CancellationFlagsTheMoney | src/admin/bookings/admin-bookings.service.ts:219-234 | A cancellation asked to refund flags exactly the booking's captured and partially refunded payments, so that none is a kept charge; without the request no payment changes |
| PaymentOutcomes.LateCancellationFlagsWhatItRead | src/admin/bookings/admin-bookings.service.ts:199-234 | Written late, it flags exactly the payments that held money when they were read, on whatever they have become |
| PaymentOutcomes.FreshCancellationKeepsNoCharge | src/admin/bookings/admin-bookings.service.ts:199-249 | Whatever commits between reading and writes, a cancellation asked to refund that finds the status it read leaves no kept charge of the booking |
| PaymentOutcomes.SettledKeepsNoNewCharge | src/payments/payment-confirmation.service.ts:425-452 | Whatever commits, a booking that is confirmed or has ended comes by no further charge to keep |
| PaymentOutcomes.ChargesAreKeptByConfirming | src/payments/payment-confirmation.service.ts:425-452 | Only a transaction on a booking not yet confirmed makes a payment a kept charge |
| PaymentOutcomes.RefundCommitsExactly | src/admin/bookings/admin-bookings.service.ts:251-286 | A refund commits if and only if the payment is the booking's, holds money, and the amount asked for, or all that is left, is positive and within what is left; else NotFound or BadRequest |
| PaymentOutcomes.RefundAddsUp | src/admin/bookings/admin-bookings.service.ts:288-324 | What is left falls by exactly the amount; the payment is REFUNDED and settled if and only if nothing is left, and PARTIALLY_REFUNDED and due back otherwise; no room, hold or coin moves |
| StaleWrites.PlayKeepsExactly | src/admin/bookings/admin-bookings.service.ts:166-355 | With readings outside the transactions that write, and coin postings apart from the balances they were computed from, any number of them open at once and any other transactions in between: every state satisfies the stay, payment, coin and trail invariants if and only if every write finds the status it read, the money it refunds still there, and the balance it posts over |
| StaleWrites.FreshPlaysAgree | src/admin/bookings/admin-bookings.service.ts:166-355 | After any such play whose writes find what was read: counters and hold rows agree with the bookings, no double charge, refunds within the amount, balances equal to the ledger, trails that replay |
| StaleWrites.PlayOversellsExactly | src/admin/bookings/admin-bookings.service.ts:166-197 | After any such play every state keeps every night within its rooms if and only if each late extension and acceptance found its hold still live, its rooms free, or nothing to revive |
| StaleWrites.MoveKeepsExactly | src/admin/bookings/admin-bookings.service.ts:456-463 | One reading, write, posting or other transaction keeps the invariants if and only if it is not a write over something that has changed |
| StaleWrites.StatusWriteKeepsExactly | src/admin/bookings/admin-bookings.service.ts:166-249 | Acceptance, cancellation and no-show, written late, keep the invariants if and only if the status is still the one read and, when a cancellation refunds coins over a balance read earlier, so is that balance |
| StaleWrites.RefundWriteKeepsRefundsExactly | src/admin/bookings/admin-bookings.service.ts:251-324 | A refund written late keeps refunds within the amount if and only if that much still remains |
| StaleWrites.RefundWriteKeepsExactly | src/admin/bookings/admin-bookings.service.ts:251-324 | It keeps all invariants if and only if moreover the status is still the one read |
| StaleWrites.ImmediateWriteIsAtomic | src/admin/bookings/admin-bookings.service.ts:166-355 | An operation that writes at once is the transaction that reads and writes in one step |
| LateCoins.LatePostKeepsAccountsExactly | src/alter-cash/alter-cash.service.ts:107-134 | A posting over a balance read earlier keeps balances and ledger together if and only if the balance is still the one read |
| LateCoins.PostingKeepsExactly | src/alter-cash/alter-cash.service.ts:99-250 | A booking with redemption, an expiry or a credit, carried out over a balance read earlier, keeps all invariants if and only if it comes to no posting or the balance is still the one read |
| LateCoins.FreshPostingIsPlain | src/alter-cash/alter-cash.service.ts:99-250 | Over the balance that is there it is the transaction that reads and writes in one step |
| LateCoins.QuietPostingIsPlain | src/alter-cash/alter-cash.service.ts:99-250 | When it comes to no posting it is that transaction too, or a booking that failed and changes nothing |
| StaleWrites.ExtendWriteKeeps | src/bookings/bookings.service.ts:61-121 | An extension keeps all invariants however late it is written |
| StaleWrites.LateExtensionShrinksExactly | src/bookings/bookings.service.ts:92-121 | A late extension stays within the hour, never proposes less than it read, and moves a hold back if and only if somebody has meanwhile extended past its proposal |
| StaleWrites.LateExtensionOversellsExactly | src/bookings/bookings.service.ts:92-121 | A late extension keeps every night within its rooms if and only if the hold it rewrites is live, its rooms are free, or it revives nothing |
| StaleWrites.PlayKeepsHoldBound | src/bookings/bookings.service.ts:28-121 | With a TTL of at most an hour, no hold is pending past an hour after creation after any such play whose writes find what was read |
| ExtensionWrites.ExtensionsAgreeExactly | src/bookings/bookings.service.ts:96-107 | However the two writes of any number of extensions of a pending booking are interleaved, the booking and its hold rows agree in the end if and only if the last write to either carries the same expiry |
| ExtensionWrites.LastHalvesCount | src/bookings/bookings.service.ts:96-107 | Of all those writes only the last to the reservation and the last to its rows are left |
| ExtensionWrites.CrossedExtensionsLapse | src/bookings/bookings.service.ts:87-107 | When a second extension reads the first one's new expiry and writes both its parts before the first comes to its rows, the hold is live between the two expiries while its rows have lapsed |
| ExtensionWrites.LapsedRowsOversellExactly | src/payments/payment-confirmation.service.ts:305-319 | With rows lapsed, the unchecked on-time conversion keeps every night within its rooms if and only if the rooms the rows stand for are still free |
| StaleWrites.MoveLeavesSettled | src/bookings/booking-lifecycle.ts:15-41 | However stale the writes are, a booking that is confirmed or has ended never waits for payment or is expired again |
| StaleRuns.AcceptanceOverExpiry | src/admin/bookings/admin-bookings.service.ts:166-197 | From every consistent state with an overdue hold: an expiry between reading and writes of an acceptance leaves a confirmed stay that no counter shows and a broken trail |
| StaleRuns.CancellationOverConfirmation | src/admin/bookings/admin-bookings.service.ts:199-249 | From every consistent state: any transaction that confirms between reading and writes of a cancellation leaves a cancelled stay whose rooms stay sold and a broken trail |
| StaleRuns.NoShowOverCancellation | src/admin/bookings/admin-bookings.service.ts:334-355 | From every consistent state with a confirmed stay: a cancellation written before a no-show already read leaves a no-show that no counter shows and a broken trail |
| StaleRuns.OverlappingRefunds | src/admin/bookings/admin-bookings.service.ts:251-324 | From every state in which a payment can be refunded: two refunds of all that remains, both read first, give back more than the payment |
| StaleRuns.OverlappingAdjustments | src/alter-cash/alter-cash.service.ts:271-313 | From every consistent state: of two adjustments both read first, one is lost from the balance and kept in the ledger |
| StaleRuns.OverlappingRedemptions | src/alter-cash/alter-cash.service.ts:99-134 | From every consistent state in which two bookings of a guest can each be paid with coins: over one reading of the balance both are, the balance falls by the second redemption only and the ledger by both |
| StaleRuns.AcceptanceRun | src/admin/bookings/admin-bookings.service.ts:166-197 | The first of these from a reachable state of one room |
| StaleRuns.CancellationRun | src/admin/bookings/admin-bookings.service.ts:199-249 | The second from a reachable state of one room |
| StaleRuns.NoShowRun | src/admin/bookings/admin-bookings.service.ts:334-355 | The third from a reachable state of one room |
| StaleRuns.RefundRun | src/admin/bookings/admin-bookings.service.ts:251-324 | The fourth from a reachable state of one room |
| StaleRuns.AdjustmentRun | src/alter-cash/alter-cash.service.ts:271-313 | The fifth at an opened hotel: 100 and 50 coins given at once, and 100 arrive |
| StaleRuns.RedemptionRun | src/alter-cash/alter-cash.service.ts:99-134 | 500 coins pay for two bookings of 500 each: the balance reads 0 and the ledger -500 |
| Interleaving.InterleavingsNeverOversell | src/bookings/bookings.service.ts:206-285 | With the lock, check, write and commit statements of any number of bookings, confirmations and expiries interleaved with each other and the clock, each fixing `now` before it waits for locks, every committed state keeps every night within its rooms, given timely on-time approvals |
| Interleaving.MoveKeepsSys | src/payments/payment-confirmation.service.ts:164-168 | One statement keeps the whole statement-level invariant if and only if it is not an on-time approval whose hold has lapsed on the real clock and whose rooms are gone |
| Interleaving.UntimelyConfirmationOversells | src/payments/payment-confirmation.service.ts:296-338 | Such an untimely approval, once written and committed, leaves some night oversold: the clock read before the lock wait is why |
| Interleaving.CheckIsLowerBound | src/bookings/booking-inventory.service.ts:143-201 | A check that passes under its night locks, with holds as committed and a stale clock, means that every night of the item has the rooms on the real clock |
| Interleaving.SecuredExactly | src/payments/payment-confirmation.service.ts:305-319 | A confirmation that is locking its nights has its rooms secured if and only if its hold is live on the real clock or its nights have room |
| StaleClock.StaleClockOversells | src/payments/payment-confirmation.service.ts:164-168 | A concrete interleaving of one room and two guests, from a reachable state, that ends oversold because the confirmation read its clock before waiting |
| Interleaving.ConfirmFreeRooms | src/bookings/booking-inventory.service.ts:231-272 | Committing a confirmation takes its rooms out of its own reach on its nights and changes no other night |
| Interleaving.BystanderKept | src/bookings/booking-inventory.service.ts:46-57 | A commit that stays inside the nights it has locked leaves what every other open transaction has read valid |
| Interleaving.BookingAtOnce | src/bookings/bookings.service.ts:206-285 | When the clock is where a booking read it, the check under locks approves it if and only if the one-step transaction commits, and the commit leaves the same rows |
| Interleaving.ConfirmationChoosesItsRooms | src/payments/payment-confirmation.service.ts:286-320 | A confirmation that gets its reservation goes on if and only if that is pending or expired and has an item, and sells its own holds if and only if it is pending, its expiry is after the clock it read and it has hold rows |
| Interleaving.ConfirmationAtOnce | src/payments/payment-confirmation.service.ts:286-320 | Likewise a confirmation is approved if and only if the one-step transaction accepts the payment, and commits the same rows but for the payment's |
| Interleaving.ExpiryAtOnce | src/bookings/bookings.service.ts:434-478 | An expiry that gets its reservation goes on if and only if the one-step transaction expires it, and commits the same rows |
| Capacity.StepKeepsCapacity | src/bookings/booking-inventory.service.ts:36-43 | From a consistent state within its rooms, a step leaves it within its rooms if and only if it is not an unguarded revival of a lapsed hold |
| Capacity.ExtendOversellsExactly | src/bookings/bookings.service.ts:92-121 | An extension that rewrites a hold is safe if and only if the hold is still live or its rooms happen to be free |
| Capacity.AcceptOversellsExactly | src/admin/bookings/admin-bookings.service.ts:166-197 | Admin acceptance is safe under exactly the same condition |
| Capacity.ConversionKeepsFreeRooms | src/bookings/booking-inventory.service.ts:231-272 | Converting a live hold into sold rooms leaves the free rooms of every night exactly as they were |
| Capacity.CreateKeepsCapacity | src/bookings/bookings.service.ts:206-285 | A committed booking leaves every night within its rooms |
| Capacity.NotifyKeepsCapacity | src/payments/payment-confirmation.service.ts:260-423 | No notification, on time, late, duplicate or failed, oversells a night |
| Capacity.LaterReadingsFreeMore | src/bookings/booking-inventory.service.ts:209-229 | At a later clock reading the same rows have at least as many free rooms |
| Capacity.LateCheckIsExact | src/payments/payment-confirmation.service.ts:374-412 | For items that share no night, checking each item alone passes if and only if every night has room for the whole booking |
| Capacity.LateCheckSufficesExactly | src/payments/payment-confirmation.service.ts:374-412 | For items of at least one room: on all tables that pass the check every night has room for the whole booking, if and only if no two items share a night |
| Runs.RunBooksOneItem | src/bookings/bookings.service.ts:243-261 | No reachable booking has two items |
| Counterexamples.LapsedExtensionOversells | src/bookings/bookings.service.ts:79-121 | A concrete run of one room, two guests and 46 minutes in which the extension of the lapsed hold leaves -1 free rooms |
| Counterexamples.LapsedAcceptanceOversells | src/admin/bookings/admin-bookings.service.ts:166-175 | The same run with admin acceptance in place of the extension also leaves -1 free rooms |
| Counterexamples.ItemsShareTheLastRoom | src/payments/payment-confirmation.service.ts:374-409 | Two items on one night both pass the late check with one room left, and selling them sells two rooms of one |
| StayProofs.ActiveHoldsAreLiveDemand | src/bookings/booking-inventory.service.ts:209-229 | The hold rows the availability query sums are exactly the live demand of the pending bookings, at any clock reading |
| StayProofs.FreeIsCapacityLeft | src/bookings/booking-inventory.service.ts:36-43 | Free rooms computed from counter and hold rows equal capacity less the rooms of selling and live pending bookings |
| StayProofs.MoveKeepsStays | src/bookings/booking-inventory.service.ts:231-308 | When one reservation changes and its rows and counters follow, all representations still agree |
| StayProofs.MoveShiftsFreeRooms | src/bookings/booking-inventory.service.ts:36-43 | Such a move shifts the free rooms of every night by exactly the change of that reservation's weight |
| StaySteps.StepKeepsStays | src/bookings/booking-inventory.service.ts:231-308 | Counter and hold-row agreement survive every transaction |
| StaySteps.StepMoves | src/payments/reservation-lock.ts:45-51 | Every step other than creation either leaves the stay tables alone or moves only its own reservation, rows and counters following |
| StaySteps.CreateKeepsStays | src/bookings/bookings.service.ts:226-285 | Creation appends one pending reservation with one hold row per night and keeps the agreement |
| StaySteps.ConvertMoves | src/bookings/booking-inventory.service.ts:240-272 | Converting hold rows sells exactly the booking's demand |
| StaySteps.SellMoves | src/payments/payment-confirmation.service.ts:397-412 | Selling items afresh sells exactly the booking's demand and drops its leftover hold rows |
| StaySteps.RestoreNeverClamps | src/admin/bookings/admin-bookings.service.ts:429-454 | In a consistent state the counters include a confirmed stay, so the clamp at zero never bites when it is cancelled |
| StaySteps.NotifyStays | src/payments/payment-confirmation.service.ts:197-320 | A notification leaves the stay tables alone or confirms its booking, on time or after its own availability check |
| StaySteps.NotOnTimeHoldsNothing | src/payments/payment-confirmation.service.ts:296-319 | Off the on-time path a consistent booking holds no room any more |
| StaySteps.ExtendMoves | src/bookings/bookings.service.ts:109-121 | An applied extension, its two writes taken as one step, leaves reservation and hold rows with one expiry |
| Basics.EachNightCovers | src/admin/admin.utils.ts:11-21 | The night list holds each day of the half-open range once, in order, and no other day |
| InventoryOps.CollectNights | src/admin/admin.utils.ts:11-21 | The cursor loop returns that list for any two dates, the empty list when the range is empty |
| Inventory.CheckAvailabilityExact | src/bookings/booking-inventory.service.ts:58-83 | The check passes if and only if every night is loaded and has at least the rooms needed |
| Inventory.AvailableIsFits | src/bookings/booking-inventory.service.ts:143-201 | For an item, that is the same as every night it covers having room for it |
| Inventory.BuiltDemand | src/bookings/booking-inventory.service.ts:310-324 | The hold rows built for an item take its quantity once on each of its nights and nothing elsewhere |
| Inventory.HoldsOfRelease | src/bookings/booking-inventory.service.ts:299-308 | Releasing a booking's holds removes all of its rows and none of any other booking |
| Inventory.HoldsOfRestamp | src/bookings/bookings.service.ts:115-118 | Restamping touches the rows of one booking only |
| Inventory.RestampBuilt | src/bookings/bookings.service.ts:115-118 | Restamped rows equal the rows a booking made with that expiry would have written |
| Inventory.SellItemsAddsDemand | src/bookings/booking-inventory.service.ts:281-297 | Selling a list of items raises each counter by the demand of that night and changes nothing else |
| Inventory.RestoreItemsTakesDemand | src/admin/bookings/admin-bookings.service.ts:429-454 | Restoring lowers each counter by the demand, unclamped, where the counters include it |
| InventoryOps.ShortOfLoaded | src/bookings/booking-inventory.service.ts:75-83 | Filtering the loaded nights gives exactly the short nights of the request with what is left on them |
| InventoryOps.BookingInventoryService.LockAndLoadAvailability | src/bookings/booking-inventory.service.ts:143-201 | A requested night is reported missing exactly when it has no row; the entries report, in the order of the request, just the other nights, each with its held rooms and its free rooms at the given clock |
| InventoryOps.BookingInventoryService.LockAndAssertAvailable | src/bookings/booking-inventory.service.ts:58-83 | Succeeds if and only if every night is loaded with room; otherwise reports missing nights before short ones |
| InventoryOps.BookingInventoryService.ConvertHoldsToSold | src/bookings/booking-inventory.service.ts:240-272 | Adds the held quantity to each counter, leaves no hold row of the booking, and returns how many counters moved |
| InventoryOps.BookingInventoryService.SellRooms | src/bookings/booking-inventory.service.ts:281-297 | Raises the counters of the listed nights by the quantity, and no others, and returns how many it raised |
| InventoryOps.BookingInventoryService.ReleaseHolds | src/bookings/booking-inventory.service.ts:299-308 | Deletes and counts the rows of one booking; every other booking keeps its rows |
| BookingOps.BookingsService.Admit | src/bookings/bookings.service.ts:206-217 | Admits a request if and only if it is well formed, its guest exists and every night has room at the transaction's clock |
| BookingOps.BookingsService.CreateInTransaction | src/bookings/bookings.service.ts:195-306 | All or nothing: reservation, holds, coins, consumed quote and completed claim together, or every table as before, including when the claim or quote row is gone, the number clashes or coins are short |
| BookingOps.BookingsService.CreateWithRetry | src/bookings/bookings.service.ts:163-193 | Retries only number clashes: the outcome is that of one transaction, which clashes only when all three attempts do |
| BookingOps.BookingsService.CreateBooking | src/bookings/bookings.service.ts:130-161 | A quote that is missing, of another guest, used or expired refuses the request and changes nothing. Otherwise, on whatever the tables have become by the claim, the key is afterwards bound to the booking the reply names and the quote consumed, or no table changed and the key is as free as found; a replay happens if and only if the key was completed with the same body |
| BookingOps.BookingsService.LoadConsumableQuote | src/bookings/quotes.service.ts:124-141 | Consumable if and only if it is the guest's, unused and unexpired |
| BookingOps.BookingsService.TryExtendHold | src/bookings/bookings.service.ts:61-121 | Tells the guest what the hold read calls for; when that is an extension, reservation and rows get its expiry together, on whatever the tables have become since the reading |
| BookingOps.BookingsService.ExpireReservation | src/bookings/bookings.service.ts:434-478 | Does all of the expiry transaction or none of it: only a pending booking past its expiry is EXPIRED, with its holds gone, its coins back and its trail written |
| BookingOps.BookingsService.CompleteStay | src/bookings/bookings.service.ts:522-559 | Completes in one transaction and credits in the next |
| BookingOps.CompletionIsARun | src/bookings/bookings.service.ts:522-559 | Completion followed by its credit is a run of those two transactions, so what holds along runs holds across it |
| TrailProofs.HoldNeverShrinks | src/bookings/bookings.service.ts:92-121 | No step moves the expiry of a hold back while payment is pending |
| TrailProofs.StepKeepsHoldBound | src/bookings/bookings.service.ts:222-222 | No step takes a pending hold past an hour from creation |
| TrailProofs.HourOldHoldIsDead | src/bookings/bookings.service.ts:28-32 | An hour after creation an unpaid booking takes no room away, whatever the guest did |
| TrailProofs.StepKeepsTrails | src/bookings/bookings.service.ts:464-472 | Every step extends each trail by exactly what it did to the status |
| Lifecycle.WalkChangesBounded | src/bookings/booking-lifecycle.ts:15-41 | Each real change uses up rank, so a legal trail has boundedly many |
| Lifecycle.WalkArrivesOnce | src/bookings/booking-lifecycle.ts:15-41 | A legal trail enters no status twice |
| Lifecycle.WalkNeverExpiresAfterConfirm | src/bookings/booking-lifecycle.ts:31-41 | A legal trail never enters EXPIRED after CONFIRMED |
| PaymentProofs.StepKeepsPayments | src/payments/payment-confirmation.service.ts:197-502 | Every step keeps: one kept charge, one live attempt per booking, amounts equal to totals, no unflagged charge on a booking never confirmed |
| PaymentProofs.NotifyKeepsPayments | src/payments/payment-confirmation.service.ts:260-320 | Notifications keep it in every branch, including duplicates and late successes |
| PaymentProofs.StepKeepsRefunds | src/admin/bookings/admin-bookings.service.ts:251-324 | A transaction that reads and writes in one step never lets refunds on a payment sum past its amount; StaleWrites.RefundWriteKeepsRefundsExactly says when a refund written later does not either |
| ChargeProofs.RunKeepsMoneyExactly | src/payments/payment-confirmation.service.ts:260-320 | All along a run kept charges and live attempts are unrefunded, if and only if no success event confirms a booking with a payment that has been given back in full |
| ChargeProofs.KeptChargesAreMoney | src/payments/payment-confirmation.service.ts:260-320 | After such a run the hotel still has the whole price of every booking it keeps a charge for |
| ChargeProofs.StepKeepsMoneyExactly | src/payments/payment-confirmation.service.ts:286-319 | One transaction keeps this if and only if it does not confirm with a REFUNDED payment |
| PaidRuns.RefundedPaymentConfirms | src/payments/payment-confirmation.service.ts:286-319 | A concrete run: rejected session, late success, full refund, second success event; the booking is confirmed and nothing of its kept charge is left |
| PaidRuns.FlaggedPaymentConfirms | src/payments/payment-confirmation.service.ts:286-319 | A concrete run in which a second success event confirms with a payment that stays flagged for refund |
| PaymentProofs.StepKeepsAmounts | src/payments/payment-sessions.service.ts:141-180 | No step rewrites the booking or the amount of a payment |
| PaymentProofs.StepKeepsTerms | src/bookings/bookings.service.ts:308-313 | No step rewrites the terms of a booking, and a confirmation stamp is never taken back |
| PaymentProofs.AttemptAmountNeverStale | src/payments/payment-sessions.service.ts:148-151 | In a consistent state the changed-amount branch of session preparation is never taken |
| PaymentProofs.CapturedSurvivesSessions | src/payments/payment-sessions.service.ts:116-277 | No session phase and no failure report moves a payment out of CAPTURED |
| PaymentProofs.PrepareYieldsTheLiveAttempt | src/payments/payment-sessions.service.ts:116-191 | Preparation ends with exactly one live attempt of the booking, over its total: the partial unique index cannot be violated |
| Transactions.FindLiveAttemptSound | src/payments/payment-sessions.service.ts:133-139 | The lookup finds a live attempt of the booking if there is one |
| SessionOps.SessionIsSafe | src/payments/payment-sessions.service.ts:77-114 | Whatever commits during the remote call, a session handed out is for a pending attempt over the booking total, of a booking whose hold still lasts, and no other attempt is live |
| SessionOps.PaymentSessionsService.CreateSession | src/payments/payment-sessions.service.ts:77-114 | The three phases with what commits between them are a run of transactions; a session is handed out only after a publishing third phase |
| SessionOps.PaymentSessionsService.FinishSession | src/payments/payment-sessions.service.ts:85-113 | A rejection fails the attempt, a transport failure leaves it, an ineligible publication aborts it |
| SessionOps.PaymentSessionsService.PrepareAttempt | src/payments/payment-sessions.service.ts:116-191 | Leaves the tables and gives the attempt of phase 1: a fresh live attempt is reused, a stale one is failed and replaced, an unpayable booking is refused |
| SessionOps.PaymentSessionsService.PublishOrAbort | src/payments/payment-sessions.service.ts:195-241 | Leaves the tables and gives the verdict of phase 3: publishes without a write, or fails the attempt if it is still pending |
| ConfirmationOps.PaymentConfirmationService.HandleNotification | src/payments/payment-confirmation.service.ts:69-97 | A stored answer is replayed and an in-flight event put off without any change; otherwise the event is processed once and the next delivery replays that same answer |
| ConfirmationOps.PaymentConfirmationService.Claim | src/payments/payment-confirmation.service.ts:104-156 | Insert, else replay, else take over after the takeover age, else in flight |
| ConfirmationOps.PaymentConfirmationService.Process | src/payments/payment-confirmation.service.ts:158-195 | The answer is stored with the change it describes |
| ConfirmationOps.PaymentConfirmationService.Decide | src/payments/payment-confirmation.service.ts:197-230 | Leaves the tables and gives the answer of the notification transaction: foreign payments and amount mismatches are rejected without a change |
| ConfirmationOps.PaymentConfirmationService.ApplySuccess | src/payments/payment-confirmation.service.ts:260-320 | Leaves the tables and gives the answer of the success transaction: replay, duplicate, unconfirmable, late success on a failed attempt, on time, late |
| ConfirmationOps.PaymentConfirmationService.ConfirmFromHolds | src/payments/payment-confirmation.service.ts:322-338 | Converts the holds, confirms and captures |
| ConfirmationOps.PaymentConfirmationService.ConfirmFromItems | src/payments/payment-confirmation.service.ts:347-423 | The check of all items and the sale of all items, each a loop, leave the tables and give the answer of the late confirmation; a shortage captures for refund and sells nothing |
| ConfirmationOps.PaymentConfirmationService.AllItemsAvailable | src/payments/payment-confirmation.service.ts:374-395 | The checking loop passes if and only if every night of every item is loaded with room for that item |
| ConfirmationOps.PaymentConfirmationService.SellAll | src/payments/payment-confirmation.service.ts:397-404 | The selling loop raises every counter by the demand of that night |
| Webhook.ProcessedOnce | src/payments/payment-confirmation.service.ts:48-59 | Over any deliveries, crashes, takeovers from the dead and other transactions, an event's processing commits at most once, has committed exactly when its answer is stored, and every answer ever given for it is that one |
| Webhook.MoveKeepsOnce | src/payments/payment-confirmation.service.ts:104-156 | A move keeps the single effect if and only if it does not take an event over from a claimant that can still commit |
| Webhook.DeliveryIsProcessed | src/payments/payment-confirmation.service.ts:104-155 | A first delivery, and any at least a minute after an unanswered one, can be processed at once and leaves its answer with the change; one within that minute is told to come back and changes nothing |
| Webhook.RedeliveryChangesNothing | src/payments/payment-confirmation.service.ts:74-79 | Redelivering an answered event replays its answer and changes no row |
| Webhook.FirstTakeoverIsSafe | src/payments/payment-confirmation.service.ts:26-31 | While every claimant is as old as the row, a takeover is always from the dead |
| Webhook.StalledEventCanCommitTwice | src/payments/payment-confirmation.service.ts:143-153 | A takeover does not renew the age of the claim: from any state with a stalled event, two deliveries of it can both commit |
| Webhook.DoubleCommitIsReachable | src/payments/payment-confirmation.service.ts:104-156 | From any tables and for any notification, a crashed delivery followed a minute later by two redeliveries commits the event twice |
| Idempotency.OneBookingPerKeyAndDay | src/bookings/booking-idempotency.service.ts:71-174 | Over any quotes, requests, crashes, failures and sweeps each claim row yields at most one booking, and two bookings under one key come from claims more than 24 hours apart, as long as no lost acknowledgement frees a key that was booked under |
| Idempotency.MoveKeepsInv | src/bookings/booking-idempotency.service.ts:57-70 | A quote, reading, request, commit, failure, release, crash or sweep keeps claims, quotes and bookings in agreement if and only if it does not release a claim less than a day old that has a booking behind it |
| Idempotency.PlayIsSound | src/bookings/bookings.service.ts:283-290 | Whatever happens, lost acknowledgements included: a claim is completed by the one booking it names, a worker books at most once, exactly the quotes booked from are consumed, and none was when a request that went on read it |
| Idempotency.RepeatReplaysExactly | src/bookings/bookings.service.ts:135-161 | A request with the body of a booking, its quote read at one point of a history and its claim made at a later one: it goes past its quote if and only if the quote can still be used, which is before the booking commits; it then replays the booking if and only if the booking's claim is still there; otherwise it is refused and changes nothing |
| Idempotency.LateRepeatIsRefused | src/bookings/quotes.service.ts:132-136 | Once a booking has committed, any request with its quote is refused before it claims anything, and changes nothing |
| Idempotency.LostAnswerBooksTwice | src/bookings/bookings.service.ts:148-160 | From every state in which a guest can book: when a committed booking surfaces as an error the service gives its key back, and a repeated request whose quote was read before the commit books under the same key, body and quote a second time |
| Idempotency.FreedKeyBooksAnew | src/bookings/bookings.service.ts:148-160 | A request that comes later does so with another quote |
| Idempotency.MoveKeepsQuotesSingle | src/bookings/quotes.service.ts:185-190 | Each quote goes on yielding at most one booking if and only if no booking commits from a quote already used, which the commit does not look at |
| Idempotency.QuoteBooksAgainOnlyIfReadBefore | src/bookings/bookings.service.ts:135-142 | Of two bookings from one quote the later one's request had read the quote before the earlier one committed |
| Idempotency.QuoteBooksTwice | src/bookings/bookings.service.ts:135-142 | From every state in which a guest can book under two keys: two requests that read one quote both book from it |
| Idempotency.RetryReplaysItsBooking | src/bookings/booking-idempotency.service.ts:116-121 | A repeated request past its quote check had read the quote before the booking committed; it gets that booking if and only if the claim is still there, and then changes nothing |
| Idempotency.SweptWorkerIsHarmless | src/bookings/booking-idempotency.service.ts:135-154 | In the moment its claim is swept a worker can neither commit a booking nor release its successor's claim |
| Idempotency.SweptForGood | src/bookings/booking-idempotency.service.ts:135-174 | However the history goes on after a worker lost its claim, the claim stays gone, no booking is made under it, and whatever that worker still does leaves claims and bookings as they are |
| Idempotency.GoneClaimStaysGone | src/bookings/booking-idempotency.service.ts:146-174 | A removed claim row never comes back |
| Idempotency.ReleaseSparesCompletedClaims | src/bookings/booking-idempotency.service.ts:146-154 | Releasing after a rollback never frees a key that has a booking behind it |
| IdempotencyOps.BookingIdempotencyService.Claim | src/bookings/booking-idempotency.service.ts:71-93 | The unique index decides: acquired if and only if the key was free, else no row changes |
| IdempotencyOps.BookingIdempotencyService.ResolveExistingClaim | src/bookings/booking-idempotency.service.ts:95-128 | Replays if and only if the body is the same and the claim completed |
| IdempotencyOps.BookingIdempotencyService.Cleanup | src/bookings/booking-idempotency.service.ts:156-174 | Two deletes amount to one sweep, and the counts add up to the rows gone |
| IdempotencyOps.SweepIsTwoDeletes | src/bookings/booking-idempotency.service.ts:160-174 | The expired and the stale rows are disjoint and together are what a sweep removes |
| Canonical.CanonicalExactly | src/bookings/booking-idempotency.service.ts:32-45 | Two bodies have one canonical form if and only if they are equal up to key order and undefined properties at every depth, array order counting |
| Canonical.CanonicalizeIsIdempotent | src/bookings/booking-idempotency.service.ts:32-45 | Canonicalizing twice is canonicalizing once |
| Canonical.CanonicalSaysTheSame | src/bookings/booking-idempotency.service.ts:33-45 | The canonical form says the same as the body |
| Canonical.CanonicalTellsText | src/bookings/booking-idempotency.service.ts:32-45 | Bodies with one canonical form carry the same text under any name, such as the quote token |
| Canonical.SortedListIsUnique | src/bookings/booking-idempotency.service.ts:36-43 | A set of properties has one sorted list |
| Canonical.SortFieldsHolds | src/bookings/booking-idempotency.service.ts:36-43 | The reduced object holds exactly the defined properties, canonicalized, in strictly increasing key order |
| CoinProofs.StepKeepsCoins | src/alter-cash/alter-cash.service.ts:99-313 | Every transaction keeps balances, ledger and per-booking coin rows in agreement |
| CoinProofs.PostKeepsAccounts | src/alter-cash/alter-cash.service.ts:116-134 | A posting that leaves the balance non-negative keeps balance, ledger sum and newest `balanceAfter` equal |
| CoinProofs.HasEntryIsCount | src/alter-cash/alter-cash.service.ts:157-163 | The existence test before a refund or credit is the ledger count being positive |
| CoinProofs.RefundRows | src/alter-cash/alter-cash.service.ts:137-186 | A refund posts exactly the redeemed coins once; later calls post nothing |
| CoinProofs.ReleaseKeepsCoins | src/bookings/bookings.service.ts:458-463 | Releasing a booking nets its redemption to zero |
| CoinProofs.EarnKeepsCoins | src/alter-cash/alter-cash.service.ts:188-269 | A credit is posted at most once, for the earnable amount, on a completed stay |
| CoinProofs.CreatePosts | src/bookings/bookings.service.ts:292-300 | A booking posts exactly its redemption, or nothing |
| CoinProofs.NotifyCoinShape | src/payments/payment-confirmation.service.ts:197-502 | No notification posts coins; a late confirmation does not take refunded coins again |
| PaidRuns.CoinsStayRefunded | src/payments/payment-confirmation.service.ts:347-423 | A concrete run that ends CONFIRMED after a late payment with 200 redeemed coins given back and not taken again |
| CoinOps.AlterCashService.RedeemForBooking | src/alter-cash/alter-cash.service.ts:99-135 | Succeeds if and only if the account can pay, and then balance and ledger are those of the redemption; a failure changes nothing |
| CoinOps.AlterCashService.RefundRedemption | src/alter-cash/alter-cash.service.ts:137-186 | Leaves the coin tables of the refund: the redeemed coins once, nothing on a second call |
| CoinOps.AlterCashService.CreditEarnOnComplete | src/alter-cash/alter-cash.service.ts:188-269 | Leaves the tables and the verdict of the credit: coins and stamp for a completed stay, the stamp alone when nothing was earnable |
| CoinOps.AlterCashService.AdjustBalance | src/alter-cash/alter-cash.service.ts:271-313 | Returns the new, non-negative balance or changes nothing |
| AdminOps.AdminBookingsService.Accept | src/admin/bookings/admin-bookings.service.ts:166-197 | A booking read as pending is confirmed and its hold rows sold, on whatever the tables have become since the reading, whatever the clock says; otherwise the error of the reading and no change |
| AdminOps.AdminBookingsService.Cancel | src/admin/bookings/admin-bookings.service.ts:199-249 | Writes the cancellation of what was read on whatever the tables have become: held or sold rooms back, coins back, the payments read flagged on request, trail written; otherwise the error of the reading and no change |
| AdminOps.AdminBookingsService.ReleaseStay | src/admin/bookings/admin-bookings.service.ts:207-216 | Hold rows go or sold rooms come back, by the status that was read |
| AdminOps.AdminBookingsService.RestoreSoldRooms | src/admin/bookings/admin-bookings.service.ts:429-454 | The loop lowers each counter by the demand, unclamped, where the counters include it |
| AdminOps.AdminBookingsService.FlagPayments | src/admin/bookings/admin-bookings.service.ts:219-234 | The loop flags exactly the payments that were read to hold money |
| AdminOps.AdminBookingsService.RefundPayment | src/admin/bookings/admin-bookings.service.ts:251-332 | Writes a refund judged by the rows read on whatever the tables have become: all that remained by default, never more than remained, REFUNDED when nothing remained |
| AdminOps.AdminBookingsService.ReadRefund | src/admin/bookings/admin-bookings.service.ts:251-286 | Allows a refund if and only if the payment is the booking's, holds money, and at least that much remained when read |
| AdminOps.AdminBookingsService.TotalRefunded | src/admin/bookings/admin-bookings.service.ts:267-272 | The fold sums the completed refunds of the payment |
| AdminOps.AdminBookingsService.MarkNoShow | src/admin/bookings/admin-bookings.service.ts:334-355 | A booking read as confirmed is written NO_SHOW, on whatever the tables have become; otherwise the error of the reading and no change |
| AdminOps.AdminBookingsService.Complete | src/admin/bookings/admin-bookings.service.ts:357-366 | Completes and credits a confirmed stay and rejects any other |
| ExpiryQueue.DrainExpiresExactly | src/bookings/booking-maintenance.service.ts:22-56 | Repeated ticks end, and then an overdue booking is EXPIRED without hold rows if and only if it does not itself fail and fewer than a batch of failing bookings are ahead of it in the queue |
| ExpiryQueue.FewFailuresDrain | src/bookings/booking-maintenance.service.ts:22-56 | With fewer than 100 failing bookings every other overdue one is expired in the end |
| ExpiryQueue.TickExact | src/bookings/booking-maintenance.service.ts:22-56 | A tick expires exactly the healthy candidates, returns their number, and leaves the rest queued in order |
| ExpiryQueue.TickMakesProgress | src/bookings/booking-maintenance.service.ts:34-50 | With fewer than 100 failing bookings, a tick that finds a healthy overdue booking expires something |
| ExpiryQueue.CandidatesAreTheLongestOverdue | src/bookings/bookings.service.ts:481-495 | The job picks, among the pending bookings whose expiry is before the clock, the hundred with the earliest expiry, or all of them |
| ExpiryQueue.QueueHolds | src/bookings/bookings.service.ts:481-495 | The candidate query lists each overdue booking once, longest overdue first |
| ExpiryQueue.QueueAfter | src/bookings/bookings.service.ts:481-495 | Expiring some bookings takes exactly them out of the queue and keeps the order of the others |
| MaintenanceOps.BookingMaintenanceService.ExpireHolds | src/bookings/booking-maintenance.service.ts:22-56 | An overlapping tick does nothing; any other expires exactly the healthy candidates, returns their number and hands its flag back |
| MaintenanceOps.BookingMaintenanceService.ExpireEach | src/bookings/booking-maintenance.service.ts:34-47 | The loop over the candidates, one transaction each |
| MaintenanceOps.BookingMaintenanceService.CompletePastStays | src/bookings/booking-maintenance.service.ts:60-89 | The same for completions |
| MaintenanceOps.BookingMaintenanceService.CleanupIdempotencyKeys | src/bookings/booking-maintenance.service.ts:96-109 | One sweep of the claims |
| MaintenanceOps.ExpiryJobIsARun | src/bookings/booking-maintenance.service.ts:34-47 | The expiry job commits a run of expiry transactions |
| MaintenanceOps.CompletionJobIsARun | src/bookings/booking-maintenance.service.ts:60-89 | The completion job commits a run of two transactions per stay it counts |
| LockOrder.NoDeadlock | README.md:52-54 | With every transaction taking its locks in one strictly increasing order, some unfinished transaction can always step |
| LockOrder.NoWaitCycle | src/bookings/booking-inventory.service.ts:154-168 | The wait-for graph has no cycle |
| LockOrder.StepShrinksRemaining | src/bookings/booking-inventory.service.ts:154-168 | Every step uses up work, so ordered transactions run to their end |
| LockOrder.PlansAreOrdered | src/bookings/booking-inventory.service.ts:244-256 | The lock plan of every service (booking, confirmation, expiry, session, acceptance, cancellation, credit, single-row writes) is strictly increasing in each order that puts the reservation row where the plan takes it: before the nights, before the hold rows, before the accounts or before the payments |
| LockOrder.ServicesNeverDeadlock | src/payments/reservation-lock.ts:45-51 | Any number of those transactions, wherever each stands and whatever part of its plan it needs, is neither stuck nor in a circle of waits while no two open ones are at odds over a booking and nights are met in date order |
| LockOrder.ServicesDeadlockExactly | src/payments/reservation-lock.ts:45-51 | Begun together, some of them can be led into a circle of waits if and only if two are at odds: a confirmation with an acceptance or cancellation of its booking, an expiry with an acceptance or a cancellation of it while pending, a cancellation that refunds coins with the credit of its booking |
| LockOrder.AcceptanceCanDeadlock | src/admin/bookings/admin-bookings.service.ts:174-184 | From the start of both, and by steps each of which is free to happen, an acceptance and a confirmation or an expiry of one booking are led to where neither can go on |
| LockOrder.AcceptanceDeadlocksExactly | src/admin/bookings/admin-bookings.service.ts:174-184 | An acceptance and a confirmation, and likewise an acceptance and an expiry, begun together can get stuck if and only if they are of the same booking |
| LockOrder.CrossedPlansDeadlock | src/payments/reservation-lock.ts:45-51 | Any two plans of which each can own what the other asks for next, and nothing they share before that, can be led into a circle of waits, whatever else has begun |
| LockOrder.ScanDeadlocksExactly | src/admin/bookings/admin-bookings.service.ts:429-455 | A cancellation that gives rooms back by an UPDATE can deadlock with a booking of some item if and only if it meets the nights out of date order |
| RateLimit.RateLimitService.Consume | src/auth/rate-limit/rate-limit.service.ts:17-40 | Leaves the buckets and gives the verdict of one fixed-window step, and touches no other key |
| RateLimit.AcceptedExactly | src/auth/rate-limit/rate-limit.service.ts:17-40 | A call is accepted if and only if its bucket is new, has run out or is not full; it is then counted and told the limit less that count; a refusal changes no bucket |
| RateLimit.RetryTimeIsRight | src/auth/rate-limit/rate-limit.service.ts:26-35 | A caller who waits the seconds told is accepted, and one who waits a second less is refused |
| RateLimit.AttemptsLeftExactly | src/auth/rate-limit/rate-limit.service.ts:38-39 | As many more calls as the answer says are accepted in the open window, and the next one is refused |
| RateLimit.BucketWindowBound | src/auth/rate-limit/rate-limit.service.ts:21-39 | Each bucket window, whenever it was opened, accepts at most `limit` calls in all, and the next one opens only after it has closed |
| RateLimit.AnyWindowLengthBound | src/auth/rate-limit/rate-limit.service.ts:17-40 | Every half-open interval of one window length accepts at most 2 * limit - 1 calls |
| RateLimit.BoundIsReached | src/auth/rate-limit/rate-limit.service.ts:17-40 | For every limit and every window of at least 2 ms some regular sequence of calls reaches that bound |
| RateLimit.KeysAreIndependent | src/auth/rate-limit/rate-limit.service.ts:17-40 | A key's bucket and next verdict are what they would be had no other key been used |
| AvailabilityQueries.ReadAvailability | src/bookings/booking-inventory.service.ts:88-134 | The loop answers what ReadAnswer says: the clamped minimum of free rooms, and zero when a night has no row or the nights are not distinct |
| AvailabilityQueries.ReadAgreesWithLockedCheck | src/bookings/booking-inventory.service.ts:85-134 | For at least one room the unlocked read says available if and only if there are nights, they are distinct, and the locked check passes on the same rows |
| AvailabilityQueries.MinFreeIsMinimum | src/bookings/booking-inventory.service.ts:116-128 | The running minimum is a lower bound that is attained |
| AvailabilityQueries.LoadedExactly | src/bookings/booking-inventory.service.ts:95-106 | As many rows as nights means distinct nights, all loaded |
| AvailabilityQueries.ComputeAvailability | src/search/search.service.ts:639-710 | Counts exactly the room types shown, sums their least unsold rooms, and returns the least price over all pairs of shown room type and fully priced plan |
| AvailabilityQueries.ShownExactly | src/search/search.service.ts:656-701 | A room type is shown if and only if the rooms asked for sleep all the guests, each night has that many rooms neither blocked nor sold, and some plan has a price for every night |
| AvailabilityQueries.FitsEveryGuest | src/search/search.service.ts:656-664 | The occupancy test passes if and only if rooms times occupancy covers the guests |
| AvailabilityQueries.LeastUnheldIsMinimum | src/search/search.service.ts:693-693 | The rooms reported for a room type are the least unsold count of its nights |
| AvailabilityQueries.RemainingCoversCount | src/search/search.service.ts:691-709 | The rooms reported are at least the rooms asked for times the room types counted, and zero when none is |
| AvailabilityQueries.RoomTypeOffer | src/search/search.service.ts:666-701 | An offer exists if and only if the room type fits the guests, has unsold rooms every night and a fully priced plan |
| AvailabilityQueries.NightsUnsold | src/search/search.service.ts:669-679 | Passes if and only if every night is loaded with enough unsold rooms |
| AvailabilityQueries.BestPlan | src/search/search.service.ts:681-689 | The least stay price over the fully priced plans, if there is one |
| AvailabilityQueries.PageAgreesWithList | src/search/search.service.ts:442-480 | The property page and the search list count the same room types |
| AvailabilityQueries.ShownAgainstBookable | src/search/search.service.ts:670-679 | Search hides nothing bookable; what it shows can be booked if and only if the held rooms it ignores leave enough on every night |
| AvailabilityQueries.MatchedPrice | src/search/search.service.ts:683-685 | The matched rows cost the stay price search compares |
| Pricing.MatchNights | src/pricing/pricing.service.ts:37-51 | Rows in night order if and only if there are nights and each has a price |
| Pricing.LoadByNight | src/pricing/pricing.service.ts:43-43 | Of several rows for one night the last one counts |
| Pricing.QuoteAddsUp | src/pricing/pricing.service.ts:61-107 | A quote is made if and only if there are a night and a room; its subtotal is rooms times the night prices, its total subtotal plus tax, the tax 18 percent and the earnings the membership percentage, each to the nearest rupee, half up |
| Pricing.RedeemedQuoteAddsUp | src/pricing/pricing.service.ts:113-138 | Coins are accepted if and only if they are within the subtotal; what they leave of it and 18 percent of that, to the nearest rupee, is the total |
| Pricing.PerRoomIsSum | src/pricing/pricing.service.ts:78-79 | The price of one room is the sum of the prices of its nights |
| Pricing.LastPriceCounts | src/pricing/pricing.service.ts:43-43 | Of several price rows for a night the last one is used |
| Pricing.QuoteScalesWithRooms | src/pricing/pricing.service.ts:61-107 | A booking's subtotal is its rooms times the one-room subtotal search shows |
| Pricing.TaxIsNearestRupee | src/pricing/pricing.service.ts:27-29 | The tax is the nearest whole rupee, half up |
| Pricing.RedemptionTakesFaceValue | src/pricing/pricing.service.ts:113-138 | A redemption lowers the total by at least its face value and by no more than that with tax and one rupee of rounding; the total stays non-negative |
| Pricing.PreviewAgreesWithRedemption | src/alter-cash/alter-cash.service.ts:77-97 | A preview is valid if and only if pricing accepts the coins and the account can pay them |
| Membership.UpgradeKeepsValue | src/membership/membership.utils.ts:23-51 | Bonus days are worth at most the credited value and less than one new-plan day below it; the displayed value is within half a paisa |
| Membership.UpgradeTradesDaysFairly | src/membership/membership.utils.ts:6-51 | In prices and lengths: the bonus days at the new price per day cost no more than the started days left at the old one, one day more would cost more, and the term ends the purchased and bonus days after now |
| Membership.UpgradeFromNothing | src/membership/membership.utils.ts:32-51 | Without a membership that still runs an upgrade runs its length from now and credits nothing |
| Membership.CreditOvercountsUnderADay | src/membership/membership.utils.ts:6-9 | The credited days exceed the real remaining time by less than a day |
| Membership.RenewalsAddUp | src/membership/membership.utils.ts:54-61 | n renewals made before lapse end exactly n durations after the starting expiry, whenever they are made |
| Membership.RenewalNeverShortens | src/membership/membership.utils.ts:54-61 | A renewal never moves the expiry back, and ends a full duration after the later of now and the present expiry |

## Left out

- HTTP controllers, DTO validation, guards, JWT, OTP, WhatsApp, S3, logging and date rendering: plumbing around the protocol.
- SHA-256 and JSON.stringify: two bodies share a digest exactly when their canonical forms are equal.
- Locks taken by foreign-key checks, the several claim rows a sweep deletes, and the admin edit of guest data, in `LockOrder`; there the hold rows of one booking count as one lock.
- A cancellation of a pending booking whose hold rows are gone, and other transactions that find less to do, lock a part of their plan: `LockOrder.ServicesNeverDeadlock` covers every part, the exact results speak of whole plans.
- Extension, cancellation, acceptance and the coin writes as interleaved statements: `Interleaving` has bookings, confirmations and expiries, the transactions that lock nights or free them; the others are taken apart into reading and writes in `StaleWrites` and `ExtensionWrites`, and are single steps in `Runs`.
- Foreign payment calls: the remote answer is an arbitrary choice of success, rejection or transport failure with any transactions committed meanwhile.
- Provider ids, payment methods, failure and refund reasons, guest and invoice columns, history reasons and metadata.
- Refund rows in another state than COMPLETED: the refund service writes no others.
- Admin inventory edits, admin booking deletion and `selectPayment`: the first two do not respect held and sold rooms by design, the third is a display choice.
- Membership purchase sessions and the admin extension of memberships: only the expiry arithmetic is modelled.
- Stay restrictions on rate prices (`assertStayAllowed`), quote currency and the nightly breakdown of a quote.
- Floating-point rounding: 0.18 and the percentages are exact fractions, membership rates are exact reals, and JavaScript rounding is half up on exact values.
- The order of the expiry query among equal expiry times: the model breaks ties by id.
- The clock inside one maintenance tick: it stands still for the tick, while each transaction of the service reads it anew.
- Statements the late path would fail on for an item without nights: creation writes at least one night.
- BookingOps.BookingsService.CreateBooking: leaves out the other checks on the quote (same selection as the request, coins still covered by the balance) and its price; a lost acknowledgement is in `Idempotency`, not in this method.
- BookingOps.BookingsService.TryExtendHold: the two writes, to the reservation and to its hold rows, are one step here; `ExtensionWrites` takes them apart.
- StaleWrites.ExtendWriteKeeps: takes the two writes of an extension as one step, as above.
- StaySteps.ExtendMoves: takes the two writes of an extension as one step, as above.
- IdempotencyOps.BookingIdempotencyService.Claim: takes the failed insert and the read of the existing row as one step, so the answer the service gives when the row is deleted in between does not occur.
- MaintenanceOps.BookingMaintenanceService.CompletePastStays: takes the candidates as a parameter; which stays are past their check-out depends on the calendar day of the server.
