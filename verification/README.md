# Verified model of the car-service backend

The backend is a set of small protocols over a relational store and a store of expiring keys. This
project models the ones that carry state and proves what holds over whole runs of them:

- **Payments** - `Billing`, `Payme`, `Click`: checkout, the payment webhook and its two drivers.
  `PaymentRuns` and `PaymeTrace` prove confluence, exactly-once effects and trace safety; `Promises`
  settles when the documented behaviour holds.
- **Service jobs** - `StateMachine`, `Workshop`: intake, edits, transitions and the transition log.
  `Requests` says what each request is answered and which columns it writes.
  `JobHistory` proves that rows and logs are closed forms of the accepted transitions; `Revenue`
  proves that what has been earned stays earned; `MileageLedger` follows the mileage across modules.
- **Accounts** - `Otp`, `OtpHistory`: one-time codes against a specification on observed histories;
  `Sessions`: refresh-token chains, conservation and reset.
- **Windows and caches** - `Redis`, `RateLimit`, `Content`.
- **Computations** - `Trips`, `Recommendations`, `Sorting`.

A table is a sequence whose positions are the row ids, so ids are fresh by construction; an
expiring store is a map of values with their expiry. Each request is one atomic step, and a raised
error leaves the relational tables as they were (app/deps.py:27-40). Every clock reading is a
parameter of the event that takes it, in whole microseconds. Operations that change state are
methods of classes; each is proved equal, in its reply and its whole new state, to a specification
function, and the lemmas are about those functions and about runs of them. A lemma that needs a
clock that never steps back says so in its `requires`.

## Where the code and its documentation differ

The model follows the code; each difference has its exact condition as a lemma.

- app/modules/billing/service.py:8-10 says a payment extends the subscription; the code sets it to
  now plus the duration, so renewing early adds nothing to the time left and a shorter plan cuts it
  (`Promises.RenewalExtendsExactlyWhen`, `Promises.NeverCutExactlyWhen`, `Promises.AMonthReplacesAYear`).
- The comment at app/modules/billing/service.py:101-103 calls a repeated reference on a pending
  payment a no-op; the code applies it (`Promises.RepeatIsNoOpExactlyWhen`,
  `Promises.RepeatOnPendingSettles`, `Promises.PerformRepeatsTheCreate`).
- Cancel answers -2 also for a payment that stays paid, app/integrations/payme.py:184-190
  (`Promises.CancelIsTrueExactlyWhen`, `Promises.CancelOfAPaidPayment`).
- app/integrations/payme.py:14-16 promises that protocol errors never escape as HTTP errors. A body
  that cannot be read lets one escape, and so does one call on bodies that can
  (`Payme.DispatchRaisesExactlyWhen`, `Payme.WellFormedRaisesExactlyWhen`).
- An empty `external_ref` is falsy at app/modules/billing/service.py:109 and
  app/integrations/payme.py:120-130, so a row holding one can still be taken over
  (`PaymentRuns.RefIsPermanentExactlyWhenNonEmpty`, `PaymeTrace.PerformedIsForeverExactlyWhenNonEmpty`).
- app/core/rate_limit.py:32-34 says the key expires at the end of its window and the first caller
  sets the expiry; the code renews it on every hit (`RateLimit.ExpiresWithItsWindowExactlyWhen`).
- app/modules/cars/recommendations.py:6-10 calls an item due when its next-due mark is at or before
  the mileage. The mark always lies ahead (`Recommendations.DueAsDocumentedExactlyWhen`).
- The key of a phone number that reads "lock:x" is the lock key of "x". Phone numbers are
  normalised to start with "+" before they get here, which makes this harmless
  (`Otp.KeysClashExactlyWhen`, `Otp.NormalisedPhonesAreSeparate`).

## Model

| member | source | states |
|---|---|---|
| Billing.BillingDb.ApplyWebhook | app/modules/billing/service.py:88-155 | the in-place webhook equals the specification on all four tables and the result: finalised rows swallow the delivery, a foreign reference is refused, a reference the unique index refuses undoes the whole request |
| Billing.WebhookAnswers | app/modules/billing/service.py:94-112 | when each result is given, read off the rows: no such payment; open to the outcome and held by another non-empty reference; open, not so held, and the reference on another row; applied otherwise. Only an applied delivery changes anything |
| Billing.WebhookWrites | app/modules/billing/service.py:104-148 | an applied delivery writes, on a row open to it, status and reference, and when paid its paid_at and one notice; every other column, row and table stays, and a row not open to it stays whole |
| Billing.WebhookRenews | app/modules/billing/service.py:119-132 | a paid delivery gives exactly the centre a subscription payment with a plan names that plan, until now plus its days, thirty when the plan row is gone; every other centre stays |
| Billing.BillingDb.Checkout | app/modules/billing/service.py:47-81 | the checkout equals its specification, errors included, and changes only the payment table |
| Billing.BillingDb.RenewCentre | app/modules/billing/service.py:119-132 | only the centre the payment names is written, and only when a plan is named; a missing plan row counts 30 days |
| Billing.CheckoutOpensExactlyWhen | app/modules/billing/service.py:36-60 | a payment is opened iff the centre exists, the caller owns it or is an admin, and an active plan has the code; each refusal names the first that fails and changes nothing |
| Billing.CheckoutOwesThePrice | app/modules/billing/service.py:60-71 | the payment opened is one new pending row for that centre, user and provider, owing the price of an active plan with that code; nothing else changes |
| Billing.CheckoutThenPaidSellsThePlan | app/modules/billing/service.py:47-148 | checkout followed by one paid webhook gives exactly that centre exactly that plan until now + its duration, and the buyer one notice of its price |
| PaymentRuns.Confluence | app/modules/billing/service.py:101-148 | any number of deliveries of one reference to one payment, in any order, with any duplicates, leaves exactly the tables that one delivery - the first paid one, or else the first - would |
| PaymentRuns.RedeliveryOrderIsIrrelevant | app/modules/billing/service.py:101-148 | two delivery lists that agree on whether a "paid" is among them end in the same tables up to clock stamps, and in equal tables when the clock readings are equal |
| PaymentRuns.RedeliveryEndsInMaximum | app/modules/billing/service.py:104-115 | an open payment that can take the reference ends as the maximum of pending < failed < paid over what was delivered; it then holds the reference, unless it was failed already and only failures came, which leave it as it was |
| PaymentRuns.OtherReferencesAreInvisible | app/modules/billing/service.py:109-112 | once a reference is attached, deleting every delivery under another reference from the sequence changes no table |
| PaymentRuns.AttachedStatusIsMaximum | app/modules/billing/service.py:101-117 | in arbitrary traffic (checkouts, raw webhooks, Payme, Click) the status of an attached payment is the maximum of what arrived for it under its reference, and the reference stays |
| PaymentRuns.RunKeepsRows | app/modules/billing/service.py:101-117 | over every run status rank never falls, a finalised row is frozen, an attached reference is never replaced, the owed columns never change and references stay unique |
| PaymentRuns.PaidAtIsStampedExactlyWhenPaid | app/modules/billing/service.py:113-117 | over every run a payment opened in it has a paid_at iff it is paid, and one that was there before gets another only by turning paid |
| PaymentRuns.AtMostTwoChanges | app/modules/billing/service.py:104-115 | each payment changes status at most twice in any run |
| PaymentRuns.RefIsPermanentExactlyWhenNonEmpty | app/modules/billing/service.py:109-114 | a stored reference survives every run iff it is not the empty string |
| PaymentRuns.StepEffects | app/modules/billing/service.py:113-148 | one event turns at most one payment paid; if none, centres and inbox stay; if one, its paid_at, its centre and its notice are exactly written |
| PaymentRuns.EffectsHappenExactlyOnce | app/modules/billing/service.py:113-148 | over every run each payment settles at most once, the settled payments are exactly those that became paid, the inbox grew by one notice per settlement in order, and the centres are the replay of the settlements |
| PaymentRuns.NoticesCountPaidPayments | app/modules/billing/service.py:136-148 | the number of new "billing.paid" rows equals the number of payments that became paid |
| PaymentRuns.CentreHoldsLastRenewal | app/modules/billing/service.py:119-132 | after every run a centre holds the plan of the settlement naming it that was applied last, until that instant plus the duration, or what it held at the start when none named it |
| Payme.HandleCreate | app/integrations/payme.py:110-137 | Create in place equals its specification: idempotent for the same id, refused for another, undone when the id is another payment's |
| Payme.HandlePerform | app/integrations/payme.py:140-165 | Perform in place equals its specification |
| Payme.HandleCancel | app/integrations/payme.py:168-190 | Cancel in place equals its specification; it answers -2 whatever the payment's status stays |
| Payme.HandleRpc | app/integrations/payme.py:226-251 | dispatch over the five methods equals its specification; unauthorised and unknown calls touch nothing |
| Payme.DispatchRaisesExactlyWhen | app/integrations/payme.py:226-251 | an exception escapes iff the body is no object, or an authorised call of a known method has params that are no object or that the method cannot cope with: an account that is no object, a number int refuses where it is read, a Create reaching the unique index; every such call changes nothing |
| Payme.CallRaisesExactlyWhen | app/integrations/payme.py:99-214 | per method, the parameters it raises on, each guarded by the checks that come before |
| Payme.WellFormedRaisesExactlyWhen | app/integrations/payme.py:14-16 | the promise that protocol errors stay inside the envelope, on bodies whose parts can all be read: broken by exactly one call, a Create of the right amount with an id attached to another payment |
| Payme.FinaliseNeverMismatches | app/integrations/payme.py:140-190 | Perform and Cancel never meet the reference-mismatch error or any other of the webhook, and a successful Perform leaves the payment paid unless it was refunded |
| Payme.StrangersAreRefused | app/integrations/payme.py:226-251 | an unauthorised call is answered -32504 and changes nothing, and no other call is answered so; an unknown method is answered -31003 |
| Payme.AllowedExactlyWhenPayable | app/integrations/payme.py:99-107 | Allow is answered iff the call is an authorised CheckPerformTransaction whose account names a pending payment of exactly that amount; -31001 iff the amount differs, -31050 iff there is no such payment or it is no longer pending |
| Payme.CreateAnswersExactlyWhen | app/integrations/payme.py:110-137 | Created is answered iff the call is an authorised CreateTransaction with the right amount, an id the payment holds or can take, and a time; -31001, -31003 and -31050 each iff its own check fails first |
| Payme.CreateAttaches | app/integrations/payme.py:110-137 | a successful Create puts the id on that payment and changes nothing else, any other changes nothing, and a repeat changes nothing and answers the same |
| Payme.PerformAnswersExactlyWhen | app/integrations/payme.py:140-165 | Performed is answered iff the call is an authorised PerformTransaction with a time and a non-empty id some payment holds; that payment then gets the paid webhook. -31003 iff no payment holds the id or it is empty |
| Payme.CancelAnswersExactlyWhen | app/integrations/payme.py:168-190 | Cancelled is answered iff the call is an authorised CancelTransaction with a time and an id some payment holds; that payment then gets the failed webhook. -31003 iff no payment holds the id |
| Payme.AllowedPaymentsGoThrough | app/integrations/payme.py:99-251 | through dispatch: CheckPerform, Create and Perform under an unused id pay the payment, and Check answers 1 after the Create and 2 after the Perform; Cancel in place of Perform makes it -2 |
| Payme.CheckReadsTheStatus | app/integrations/payme.py:193-251 | a state is answered iff the call is an authorised CheckTransaction with an id some payment holds: 1, 2 or -2 exactly as that payment's status; -31003 iff none holds it; nothing changes |
| PaymeTrace.AttachedOnlyByCreate | app/integrations/payme.py:110-137 | in every run of checkouts and Payme calls a reference gets onto a payment only through an earlier successful Create with that id and the right amount |
| PaymeTrace.PaidOnlyAfterCreateAndPerform | app/integrations/payme.py:110-165 | in every such run a paid payment was paid by a successful Perform after a successful Create with the same id whose amount was the payment's |
| PaymeTrace.PerformedIsForeverExactlyWhenNonEmpty | app/integrations/payme.py:193-251 | once a CheckTransaction call is answered 2 for an id it is answered 2 after every run of any events, iff the id is not empty |
| Click.HandleForm | app/integrations/click.py:134-142 | the Click callback in place equals its specification |
| Click.StrangersAreRefused | app/integrations/click.py:134-142 | -1 iff unsigned, -3 iff signed with an unknown action, -5 iff the action is known and the payment is not; none of it changes anything |
| Click.PreparedExactlyWhen | app/integrations/click.py:92-108 | Prepare answers 0 iff the payment is pending and the stated soum are its tiyin divided by 100, rounded down, -2 iff they are not, -4 iff they are but it is no longer pending; nothing changes |
| Click.CompleteAnswersExactlyWhen | app/integrations/click.py:111-131 | Complete hands the payment to the webhook under the Click id, as paid iff the error is 0, and answers 0 or -9 once that is applied |
| Click.PreparedPaymentsComplete | app/integrations/click.py:92-131 | a prepared payment no other transaction holds is settled by Complete as Click reports it |
| Click.HandleRaisesExactlyWhen | app/integrations/click.py:92-142 | an exception escapes iff a signed form names a payment and its action reads a number that is none, or completes a payment still open that is attached to another transaction or would take one that is; nothing changes then |
| Promises.RenewalExtendsExactlyWhen | app/modules/billing/service.py:8-10 | a renewal ends no earlier than what it replaces iff no more than the new term was left, and extends it by the term iff it runs out at that instant |
| Promises.NeverCutExactlyWhen | app/modules/billing/service.py:119-132 | over every run a centre never loses subscription time between any two moments iff no renewal is paid while more is left than it gives |
| Promises.AMonthReplacesAYear | app/modules/billing/service.py:125-132 | a state and a payment that cut a subscription |
| Promises.RepeatIsNoOpExactlyWhen | app/modules/billing/service.py:101-107 | a repeated reference changes nothing iff the status already swallows the outcome |
| Promises.RepeatOnPendingSettles | app/modules/billing/service.py:101-115 | on a pending payment a repeated reference is never a no-op: it settles the payment |
| Promises.PerformRepeatsTheCreate | app/modules/billing/service.py:101-103 | a state and a reference whose repetition is no no-op |
| Promises.CancelIsTrueExactlyWhen | app/integrations/payme.py:168-190 | what Cancel answers is what Check answers afterwards iff the payment was not paid; a paid one stays as it was and Check says 2 |
| Promises.CancelOfAPaidPayment | app/integrations/payme.py:184-190 | a state in which Cancel answers -2 and Check 2 |
| StateMachine.TerminalExactlyWhenNoWayOut | app/modules/services/state_machine.py:30-58 | a status is in TERMINAL iff no target and reason are accepted from it |
| StateMachine.EdgesInWords | app/modules/services/state_machine.py:32-38 | the table's edges, as one rule |
| StateMachine.ValidateAnswers | app/modules/services/state_machine.py:41-58 | when each verdict is given: terminal, no edge (in words), missing reason, and accepted otherwise |
| StateMachine.StripIsExact | app/modules/services/state_machine.py:54 | what is stripped off is blank and what is left neither starts nor ends with a space |
| StateMachine.CancelNeedsText | app/modules/services/state_machine.py:54-58 | a cancellation is accepted iff the job is live and the reason holds a non-space character |
| Workshop.WorkshopDb.DoTransition | app/modules/services/service.py:317-366 | the transition, filling its columns step by step and appending to the log, equals the column-by-column specification; refusals change nothing |
| Requests.TransitionAnswers | app/modules/services/service.py:325-327 | a transition is done iff the job exists, access is given, the edge exists and a cancellation has text; each refusal has its exact condition and changes nothing |
| Requests.TransitionWrites | app/modules/services/service.py:329-366 | a done transition leaves the job's car, centre, mechanic, recommendation, notes, intake mileage and creation time, every other job and every other table as they were, sets the status and appends one log row |
| Requests.JobsKeepTheirCard | app/modules/services/service.py:280-366 | over every run a job keeps car, centre, intake mileage and creation time, and mechanic, recommendation and notes too unless an accepted edit of it comes by |
| Workshop.WorkshopDb.DoIntake | app/modules/services/service.py:221-277 | the intake equals its specification on cars, readings, services, items and log |
| Requests.IntakeAnswers | app/modules/services/service.py:233-242 | when an intake is done and which refusal it gets otherwise |
| Requests.IntakeWrites | app/modules/services/service.py:244-270 | a done intake opens one fresh job holding exactly the form's columns and lines, logs its opening, and sets the car's mileage with a reading iff that rises |
| Workshop.WorkshopDb.DoPatchService | app/modules/services/service.py:280-311 | the patch equals its specification; finished jobs are locked |
| Requests.PatchServiceAnswers | app/modules/services/service.py:286-296 | when an edit is done and which refusal it gets otherwise |
| Requests.PatchServiceWrites | app/modules/services/service.py:293-309 | a done edit writes what the form gives, keeps what it leaves out, and replaces that job's lines as a whole or not at all |
| Workshop.WorkshopDb.DoReplaceItems | app/modules/services/repository.py:127-134 | the delete-then-insert loop equals its specification |
| Workshop.WorkshopDb.DoCreateCar | app/modules/cars/service.py:61-94 | car creation equals its specification, first reading included |
| Requests.CreateCarAnswers | app/modules/cars/service.py:61-94 | one new car of that owner and mileage, with a first reading iff that is positive |
| Workshop.WorkshopDb.DoPatchCar | app/modules/cars/service.py:97-129 | the car edit equals its specification for either outcome of the row refresh |
| Requests.PatchCarAnswers | app/modules/cars/service.py:97-129 | when an edit is done and which refusal it gets otherwise; the car ends at the mileage given, if any |
| Workshop.WorkshopDb.DoRecordMileage | app/modules/cars/service.py:138-155 | the mileage post equals its specification |
| Requests.RecordMileageAnswers | app/modules/cars/service.py:138-155 | when a post is done and which refusal it gets otherwise; the car ends at the posted value, with one reading more iff that is higher |
| Workshop.ReplaceItemsIsExact | app/modules/services/repository.py:127-134 | afterwards the job has exactly the given lines in order and every other job its own lines unchanged |
| Workshop.RefusalChangesNothing | app/modules/services/service.py:221-366 | no refused request changes any table |
| Workshop.RunKeepsForeignKeys | app/modules/services/service.py:221-366 | over every run each reading, service, item and log row names an existing parent |
| JobHistory.RowAndLogFollowHistory | app/modules/services/service.py:257-366 | for every job in every reachable state, status, all timestamps, the pause total and the log are the closed forms of the accepted transitions |
| JobHistory.LogReplaysToStatus | app/modules/services/service.py:257-264 | every log starts (none to waiting), chains along allowed edges, has a terminal status in its last row only, ends in the current status, and its pauses minus resumes follow it |
| JobHistory.PauseAccountingIsExactUpToTruncation | app/modules/services/service.py:333-356 | on a clock that never steps back the true closed pauses exceed the recorded seconds by 0 to n(10^6 - 1) microseconds, n being the closed pauses; a pause ended by cancelling is not counted |
| JobHistory.NetWorkTimeIsNeverNegative | app/modules/services/service.py:333-358 | on a clock that never steps back every completed job has start and end, and its recorded pauses fit between them |
| JobHistory.SteppedClockBreaksNetWorkTime | app/modules/services/service.py:333-356 | a run of five requests, the last on a clock that stepped back, whose completed job records more pause than it has length |
| JobHistory.PausedAtSetExactlyWhen | app/modules/services/service.py:333-356 | paused_at is set iff the job is paused or was cancelled out of a pause |
| JobHistory.StartIsWrittenOnce | app/modules/services/service.py:333-335 | a start seen in any state is the start in every later one |
| JobHistory.ReasonsFollowTheLog | app/modules/services/service.py:342-366 | in every reachable state the pause and cancel reasons are those the log gives, stripped; a job has a cancel reason iff it is cancelled, and the reason has text |
| JobHistory.TerminalJobsAreFrozen | app/modules/services/state_machine.py:42-47 | nothing ever changes the row or the log of a completed or cancelled job |
| MileageLedger.RunKeepsLedger | app/modules/cars/service.py:61-155 | over any mix of car and service requests mileages never decrease, readings strictly increase within the mileage, intake mileages never decrease, and nothing written is altered |
| MileageLedger.SyncLostExactlyBySilentRaise | app/modules/cars/service.py:108-126 | a car whose last reading is its mileage stays so under a request iff that is not an edit raising the mileage on an already refreshed row |
| MileageLedger.InSyncExactlyWhenNeverRaisedSilently | app/modules/cars/service.py:61-155 | over every run the last reading of a car is its mileage in all states iff no such edit occurs |
| MileageLedger.NewCarStartsInSync | app/modules/cars/service.py:90-92 | a car created with a positive mileage has that as its last reading |
| MileageLedger.IntakeSetsTheMileage | app/modules/services/service.py:235-270 | after an accepted intake the car has the intake's mileage, and no intake of it states more |
| Revenue.ReportIsWindowReport | app/modules/stats/service.py:79-95 | the report with its default dates is the report of a window of whole days, 30 days back when no start is given |
| Revenue.CompletionEntersTheTotal | app/modules/stats/service.py:79-104 | an accepted completion raises the total of exactly the reports of the job's own centre whose days hold its instant, by the service and parts prices of the job's lines |
| Revenue.CompletionEntersItsDay | app/modules/stats/service.py:106-123 | the same of that day's row, which counts one job more if the job has lines; and of no other day |
| Revenue.CompletionLeavesOtherReports | app/modules/stats/service.py:79-123 | reports of another centre or window stay as they were, row for row |
| Revenue.OtherRequestsLeaveReports | app/modules/stats/service.py:79-123 | no other request changes any report |
| Revenue.NothingCompletedNothingReported | app/modules/stats/service.py:88-123 | where no job is completed every report is empty |
| Revenue.TotalGrowsByWhatIsEarned | app/modules/stats/service.py:79-104 | over every run a report's total grows by exactly the prices of the jobs completed for that centre in its window |
| Revenue.DayRowsHaveJobs | app/modules/stats/service.py:106-123 | each day row counts at least one job |
| Revenue.InStatusCounts | app/modules/stats/service.py:35-45 | a status count is the number of the centre's jobs in that status |
| Revenue.TotalIsSumOfDays | app/modules/stats/service.py:88-123 | the total equals the sum of the daily amounts, whose days come in order inside the window |
| Revenue.AdjacentWindowsAddUp | app/modules/stats/service.py:88-104 | splitting a window at any day boundary loses nothing and counts nothing twice |
| Revenue.PastRevenueIsFrozen | app/modules/stats/service.py:79-123 | the whole report of a window that ended before today is the same in every later state |
| Revenue.RevenueNeverDecreases | app/modules/stats/service.py:88-104 | the revenue of any window never decreases, whatever the clock does |
| Revenue.Overview | app/modules/stats/service.py:32-63 | the loop over the grouped rows gives the exact count per status and the queue of live jobs; with the finished ones these are all jobs of the centre |
| RateLimit.CheckRateLimit | app/core/rate_limit.py:23-45 | the limiter in place equals its specification |
| RateLimit.FullKeyIsInjective | app/core/rate_limit.py:35 | two (key, window) pairs share a counter iff they are equal |
| RateLimit.HitOutlivesItsWindow | app/core/rate_limit.py:36-39 | a hit keeps its key alive past the end of its own window |
| RateLimit.ExpiresWithItsWindowExactlyWhen | app/core/rate_limit.py:30-38 | the key expires at the end of its window, as documented, iff the hit comes at its first instant, and later otherwise |
| RateLimit.CounterIsExact | app/core/rate_limit.py:35-39 | over every run mixing limiters of any lengths, the value a call reads is exactly the number of calls of its key in the current window, when all limiters on that key have its length |
| RateLimit.RunCounts | app/core/rate_limit.py:35-39 | every counter of such a key a later call can reach is exact |
| RateLimit.MixedLengthsMiscount | app/core/rate_limit.py:35 | two calls of one key with different lengths that miscount |
| RateLimit.PassedIsMinimum | app/core/rate_limit.py:35-45 | exactly min(limit, calls) calls of a window pass |
| RateLimit.AnyIntervalPassesAtMostTwiceTheLimit | app/core/rate_limit.py:35-45 | any interval as long as a window lets at most twice the limit pass |
| Otp.RequestOtp | app/modules/auth/service.py:49-67 | the request in place equals its specification |
| Otp.VerifyOtp | app/modules/auth/service.py:70-97 | the verify in place equals its specification |
| Otp.KeysClashExactlyWhen | app/modules/auth/service.py:41-46 | two phones share a key iff they are equal or one is the other with "lock:" in front |
| Otp.NormalisedPhonesAreSeparate | app/modules/auth/service.py:41-46 | phones that start with + never share a key |
| OtpHistory.StoreRepresentsHistory | app/modules/auth/service.py:49-97 | over every run the live code, its attempts and the lock of a phone are exactly what the observed calls and replies for that phone say |
| OtpHistory.AcceptedExactlyWhenOpen | app/modules/auth/service.py:70-97 | a verify is accepted iff the latest unrefused request returned that code, is younger than the TTL, no verify succeeded since and fewer than the maximum of wrong codes were tried |
| OtpHistory.WrongTriesAreAnswered | app/modules/auth/service.py:73-93 | any other verify is answered expired iff no code is open; a wrong code is invalid, or locks when it is the last try allowed |
| OtpHistory.RefusedExactlyWhenLocked | app/modules/auth/service.py:55-67 | a request is refused iff a lockout is younger than the lock time, and else returns its code |
| OtpHistory.LockExcludesCode | app/modules/auth/service.py:55-93 | in every reachable state a live lock means no live code |
| OtpHistory.LockoutHolds | app/modules/auth/service.py:83-93 | until the lock time is over every request is refused and every verify fails |
| OtpHistory.CodeAbsorbsAtMostMax | app/modules/auth/service.py:83-93 | each issued code absorbs at most the maximum of wrong tries |
| OtpHistory.ClashingPhoneIsRefused | app/modules/auth/service.py:41-46 | an illustration: of two phones no schema lets through, a code asked for one gets the other refused |
| Sessions.AuthDb.SaveRefresh | app/modules/auth/repository.py:66-84 | a row is appended unless its hash is taken |
| Sessions.AuthDb.RevokeRefresh | app/modules/auth/repository.py:98-108 | row by row: those with the hash and unrevoked are stamped, every other is unchanged, and the number is that of the rows stamped |
| Sessions.AuthDb.RevokeAllUserRefresh | app/modules/auth/repository.py:111-122 | row by row: the user's unrevoked ones are stamped, every other is unchanged, and the number is that of the rows stamped |
| Sessions.AuthDb.UpdatePassword | app/modules/auth/repository.py:57-60 | that user's password is set, no user appears, disappears or changes otherwise |
| Sessions.AuthDb.DoIssue | app/modules/auth/service.py:217-259 | issuing equals its specification; a subject without a user row stores nothing |
| Sessions.IssueAnswers | app/modules/auth/service.py:217-259 | a login of a known user adds one row for thirty days when its hash is unused, of anyone else none |
| Sessions.AuthDb.DoRotate | app/modules/auth/service.py:262-292 | rotation equals its specification, with the revocation undone when the new token cannot be stored |
| Sessions.RotationAnswers | app/modules/auth/service.py:273-291 | a rotation is accepted iff some row carries the hash, unrevoked and unexpired, its user is there and active, and the new hash is unused; disabled iff the user is missing or inactive; invalid iff there is no such row; a refusal changes nothing |
| Sessions.RotationWrites | app/modules/auth/service.py:282-291 | an accepted rotation revokes the presented row, adds one of its user for thirty days and touches no other |
| Sessions.DisabledUsersDoNotRotate | app/modules/auth/service.py:279-281 | once a user is switched off, and until switched on, no rotation of any of their tokens is accepted, whatever else happens |
| Sessions.AuthDb.DoLogout | app/modules/auth/service.py:295-298 | logout equals its specification |
| Sessions.LogoutAnswers | app/modules/auth/service.py:295-298 | a logout revokes the presented session if still unrevoked and touches no other; no cookie or an empty one does nothing |
| Sessions.AuthDb.DoReset | app/modules/auth/service.py:304-309 | the reset equals its specification: the new password hash and the revocation |
| Sessions.ActiveRowIsActive | app/modules/auth/repository.py:87-95 | the row found carries the hash, unrevoked and unexpired; none found means none is there |
| Sessions.RevocationIsFinal | app/modules/auth/repository.py:87-122 | over every run rows keep their columns, a revoked token never becomes active again and hashes stay unique |
| Sessions.EachTokenRotatesAtMostOnce | app/modules/auth/service.py:262-292 | in any run at most one rotation presenting a given raw token is accepted |
| Sessions.LoginLastsExactlyItsTerm | app/modules/auth/service.py:217-292 | whatever others do, an untouched login rotates at every instant before its thirty days end and at none after |
| Sessions.ChainsAreLinear | app/modules/auth/service.py:262-292 | following rotations from any login, every reachable state has at most one unrevoked token |
| Sessions.RotationConserves | app/modules/auth/service.py:283-291 | a rotation leaves every user's number of open sessions as it was |
| Sessions.SessionsAreConserved | app/modules/auth/service.py:217-298 | between resets open sessions change by stored logins and by logouts that hit, and by nothing else |
| Sessions.SessionsSinceLastReset | app/modules/auth/service.py:217-309 | open sessions are the logins since the last reset minus the logouts that hit |
| Sessions.ResetKillsEveryEarlierToken | app/modules/auth/service.py:304-309 | after a reset no earlier token of the user is ever active again, and the reset touches no one else |
| Sessions.ResetReportsWhatItEnds | app/modules/auth/service.py:304-309 | a reset counts exactly the sessions it ended, leaves none, and sets that user's password alone |
| Trips.TripDb.DoAppend | app/modules/trips/service.py:56-79 | appending in place equals its specification |
| Trips.AppendAnswers | app/modules/trips/service.py:56-79 | when a batch is taken and which refusal it gets otherwise; its points follow in order, each with its own timestamp or else the clock reading |
| Trips.TripDb.DoFinish | app/modules/trips/service.py:82-115 | finishing in place equals its specification |
| Trips.TripDb.DoStart | app/modules/trips/service.py:46-53 | starting in place equals its specification |
| Trips.StartAnswers | app/modules/trips/service.py:46-53 | one new open trip with nothing measured |
| Trips.FinishAnswers | app/modules/trips/service.py:82-85 | finishing is for the owner and done once |
| Trips.TripDb.Measure | app/modules/trips/service.py:93-100 | the accumulating loop computes the path length |
| Trips.PathFromTheFront | app/modules/trips/service.py:92-95 | a path of fewer than two points has no length; any other goes from its first point to its second and on |
| Trips.AnyOrderedResultIsTheSort | app/modules/trips/service.py:86-92 | with one point at a time, delivered once or more, any time-ordered result of the query is the sorted one |
| Trips.OpenTripHoldsDelivered | app/modules/trips/service.py:63-79 | an open trip holds exactly the points its owner delivered, in delivery order |
| Trips.DistanceIsIndependentOfDelivery | app/modules/trips/service.py:63-107 | two runs delivering the same points in any batches and order finish with the same distance, for every point-to-point distance |
| Trips.RetriesDoNotLengthenTheTrip | app/modules/trips/service.py:63-107 | two runs delivering the same points however often finish with the same distance, when a point is at no distance from itself |
| Trips.FinishMeasuresTheTrip | app/modules/trips/service.py:82-115 | finishing records the rounded time-ordered length, the whole seconds rounded down, the speed that covers the one in the other and the fuel, and changes no other trip |
| Trips.FinishedTripIsFrozen | app/modules/trips/service.py:63-107 | a finished trip's record and points never change, and finishing again returns it |
| Content.ContentDb.DoList | app/modules/content/service.py:33-65 | the read-through listing in place equals its specification, with and without a cache |
| Content.ContentAnswers | app/modules/content/service.py:24-65 | an unknown kind is refused, a listing without a cache is the table's as it stands, and neither these nor an upsert touch the cache |
| Content.CachedAnswerIsRepeated | app/modules/content/service.py:33-65 | for ten minutes after a listing was read from the table the same request is answered the same, whatever is upserted in between |
| Content.ContentDb.DoUpsert | app/modules/content/service.py:68-80 | the upsert in place equals its specification and leaves the cache alone |
| Content.ListingIsExact | app/modules/content/repository.py:13-19 | a listing holds exactly the rows of its kind and language, each as often as the table, in slug order |
| Content.CacheKeyIsInjective | app/modules/content/service.py:20-21 | two (kind, language) pairs of known kinds share a cache key iff they are equal |
| Content.UpsertsKeepSlugsUnique | app/modules/content/repository.py:33-53 | over every run (kind, language, slug) stays unique |
| Content.UpsertIsExact | app/modules/content/repository.py:33-53 | an upsert leaves one row under its key with the given text, restamped only when the text changes, and every other row alone |
| Content.CacheStaysHonest | app/modules/content/service.py:33-65 | every cached listing is what the table gave at an event one TTL before its expiry |
| Content.AnswersAreAtMostTenMinutesStale | app/modules/content/service.py:33-65 | a listing answered at t is the table's listing at some instant in (t - 600 s, t], for every interleaving with upserts |
| Recommendations.Compute | app/modules/cars/recommendations.py:44-82 | the loop and the in-place sort give due ++ upcoming ++ optional, each in table order |
| Recommendations.Assess | app/modules/cars/recommendations.py:50-79 | one pass of the loop; the branch for a distance of zero or less is unreachable |
| Recommendations.GroupedIsExact | app/modules/cars/recommendations.py:69 | the number in the reason is the milestone with a comma after every three digits from the right |
| Recommendations.ItemForDescribes | app/modules/cars/recommendations.py:50-79 | next_due_km is the least multiple of the interval above the mileage; due iff the mileage is a positive multiple of it; upcoming iff not due and within 1500 km |
| Recommendations.DueAsDocumentedExactlyWhen | app/modules/cars/recommendations.py:6-10 | "due iff the next mark is at or before the mileage" agrees with the answer iff the mileage is at no milestone |
| Recommendations.SortMakesBuckets | app/modules/cars/recommendations.py:80-82 | the stable sort by priority is the concatenation of the buckets |
| Recommendations.BucketIsExact | app/modules/cars/recommendations.py:80-82 | each bucket holds exactly the items of its priority |
| Recommendations.RecommendationsAreRight | app/modules/cars/recommendations.py:28-82 | for every mileage, a missing or negative one counting as none, the answer is a permutation of one rightly described item per table entry |

## Left out

- HTTP routers, request schemas, WebSocket, push, SMS, storage clients, logging, migrations, seeds: I/O and wiring.
- JWT, Argon2, MD5 signatures, Basic auth and hashing internals: opaque flags or an injective function.
- Role, ownership-by-role, plate, VIN and mechanic checks: flags on the request.
- The JSON-RPC envelope: the echoed id, and the `jsonrpc` member of section 5 of JSON-RPC 2.0, which the replies lack.
- References the database cannot take: longer than the column's 255 characters, or holding a NUL character; every lemma about references and exceptions is about the others.
- What `int` makes of a given text or value: a request either yields a number or is refused.
- Click's Complete neither checks the amount nor needs a Prepare; nothing here relies on either.
- Refunds, plan and centre edits: nothing in the core performs them; a refunded status in the starting tables is covered.
- Car deletion, soft deletion and the car columns other than owner and mileage.
- Condition photos, list and lookup queries, and who may view what.
- `mechanic_load`, `top_services`, `top_brands` and `today_intakes`: single counting queries, with no state to keep.
- Time zones: `date_trunc` is taken in UTC; column widths: amounts and mileages do not overflow.
- Float arithmetic: real numbers take its place; `total_seconds` is exact below about 270 years.
- The `at` column of the transition log (a database default): the log is kept in insertion order.
- The timestamp of a mileage reading.
- JSON encoding of cached listings, a listing row's id, and undecodable cache entries.
- Interleavings inside one request, such as between the read and the delete of a code.
- The speed and heading columns of trip points.
- Collation: slugs are ordered by code point.
- Workshop.WorkshopDb.DoPatchCar: whether the reading is appended depends on when the session refreshes its row; both outcomes are modelled.
- Sessions.AuthDb.DoReset: like every session request, it reads the clock once.
- Trips.TripDb.DoFinish: great-circle distance and rounding to a number of decimals are arbitrary functions.
- Trips.DistanceIsIndependentOfDelivery: for points that are the same whenever their timestamps are, as the order of two different ones at one instant is the database's choice.
