# goservice: verified core

A Dafny model of three independent cores of the service and machine-checked proofs of what they keep.

**The marketplace protocol.** Service requests, quotes, price proposals, engagements, visits, payment
attempts and the ledger are tables (`Tables`). What each guarded statement and each transaction does to
them is a function (`Writes`); the transactions over tables updated in place, with their loops and their
rollbacks, are the methods of `Database.Store`, proved equal to those functions. `Protocol` makes them a
state machine: a caller first reads, which leaves an open call holding what it read, and commits later
against whatever the tables have become; any number of calls interleave. `Lifecycle`, `Market`, `Payments`
and `History` hold the invariants and what never changes, `Safety` carries them over every run, and
`Theorems`, `Ledger`, `Cash`, `CashRoles`, `Prices` and `TerminalEvents` state the guarantees. `Effects` and
`MoneyEffects` say, row by row and without those functions, what every transaction and statement leaves behind. `Races` shows, by
concrete runs, what the code allows beyond its comments.

**Uploads.** `MediaUploads` is the two-phase consumption of image references, with stale reads.

**The settings panel.** `SettingsTrie` is the tree as a value, `SettingsTree` the linked nodes that are
built and merged in place, `SettingsPanel` and `SettingsRender` the renderers as the list of controls they
emit, `SettingsShown` the end-to-end statement: which settings are shown, each once, and `SettingsOrder` in what
order.

**The category tree.** `CategoryForest` is the tree and its recursive queries, `CategoryRows` the stored
parent links and the cycle checks, `CategoryTree` reading back, `CategoryUpdates` the server's partial
updates, `CategoryDrop` and `CategoryRoundTrip` drag and drop, `CategoryLevels` how deep a tree can be shown,
`CategorySiblings` the arrow buttons.

Conventions: a row's id is its position in its table (within the protocol no row is deleted; deleting a user's
account, which does erase rows, is modelled on the ledger only, in `Ledger`); time is a counter that only grows;
prices and percentages are non-negative integers and rounding is the source's half-up rule; a visit's slot is
half-open, as in the exclusion constraint of
`prisma/migrations/20260824152741_add_appointments/migration.sql:84-87`.

## Where the code and its comments disagree

- `src/cash-payment/services/confirm-cash-payment.service.ts:93-94` says an engagement's price never changes.
  A proposal read while its quote was open can be accepted after the quote was; `Prices` gives the exact
  condition and what holds without it.
- `src/cash-payment/cash-payment.resolver.ts:30-40` promises cash confirmation by both parties. The lookup of
  `src/payments/payment-attempt.repository.ts:221-236` does not look at the method, so a provider answer can
  approve a cash attempt one party confirmed; `Cash` gives the exact condition.
- `src/ledger/services/classify-engagement-payment-event.util.ts:149-156` assumes one financial event an
  engagement. A paid job can still be cancelled with a charge; `TerminalEvents` gives the exact condition.
- A quote submitted on a stale read stays on offer under an engaged request; `Races` has the exact condition
  and a run.
- The arrow buttons do nothing between siblings with equal `displayOrder`, the default of new categories;
  `CategorySiblings` gives the exact condition.
- A setting with a one-segment key, in a sub-group of a credential bucket that does not itself collapse, or with
  the name of a field of the active bucket is never shown; `SettingsShown` gives the exact condition for every key.
- `src/platform-admin/categories/services/update-category.service.ts:76-98` refuses cycles by reading before
  writing. Two such updates at once can close one; `CategoryUpdates` gives the exact condition.
- A drop can make the tree deeper than the panel's query (`admin-panel/js/categories.js:36-52`), after which the
  page cannot be opened; `CategoryLevels` gives the exact condition.

## Model

| member | source | states |
|---|---|---|
| `Theorems.OneWinnerPerRequest` | scripts/seed-demo-data.ts:245-327 | In every reachable state a quote is accepted iff it is its request's chosen quote, a request is engaged iff it has a chosen quote and an engagement for exactly that pair, and no two engagements share a request or a quote |
| `Theorems.WinnerIsFinal` | src/service-requests/service-requests.repository.ts:290-313 | Whatever any callers do afterwards, a chosen quote stays chosen, its request stays engaged, and no other quote of the request is ever accepted |
| `Theorems.AcceptIsAllOrNothing` | src/quotes/services/accept-quote.service.ts:139-172 | In every reachable state an open acceptance, decided by the two statuses alone, either leaves every table as it was or: engages the request, accepts the quote, rejects exactly the other quotes on offer for that request, appends one engagement of the request's customer and the quote's professional, and leaves every other row of every table as it was |
| `Market.AcceptKeepsWinners` | src/quotes/quotes.repository.ts:241-275 | The winner invariant over requests, quotes and engagements survives the acceptance transaction committed on a stale read |
| `Market.OpenRequestHasNoEngagement` | prisma/migrations/20260819151446_add_quotes_and_engagements/migration.sql:50-54 | While a request is open neither unique index of its engagement can be taken |
| `Market.CommitKeepsWinners` | src/quotes/services/accept-quote.service.ts:94-172 | Every transaction a caller can commit, on whatever it read before, keeps one winner per request |
| `Races.SentQuotesOnEngagedExactlyByLateSubmission` | src/quotes/services/submit-quote.service.ts:40-66 | Engaged requests keep having no quote still on offer, step by step, iff the step is not a submission committed after its request was engaged |
| `Races.LateQuoteHappens` | src/quotes/services/submit-quote.service.ts:48-66 | A reachable run in which such a late submission is about to be committed |
| `Theorems.NegotiationHistory` | scripts/seed-demo-data.ts:339-456 | In every reachable state a pending proposal is its quote's newest, so there is at most one, and the negotiated price is that of the last accepted proposal, or absent |
| `Market.LastAcceptedIsExact` | src/quotes/quotes.repository.ts:277-300 | The last accepted price is that of the accepted proposal of the quote with no accepted one after it, and absent iff none was accepted |
| `Market.CommitKeepsNegotiation` | src/quote-negotiation/quote-negotiation.repository.ts:60-150 | Posting, superseding, accepting and rejecting in any interleaving keep the two negotiation rules |
| `History.KeepsHistoryTransitive` | src/quote-negotiation/quote-negotiation.repository.ts:120-170 | What rows never change (original prices, resolved proposals, chosen quotes, stamps, methods) composes over any number of steps |
| `History.CommitKeepsHistory` | src/engagements/engagements.repository.ts:23-38 | No transaction of the protocol, in which no account is deleted, rewrites a settled fact of any row or takes a row away |
| `Prices.PriceChangesExactlyByLateAcceptance` | src/cash-payment/services/confirm-cash-payment.service.ts:89-105 | An engagement's price changes in a step iff the step accepts a proposal still pending on the accepted quote at another price: the comment's claim that it never changes is false exactly there |
| `Races.AgreedPriceCanChange` | src/quote-negotiation/services/accept-quote-price-proposal.service.ts:68-100 | A reachable run in which an engaged job's price goes from 100 to 80 |
| `Prices.MoneyFollowsTheAgreedPrice` | src/engagements/engagements.repository.ts:208-247 | While no acceptance is late, every ledger event, attempt and open call of every interleaving carries its engagement's one price, however stale the read |
| `Theorems.TransitionsAreBounded` | src/engagements/engagements.repository.ts:62-141 | Over any run an engagement makes at most as many transitions as its rank drops, three at most, and enters each status at most once |
| `Theorems.StampsTellThePath` | src/engagements/engagements.repository.ts:48-141 | In every reachable state the stamps present are exactly those of the path to the current status and are in time order |
| `Lifecycle.EngagementStepKeepsWork` | src/engagements/engagements.repository.ts:62-141 | A guarded transition keeps stamps, visits and double-booking rules of all rows together |
| `Lifecycle.CommitKeepsWork` | src/engagements/services/start-engagement-work.service.ts:53-92 | The lifecycle and visit rules survive every transaction committed after a stale read |
| `Theorems.StartedMeansVisited` | src/engagements/services/start-engagement-work.service.ts:72-92 | A started engagement has a visit confirmed no later than the start, even when the visit was cancelled between the count and the start |
| `Theorems.NobodyIsDoubleBooked` | src/appointments/appointments.repository.ts:59-90 | In every reachable state two confirmed visits of one professional do not share a moment |
| `Theorems.RefusedConfirmationSucceedsOnceFree` | src/appointments/appointments.repository.ts:59-106 | A pending visit's confirmation changes nothing iff the slot is taken, and succeeds once every clashing visit has been cancelled |
| `Theorems.CancellingFreesSlots` | src/appointments/appointments.repository.ts:92-106 | Cancelling a list of visits cancels exactly those, leaves the others alone and moves no slot |
| `Writes.CountConfirmed` | src/appointments/appointments.repository.ts:44-57 | The count is positive iff some visit of the engagement is confirmed |
| `Theorems.OneCancellationOutcome` | src/engagements/services/cancel-engagement-by-customer.service.ts:96-125 | However many cancellations race, cancellation rows exist only for a cancelled engagement and come from one event; the ledger is nothing but the rows of its events |
| `Theorems.ChargeFollowsTheRead` | src/engagements/engagements.repository.ts:208-220 | A committed customer cancellation is charged iff the status read before the transaction was in progress, and then the engagement still is in progress |
| `Races.WorkInProgressCanBeCancelledFree` | src/engagements/services/cancel-engagement-by-customer.service.ts:76-120 | A reachable run in which work in progress is cancelled by the customer without any ledger row |
| `Theorems.NoMoneyWithoutAVisit` | src/engagements/services/start-engagement-work.service.ts:72-92 | Every event but a refund belongs to an engagement that started after a confirmed visit |
| `Ledger.ThreeRowGroupsBalance` | src/ledger/ledger.repository.ts:98-160 | A group has three rows iff it is a charge or a digital payment, all rows name its engagement, and a three-row group sums to zero |
| `Theorems.BalanceIsAFunctionOfTheJobs` | src/cash-payment/cash-payment.resolver.ts:76-82 | A professional's folded balance is the sum over their engagements of one payment's net plus one cancellation's net, each present only if it happened |
| `Theorems.BalanceFollowsThePrices` | src/ledger/ledger.repository.ts:302-345 | While no acceptance is late, each net behind a balance is the engagement's one price, or the nearest percentage of it as fee, less the nearest percentage frozen in its rows, by the kind of payment or cancellation |
| `Ledger.BalanceByEngagement` | src/ledger/ledger.repository.ts:302-345 | Credits minus cash debts of the ledger of any admissible event list equal the nets of the professional's engagements |
| `Ledger.NetIsPaymentPlusCancellation` | scripts/seed-payment-scenarios.ts:245-382 | An engagement's net is made of its one payment and its one cancellation and of nothing else |
| `Theorems.MoneyIsConserved` | src/ledger/ledger.repository.ts:346-372 | In every reachable state, no account having been deleted, what customers were charged equals the platform balance plus all professionals' balances |
| `Ledger.DeletionsConserveMoney` | prisma/schema.prisma:1552-1559 | Over events and account deletions in any order, what customers were charged equals the platform balance, the balances of the remaining professionals and the ownerless remainder |
| `Ledger.ForgetAll` | prisma/schema.prisma:1552-1559 | A deletion keeps every ledger row with its kind, amount and percentage, and blanks exactly the deleted professional and the deleted jobs |
| `Ledger.DeletionMovesOneBalance` | src/users/users.repository.ts:396-408 | Deleting an account moves its balance to the ownerless remainder and leaves every other balance as it was |
| `Ledger.CollectedIsShared` | src/ledger/ledger.repository.ts:346-372 | Over any events and account deletions, collected money is the platform's and the professionals' together; cash commission cancels out |
| `Money.RoundPercentIsNearest` | scripts/seed-payment-scenarios.ts:297-299 | The rounded share is the one integer within half a unit, ties upwards, of the exact share |
| `Money.CancellationBounds` | scripts/seed-payment-scenarios.ts:334-336 | Commission is at most the fee, the fee at most the price, with the exact drift bounds of one and of two roundings |
| `Money.ShareWithinWhole` | src/ledger/services/compute-commission.util.ts:10-33 | With a percentage up to 100 a rounded share never exceeds the amount |
| `Money.SummedFeesDrift` | scripts/seed-payment-scenarios.ts:297-299 | Over n jobs the summed rounded fees stay within n halves of the percentage of the summed prices |
| `Payments.ApprovalKeepsMoney` | src/payments/services/apply-payment-result.service.ts:127-175 | An approval of a pending attempt records the engagement's first and only payment |
| `Payments.NothingPaidWhilePending` | prisma/migrations/20260918120000_gos_85_card_payment_attempt/migration.sql:36-46 | While an attempt is pending nothing has been paid for its engagement |
| `Payments.CancellationKeepsMoney` | src/ledger/services/record-customer-cancellation-charge.service.ts:52-92 | A cancellation that wins its race is the first recorded for its engagement |
| `Cash.CashDoubleConfirmation` | src/cash-payment/cash-payment.resolver.ts:30-40 | While no provider answer lands on a cash attempt: after any sequence of confirmations there is one cash attempt an engagement, one debt at most, a debt iff both roles confirmed, and the method is cash |
| `CashRoles.DebtExactlyWhenBothRolesConfirmed` | scripts/seed-payment-scenarios.ts:245-317 | While no provider answer lands on a cash attempt, a cash debt is on the ledger after a run iff each of the two roles committed a confirmation during it, in any order and repetition |
| `CashRoles.StampsComeFromTheRole` | src/payments/payment-attempt.repository.ts:98-128 | A step adds a role's stamp to an engagement's cash attempt iff it commits that role's confirmation of it, and no step takes a stamp away |
| `Cash.CashKeptExactlyWithoutAdoption` | src/payments/services/handle-mercadopago-notification.service.ts:189-204 | A step keeps the cash rules iff it does not apply a provider answer to a cash attempt, which the lookup by engagement allows |
| `Cash.AdoptionBreaksCash` | src/payments/payment-attempt.repository.ts:216-236 | Any provider answer applied to a pending cash attempt breaks the cash rules |
| `Cash.ApprovalFindsMethodUnset` | src/payments/services/apply-payment-result.service.ts:154-172 | Approving a digital attempt always finds the payment method unset: the warning branch needs an adopted cash attempt |
| `Races.ProviderAnswerCanApproveCash` | src/payments/services/handle-mercadopago-notification.service.ts:198-203 | A reachable run: a card payment is rejected, the customer confirms the same amount in cash, and a second card payment under the same reference approves the cash attempt only one party confirmed |
| `TerminalEvents.SecondEventExactly` | src/ledger/services/classify-engagement-payment-event.util.ts:141-156 | From tables with one financial event an engagement, a step leads to a second one iff it records a cancellation of an engagement with an approved attempt, or approves a payment of one whose cancellation is on the ledger |
| `TerminalEvents.OneEventExactly` | src/ledger/services/classify-engagement-payment-event.util.ts:141-156 | Over any run of any interleaving, every engagement has one event at most iff no step of the run was such a step |
| `TerminalEvents.ReceiptIsComplete` | src/ledger/services/classify-engagement-payment-event.util.ts:157-165 | The rows of an engagement's newest event are all its ledger rows iff it has no earlier event |
| `TerminalEvents.OneCancellationOnTheLedger` | src/ledger/services/record-customer-cancellation-charge.service.ts:52-92 | In every reachable ledger an engagement has no cancellation row, or one refund, or one fee row followed by its commission and net rows, which sum to zero; and only a cancelled engagement has any |
| `Races.PaidJobCanStillBeCharged` | src/ledger/services/classify-engagement-payment-event.util.ts:149-156 | Such a run exists: paid in cash while in progress, then cancelled with a charge |
| `Writes.ActiveAttempt` | prisma/migrations/20260918120000_gos_85_card_payment_attempt/migration.sql:36-46 | Finds an active attempt of the engagement, or every attempt of it is inactive |
| `Safety.CommitIsSafe` | src/engagements/engagements.repository.ts:23-38 | The whole invariant of the tables survives any open call committed against tables that have moved on |
| `Safety.StepIsSafe` | src/appointments/appointments.repository.ts:44-52 | Every action of every caller keeps the invariant and settled history |
| `Safety.RunIsSafe` | src/engagements/engagements.repository.ts:23-38 | So does every finite interleaving |
| `Database.Store.RejectSiblings` | src/quotes/quotes.repository.ts:259-275 | Row by row: exactly the other quotes still on offer for the request are rejected |
| `Database.Store.AcceptQuote` | src/quotes/services/accept-quote.service.ts:139-172 | The transaction over mutable tables: commits the protocol's result or puts every table back |
| `Database.Store.SupersedePendingProposals` | src/quote-negotiation/quote-negotiation.repository.ts:67-75 | Row by row: exactly the pending proposals of the quote are superseded |
| `Database.Store.PostPrice` | src/quote-negotiation/services/post-quote-negotiation-message.service.ts:90-130 | Supersedes and appends one pending proposal; no other table changes |
| `Database.Store.AcceptProposal` | src/quote-negotiation/services/accept-quote-price-proposal.service.ts:78-100 | Resolves the proposal and sets the negotiated price together, or neither |
| `Database.Store.CountConfirmed` | src/appointments/appointments.repository.ts:53-57 | The loop counts what the protocol counts |
| `Database.Store.ConfirmAppointment` | src/appointments/appointments.repository.ts:78-90 | Confirms a pending visit unless a clashing one is confirmed; a conflict changes nothing |
| `Database.Store.UpsertCashConfirmation` | src/payments/payment-attempt.repository.ts:98-128 | Stamps the role on the active cash attempt or opens one; refused, with nothing changed, when a digital attempt holds the slot |
| `Database.Store.CancelByCustomer` | src/engagements/services/cancel-engagement-by-customer.service.ts:96-125 | Cancels and appends the three charge rows if the status read was in progress, or rolls everything back |
| `Database.Store.CancelByProfessional` | src/engagements/services/cancel-engagement-by-professional.service.ts:98-125 | Cancels and appends one refund row, or changes nothing |
| `Database.Store.ConfirmCash` | src/cash-payment/services/confirm-cash-payment.service.ts:109-155 | Method, upserted confirmation, approval and debt row together, or every table put back |
| `Database.Store.PayDigitally` | src/payments/payment-attempt.repository.ts:54-67 | Opens a digital attempt unless one is active |
| `Database.Store.ApplyPaymentResult` | src/payments/services/apply-payment-result.service.ts:127-175 | Resolves a pending attempt, on approval with its ledger group and method, or puts every table back |
| `Effects.AcceptEffect` | src/quotes/quotes.repository.ts:241-275 | An acceptance commits iff the request is open, the quote on offer for it and both keys free; row by row, only this request, its quotes and one new engagement differ, other customers' quotes never |
| `Effects.PostEffect` | src/quote-negotiation/quote-negotiation.repository.ts:60-90 | A post supersedes exactly the pending proposals of its quote, leaves all others and appends one pending proposal of its role and price |
| `Effects.AcceptProposalEffect` | src/quote-negotiation/services/accept-quote-price-proposal.service.ts:78-100 | Commits iff the proposal is pending; then that one proposal is accepted, that one quote gets the price, and nothing else differs |
| `Effects.SubmitEffect` | src/quotes/services/submit-quote.service.ts:60-66 | A submitted quote is stored on offer at its submitted price, not negotiated |
| `Effects.StartWorkEffect` | src/engagements/engagements.repository.ts:62-70 | Starting commits iff the engagement is accepted, and then only its status and start stamp differ |
| `Effects.FinishWorkEffect` | src/engagements/engagements.repository.ts:78-90 | Finishing changes only the status and finish stamp of work in progress, otherwise nothing |
| `Effects.CompletionEffect` | src/engagements/engagements.repository.ts:101-109 | Confirming changes only the status and completion stamp of finished work, otherwise nothing |
| `Effects.ConfirmVisitEffect` | src/appointments/appointments.repository.ts:78-90 | A pending visit is confirmed iff no other confirmed visit of its professional shares a moment with it; only that row differs |
| `Effects.CancelVisitEffect` | src/appointments/appointments.repository.ts:101-106 | Cancelling stamps exactly that visit unless it is cancelled already |
| `Effects.ProposeVisitEffect` | src/appointments/appointments.repository.ts:21-31 | A proposed visit is pending, of the engagement's professional, with a positive span |
| `Effects.RequestEffects` | src/service-requests/service-requests.repository.ts:284-289 | Publishing appends one open request; cancelling changes exactly an open one |
| `Effects.QuoteEffects` | src/quotes/quotes.repository.ts:215-235 | Withdrawing and rejecting take exactly that quote off the offer, and only while it is on offer |
| `Effects.RejectProposalEffect` | src/quote-negotiation/services/reject-quote-price-proposal.service.ts:30-70 | Rejecting resolves exactly a pending proposal |
| `Effects.AcceptOpens` | src/quotes/services/accept-quote.service.ts:94-137 | An acceptance opens iff the quote is on offer, its request open and the caller's, and no proposal on it pending; the call carries exactly those rows |
| `Effects.AcceptProposalOpens` | src/quote-negotiation/services/accept-quote-price-proposal.service.ts:50-76 | A price is accepted only by the party that did not propose it, while pending, on a quote still on offer, at the proposed price |
| `Effects.OffersOpen` | src/quotes/services/submit-quote.service.ts:36-58 | Quotes are submitted to open requests at a positive price, prices posted on quotes still on offer |
| `Effects.StartOpens` | src/engagements/services/start-engagement-work.service.ts:53-82 | Work opens iff the caller is the accepted job's professional and a visit of it is confirmed |
| `Effects.CancellationsOpen` | src/engagements/services/cancel-engagement-by-customer.service.ts:65-95 | Each party can cancel its own accepted or running job, carrying the status and price read |
| `Effects.PaymentsOpen` | src/cash-payment/services/confirm-cash-payment.service.ts:72-105 | Payment opens iff work started and was not cancelled and the method set, if any, agrees |
| `Effects.StepEffect` | src/quotes/services/accept-quote.service.ts:139-172 | A step's tables are its transaction's or unchanged; a committed call is closed, no other call is touched |
| `MoneyEffects.RowsOfAnEvent` | src/ledger/services/compute-commission.util.ts:25-33 | A payment is recorded as minus the price, the nearest percentage of it and the rest; a charge as minus the nearest percentage of the price, the nearest percentage of that and the rest; a refund as the price; cash as the nearest percentage owed |
| `MoneyEffects.EventNetIsTheNet` | src/ledger/services/compute-commission.util.ts:25-33 | What an event adds to the professional's balance is the price or fee less its nearest percentage, respectively minus that percentage for cash, and nothing for a refund |
| `MoneyEffects.ApprovalEffect` | src/payments/services/apply-payment-result.service.ts:127-175 | An approval commits iff the attempt is pending and a commission set; it resolves that attempt, sets the method only where unset and appends one payment group for the attempt's amount |
| `MoneyEffects.RejectionEffect` | src/payments/payment-attempt.repository.ts:130-160 | A rejection resolves exactly a pending attempt and records nothing |
| `MoneyEffects.PayDigitallyEffect` | src/payments/payment-attempt.repository.ts:54-67 | A card payment opens a pending attempt for the price iff no pending or approved attempt of the engagement exists |
| `MoneyEffects.FirstCashEffect` | src/payments/payment-attempt.repository.ts:98-128 | The first cash confirmation opens one cash attempt for the price with that role's stamp only |
| `MoneyEffects.LaterCashEffect` | src/cash-payment/services/confirm-cash-payment.service.ts:109-155 | A later one stamps the attempt; the one that completes both stamps approves it and records the nearest percentage of the price as debt; a digital attempt refuses it |
| `MoneyEffects.CustomerCancellationEffect` | src/engagements/services/cancel-engagement-by-customer.service.ts:96-125 | A cancellation commits iff the job is accepted or running and, when it was read in progress, a commission is set; it is then charged by one whole fee group, otherwise free; no other row differs |
| `MoneyEffects.ProfessionalCancellationEffect` | src/engagements/services/cancel-engagement-by-professional.service.ts:98-125 | Cancels exactly that engagement and appends one refund row of the price |
| `Theorems.PriceIsTheLastAgreed` | src/engagements/engagements.repository.ts:208-247 | In every reachable state a job's price is that of the last proposal accepted on its quote, or the quote's own when none was |
| `MediaUploads.UploadsAreSpentOnce` | src/media-uploads/media-uploads.repository.ts:62-80 | In every interleaving and ever after, a reference is consumed iff exactly one image shows it, attached by its owner for the use it was uploaded for; images never disappear |
| `MediaUploads.OnlyOwnersAttach` | src/media-uploads/media-uploads.repository.ts:37-60 | In every reachable state every attached file, and every reference a consumer holds, belongs to the user who read it and is for that use |
| `MediaUploads.AttachesAllOrNone` | src/quotes/services/add-quote-attachments.service.ts:74-94 | A consumer attaches all its references, in the order submitted, iff all are still pending, whether or not they expired since the read; it consumes exactly those and changes no other row; otherwise it rolls back |
| `MediaUploads.LengthCheckIsExact` | src/quotes/services/add-quote-attachments.service.ts:64-71 | Comparing lengths accepts a list iff it has no repetition and every id names an allowed row |
| `MediaUploads.ReadIsOk` | src/media-uploads/media-uploads.repository.ts:37-60 | The read succeeds iff the ids are distinct and each is the caller's, pending, unexpired and of the intended use |
| `MediaUploads.AttachKeepsSpentOnce` | src/media-uploads/media-uploads.repository.ts:62-80 | An attachment that commits keeps one image per spent reference |
| `MediaUploads.Repository.FindUsablePendingRefs` | src/media-uploads/media-uploads.repository.ts:47-60 | The filtered read returns exactly the usable rows named, in table order |
| `MediaUploads.Repository.MarkConsumed` | src/media-uploads/media-uploads.repository.ts:72-80 | The update consumes exactly the rows named and counts those that were pending |
| `MediaUploads.Repository.Attach` | src/quotes/services/add-quote-attachments.service.ts:79-94 | Images first, then the count check: commits or takes both tables back |
| `SettingsShown.SettingsShownExactly` | admin-panel/js/settings.js:501-609 | For every list of settings and slots: every shown control is the last entry of its key, no key is shown twice, and a key is shown iff it has an entry whose field is visible |
| `SettingsShown.NothingIsDropped` | admin-panel/js/settings.js:1322-1373 | With keys of at least two segments and tidy buckets, the panel shows exactly the stored keys and the unconfigured known slots, less those in a bucket the mode does not select |
| `SettingsPanel.EveryFieldOnce` | admin-panel/js/settings.js:1468-1498 | For any tree, mixed nodes included, the mutually recursive renderers emit every field below the root exactly once and nothing else |
| `SettingsPanel.GroupChildrenShow` | admin-panel/js/settings.js:1322-1373 | A group's content is every field strictly below it, once each |
| `SettingsPanel.GroupNodesShow` | admin-panel/js/settings.js:1408-1444 | The nested sections hold every field two or more levels below, once each |
| `SettingsPanel.LeafBlockShows` | admin-panel/js/settings.js:1242-1294 | A block holds every field of its node once |
| `SettingsPanel.LeafBlockInOrder` | admin-panel/js/settings.js:629-638 | Inside a block general configuration precedes credentials, then switches precede the rest, then names are alphabetical |
| `SettingsPanel.TabsShow` | admin-panel/js/settings.js:1663-1672 | The tabs hold every field below the root, once each |
| `SettingsShown.ItemOrigin` | admin-panel/js/settings.js:588-609 | Every shown control comes from one field of the built tree, under the group where that field belongs |
| `SettingsShown.OneSegmentKeysAreNeverShown` | admin-panel/js/settings.js:504-521 | A stored key without a dot is never shown, whatever else is stored |
| `SettingsShown.BucketSubGroupsAreNeverShown` | admin-panel/js/settings.js:604-608 | A setting in a sub-group of a bucket that does not itself collapse is never shown, even in the active bucket |
| `SettingsShown.NameClashHidesASetting` | admin-panel/js/settings.js:606-606 | Four concrete keys of which one, in no inactive bucket, is not shown |
| `SettingsShown.OverriddenExactly` | admin-panel/js/settings.js:588-609 | The merge takes a field over iff some group strictly below, on the active buckets only, has a field of its name |
| `SettingsShown.OverriddenIsHidden` | admin-panel/js/settings.js:606-606 | A setting is never shown when a group further down the active buckets has a setting of its name |
| `SettingsTrie.LookupIsExact` | admin-panel/js/settings.js:504-521 | Before merging, looking any key up along its path gives the last setting inserted under it, and nothing for other keys |
| `SettingsTrie.SlotsOnlyFillGaps` | admin-panel/js/settings.js:534-560 | A known slot never hides a stored setting, and where nothing is stored it stands as listed, without a value |
| `SettingsTrie.LastWithIsLast` | admin-panel/js/settings.js:504-521 | The last entry of a key is the one with no other of that key after it |
| `SettingsTrie.KeptExactly` | admin-panel/js/settings.js:588-609 | The merged tree has exactly the groups not under a bucket named sandbox or production of a collapsing group |
| `SettingsShown.CollapsesExactly` | admin-panel/js/settings.js:593-600 | A group collapses iff a mode key and a key under each of its two buckets are configured |
| `SettingsShown.ActiveExactly` | admin-panel/js/settings.js:600-604 | Production is active iff the stored mode is PRODUCTION, otherwise sandbox |
| `SettingsOrder.ShownInOrder` | admin-panel/js/settings.js:1322-1373 | The whole panel is listed in one order: tabs alphabetical, a group's own fields before everything below it, own-field blocks of sub-groups before their sections, each alphabetical |
| `SettingsOrder.PanelInOrder` | admin-panel/js/settings.js:1468-1498 | So it is for any tree, mixed nodes included |
| `SettingsOrder.OrderIsStrict` | admin-panel/js/settings.js:611-613 | That order leaves no choice: of two controls at most one comes first |
| `SettingsKeys.LessIsLexicographic` | admin-panel/js/settings.js:611-613 | Names are compared as in a dictionary, by code unit |
| `SettingsTrie.BuildIgnoresOrder` | admin-panel/js/settings.js:501-560 | Two lists with the same settings, keys distinct, build the same tree |
| `SettingsTrie.GroupsAreExact` | admin-panel/js/settings.js:509-519 | The tree has exactly the groups some key passes through, and the root |
| `SettingsTrie.BuildKeepsShape` | admin-panel/js/settings.js:504-521 | Every group above a group exists and every field lies where its key says |
| `SettingsTrie.MergeIsIdempotent` | admin-panel/js/settings.js:588-609 | Merging twice is merging once |
| `SettingsTrie.MergeLeavesNothingToCollapse` | admin-panel/js/settings.js:588-609 | Afterwards no node has a mode field and both buckets |
| `SettingsTrie.MergeIsLocal` | admin-panel/js/settings.js:588-609 | A node that does not collapse keeps exactly its fields and its sub-groups |
| `SettingsTree.Tree.Insert` | admin-panel/js/settings.js:504-521 | Walking and creating nodes in place has the effect of one insertion on the tree's contents |
| `SettingsTree.Tree.MergeActiveModeCredentials` | admin-panel/js/settings.js:588-609 | The in-place post-order merge of a subtree leaves the closed form: final fields of the active chain, bucket subtrees gone, the rest of the tree as it was |
| `SettingsTree.Tree.MergeChildren` | admin-panel/js/settings.js:589-591 | The loop over the children merges each subtree, in any order, with the same outcome |
| `SettingsTree.Tree.CollapseNode` | admin-panel/js/settings.js:593-608 | Taking over the active bucket's fields and deleting both buckets completes the merge of a node |
| `SettingsTree.BuildSettingsTree` | admin-panel/js/settings.js:501-565 | The mutable tree holds the merge of all stored settings and missing slots |
| `SettingsRender.RenderLeafBlock` | admin-panel/js/settings.js:1267-1290 | The two-bucket loop produces the block |
| `SettingsRender.RenderGroupChildren` | admin-panel/js/settings.js:1322-1373 | The recursive renderer over linked nodes produces the group's list of controls |
| `SettingsRender.RenderRootTabPanelContent` | admin-panel/js/settings.js:1468-1498 | So does the tab panel, with own fields and children checked independently |
| `SettingsRender.RenderRootTabs` | admin-panel/js/settings.js:1663-1672 | So do the tabs together |
| `SettingsRender.LoadSettings` | admin-panel/js/settings.js:1764-1811 | Build, merge and render over mutable nodes give the list the theorems speak of |
| `SettingsRender.SortNames` | admin-panel/js/settings.js:611-613 | Repeatedly taking the first name gives the sorted list |
| `SettingsKeys.JoinSplit` | admin-panel/js/settings.js:505-507 | Joining the segments of a key gives the key back |
| `SettingsKeys.SplitJoin` | admin-panel/js/settings.js:505-507 | Splitting joined dot-free segments gives the segments back |
| `SettingsKeys.SortedIsSorted` | admin-panel/js/settings.js:611-638 | Sorting keeps every name once and in order, for both orders the panel uses |
| `SettingsKeys.SortingIsUnique` | admin-panel/js/settings.js:611-638 | Only one list is the sorted list, so the order names arrive in does not matter |
| `CategoryRoundTrip.DropRoundTrip` | admin-panel/js/categories.js:496-574 | For any forest and any allowed drop, in any order of handling: every update is accepted, is the only one to its row and really changes it, the rows stay a forest, and the tree built from them is the tree on the page |
| `CategoryLevels.DropRendersExactly` | admin-panel/js/categories.js:36-52 | A drop on a page that renders leads to a page that renders iff the dragged category and all below it fit into the levels the query leaves under the target; nothing checks it |
| `CategoryLevels.RendersExactly` | admin-panel/js/categories.js:373-404 | A tree renders iff no category lies more levels down than the query asks for |
| `CategoryRoundTrip.EveryListReadsBack` | admin-panel/js/categories.js:496-519 | After the drop every container of the rows reads back, in order, as the list the page shows for it |
| `CategoryRoundTrip.DropCallsRealise` | admin-panel/js/categories.js:500-519 | The emitted updates are real changes to distinct rows and together are exactly the renumbered and reparented rows |
| `CategoryRoundTrip.OnlyTheDraggedMoves` | admin-panel/js/categories.js:508-514 | No row but the dragged one changes parent |
| `CategoryRoundTrip.DroppedReadsBack` | admin-panel/js/categories.js:521-560 | What stays, and the dragged subtree at its new place, nest as the rows read back |
| `CategoryRoundTrip.UntouchedReadsBack` | admin-panel/js/categories.js:521-560 | A subtree containing neither container of the drop reads back unchanged |
| `CategoryRoundTrip.DropListExactly` | admin-panel/js/categories.js:521-546 | After the drop the source list has lost the dragged place, the target list has it at the dropped place, and every other list is as it was |
| `CategoryDrop.RenumberContainer` | admin-panel/js/categories.js:496-519 | The loop over the list emits, position by position, the update of each element that needs one |
| `CategoryDrop.HandleSortableEnd` | admin-panel/js/categories.js:521-546 | Nothing for a drop in place, one container for a reorder, both for a reparenting |
| `CategoryDrop.UpdateAtFixesTheRow` | admin-panel/js/categories.js:500-515 | The update at a position leaves its row with that position and container, is absent iff the row already has them, and carries only changed fields |
| `CategoryDrop.RenumberingRealises` | admin-panel/js/categories.js:496-519 | One container's updates turn its listed rows into that list and touch no others |
| `CategoryUpdates.OrderDoesNotMatter` | admin-panel/js/categories.js:541-552 | Updates to distinct rows with one checked move are all accepted and have one outcome in every order |
| `CategoryUpdates.SafeCallsAreServed` | src/platform-admin/categories/services/update-category.service.ts:36-123 | Such updates pass the server's checks one after the other and leave what they say |
| `CategoryUpdates.FindDescendantIds` | src/profiles/profiles.repository.ts:244-268 | The breadth-first search returns the category and exactly the categories whose parents lead to it |
| `CategoryUpdates.UpdateCategory` | src/platform-admin/categories/services/update-category.service.ts:36-123 | An update is written whole or refused with nothing written; on a forest it is written iff the row and parent exist and the result is a forest; the written row has the fields sent and its old ones, and no other row differs |
| `CategoryUpdates.AcceptsExactly` | src/platform-admin/categories/services/update-category.service.ts:76-98 | On a forest the server's checks pass iff the row and the new parent exist and the rows, written whole, are still a forest |
| `CategoryUpdates.TwoMovesKeepForestExactly` | src/platform-admin/categories/services/update-category.service.ts:76-123 | Of two moves that both pass the cycle check against the same rows, both written leave a forest iff not each goes to the other category or below it |
| `CategoryUpdates.MovesCheckedTogetherCanLoop` | src/platform-admin/categories/services/update-category.service.ts:76-123 | The smallest such pair; served one after the other, the second is refused |
| `CategoryRows.OnMoveIsExact` | admin-panel/js/categories.js:466-482 | The drag is allowed iff the resulting parent links are still a forest |
| `CategoryRows.MoveKeepsForestExactly` | src/platform-admin/categories/services/update-category.service.ts:76-98 | Reparenting keeps every category on a way to the root iff the target is neither the category nor below it |
| `CategoryRows.ParentOptionsAreExact` | admin-panel/js/categories.js:636-656 | The dropdown offers exactly the parents that keep a forest, and every one when creating |
| `CategoryRows.ParentOptionsInPageOrder` | admin-panel/js/categories.js:636-656 | The options start with no parent and follow the order of the page |
| `CategoryRows.PopulateParentOptions` | admin-panel/js/categories.js:636-656 | The loop over the flat list builds those options |
| `CategoryRows.DescendantsAreBelow` | admin-panel/js/categories.js:235-241 | The ids collected from a node are exactly the rows whose parents lead to it |
| `CategoryRows.EveryRowIsFound` | admin-panel/js/categories.js:243-250 | In the tree of a forest, lookup finds exactly the stored ids, each with its own row and contents |
| `CategoryRows.IdsAreFound` | admin-panel/js/categories.js:243-250 | Lookup succeeds iff the id occurs in the tree |
| `CategoryForest.DecodeUndoesFlatten` | admin-panel/js/categories.js:224-233 | The flat list with depths determines the tree |
| `CategoryForest.FlattenUndoesDecode` | admin-panel/js/categories.js:224-233 | And every well-formed outline is the flat list of the tree read from it |
| `CategoryForest.DescendantsAreTheRun` | admin-panel/js/categories.js:224-241 | A node's collected ids are exactly those of the maximal deeper run after its line |
| `CategoryForest.RunIsTheSubtree` | admin-panel/js/categories.js:224-233 | That run is the node's subtree, flattened |
| `CategoryForest.Flatten` | admin-panel/js/categories.js:224-233 | The recursive loop builds the flat list |
| `CategoryForest.CollectDescendantIds` | admin-panel/js/categories.js:235-241 | Filling one shared set adds exactly the descendants to what it held |
| `CategoryTree.BuildShows` | src/profiles/utils/sort-categories-tree-order.util.ts:47-75 | The tree built from a forest shows its rows in sibling order all the way down |
| `CategoryTree.ShowsIsUnique` | src/profiles/utils/sort-categories-tree-order.util.ts:47-75 | Rows show as one tree only |
| `CategoryTree.ChildIdsListChildren` | src/profiles/profiles.repository.ts:211-216 | Sorting once and grouping by parent lists each container's children by displayOrder, then name |
| `CategorySiblings.PressSwapsExactly` | admin-panel/js/categories.js:579-600 | A press exchanges two neighbours iff their displayOrders differ and the outer neighbours still sort outside |
| `CategorySiblings.PressSends` | admin-panel/js/categories.js:592-601 | A press sends each of the two neighbours the displayOrder of the other and nothing else |
| `CategorySiblings.NothingAtTheEnds` | admin-panel/js/categories.js:579-591 | A press sends nothing iff there is no neighbour in its direction |
| `CategorySiblings.PressExchanges` | admin-panel/js/categories.js:592-601 | The two requests exchange the two displayOrders in whichever order they land |
| `CategorySiblings.PressKeepsOtherContainers` | admin-panel/js/categories.js:579-600 | Every other container reads back as before |
| `CategorySiblings.DistinctOrdersAlwaysSwap` | admin-panel/js/categories.js:576-600 | With distinct displayOrders every press is an exchange of neighbours |
| `CategorySiblings.TiesNeverMove` | src/platform-admin/categories/services/create-category.service.ts:56-56 | The updates a press sends leave every row as it was iff the two displayOrders are equal, as for categories created with the default |
| `CategorySiblings.ExchangeKeepsOrders` | admin-panel/js/categories.js:592-601 | The multiset of displayOrders is kept |
| `CategorySiblings.DownThenUpRestores` | admin-panel/js/categories.js:579-620 | Down and then, on the re-read page, up restores every row |
| `CategorySiblings.MoveSibling` | admin-panel/js/categories.js:579-601 | Finds the place by id and sends the two updates, or none at the ends |

## Left out

- The checks a caller makes before its transaction are one read of the tables, except the separate later read
  of the price in cash and card payment, which is its own step. A statement or a transaction is one step.
- Identity: which user owns which profile, sessions, permissions and anti-enumeration errors. A failed check
  is a refusal without its error code.
- Commission percentages above 100 are not excluded from the ledger theorems; the bounds of `Money` assume at
  most 100. The setting is absent or a natural number.
- Which party proposed a visit, and the rule that it cannot confirm its own proposal; the platform settings that
  let a party propose prices at all.
- Timestamps of quotes, proposals and messages, chat messages, the audit log and notifications.
- The provider's wire format, the comparison of the charged amount with the attempt, wallet attempts and
  refunds at the provider: an answer is approved or not. Reports of a no-show, which only bump a counter.
- Deleting a user's account (`src/platform-admin/user-accounts/services/delete-user-account.service.ts:41-65`), which
  erases the user's requests, quotes, engagements, visits and attempts by cascade, is not a step of the protocol.
  What it does to the ledger is: the rows stay and lose the professional and the engagement.
- CommitKeepsHistory: speaks of the protocol's transactions, so not of account deletion.
- MoneyIsConserved: speaks of states without a deleted account; `Ledger.DeletionsConserveMoney` has them.
- Statements of one guarded update (cancel a request, withdraw a quote, start, finish and complete work, cancel a
  visit) appear as functions only, not over tables updated in place.
- CashDoubleConfirmation: assumes that no provider answer is applied to a cash attempt, because otherwise it is
  false; `Cash.CashKeptExactlyWithoutAdoption` says so step by step.
- DebtExactlyWhenBothRolesConfirmed: rests on the same assumption, for the same reason.
- MoneyFollowsTheAgreedPrice: assumes that no acceptance of a proposal is late, because otherwise it is false;
  `Prices.PriceChangesExactlyByLateAcceptance` says so step by step.
- BalanceFollowsThePrices: rests on the same assumption.
- NothingIsDropped: assumes tidy buckets and keys of two segments or more; `SettingsShown.SettingsShownExactly`
  has no assumption.
- Negotiation messages and chat messages without an image; the file of an upload is named by its reference.
- Settings: headings, tabs and controls as DOM, `localeCompare` (names are ordered by code unit), segments
  named like a property of `Object.prototype`, the separate storage tab, the metadata a control shows beside
  its value.
- Categories: DOM and drag mechanics, tree guides, create, rename and delete. Collapsing a category, which keeps
  rendering from descending into it, is left out: every category counts as expanded.
- DropRoundTrip: takes the page to hold the whole tree, which a page that renders does. Whether the page of the
  tree read back can be opened again is `CategoryLevels.DropRendersExactly`.
- Categories: names are their rank in the database's order; each update is handled on its own, except in
  `TwoMovesKeepForestExactly` and `MovesCheckedTogetherCanLoop`.
- BuildTree, Sorted and the render functions are specifications; the sorting of the database and of
  `Array.prototype.sort` is taken as their contract.
