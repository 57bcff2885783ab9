# Event Nu: verified models of the backend's protocols

Event Nu is a Go backend with a Next.js admin console. This project models the
protocols behind its handlers and proves what they keep over whole runs.
Each SQL statement, or each request transaction where one is open, is an atomic
step over rows; classes carry the statements and loops of the source and are tied
to specification functions, and lemmas prove the properties of runs of these.
The bodies of the stored functions are taken from the migrations.

| area | files |
|---|---|
| offline delta sync: pages, cursor merge, client replica, catch-up | `SyncCatalogue`, `SyncService`, `SyncPoll`, `SyncReplica`, `SyncCatchUp`, with `Iteration` |
| orders, ticket stock, tickets and payment ledger | `OrderBook`, `OrderStore`, `OrderInvariants`, `OrderPlacement`, `OrderRuns`, `OrderOutcomes`, `OrderAnswers` |
| idempotency keys inside the request transaction | `Idempotency`, `IdempotencyRuns` |
| leased queues: email outbox and push dispatch | `Outbox`, `OutboxRuns`, `Push`, `PushRuns` |
| fixed-window rate limiter and its janitor | `RateLimit` |
| refresh-token rotation, and the console's single-flight refresh in front of it | `Sessions`, `SingleFlight` |
| amounts as strings, organizer slugs | `Money`, `Slug`, `Organizers`, with `Text` and `Prelude` |

Where a promise is not kept by the code, the code is modelled as it is, and the exact
condition under which the promise holds is proved beside a failing example:

- **Sync can skip rows.** A delete's watermark can carry the cursor past an unfinished
  upsert stream (`backend/internal/service/sync.go:238-241`), and more equal stamps than a
  page holds stop the cursor for good. The comment at lines 101-108 names neither
  condition. See `NoGapIff`, `CaughtUpMirrorsIff`, `LateDeleteEndsWrong`, `StallIff`, `EqualStampsStall`.
- **Rows that leave the view without a soft delete linger** on clients: unpublished or
  blocked events and hard-deleted comments are announced by nothing (`VanishedRowLingers`).
- **A poll for some domains loses rows of the others.** There is one cursor for all domains, so
  `?domains=` carries it past rows of those not named (`NarrowPollIff`, `EventsFirstLosesVenue`).
- **`failed_at` is not set once**, unlike what `backend/internal/repository/payment.go:67-69`
  says: each further failure event overwrites it. `paid_at` does keep its first value.
- **A failure event in a currency other than the order's** is rolled back by the ledger's
  trigger, so such an event decides nothing (`DecisionOf`).
- **`idempotency_in_progress` is never answered** while `Complete` succeeds: racing
  requests wait for the uncommitted row and are then answered from the record.
- **`MarkFailed` does not look at the status**, so a late failure re-queues a sent email.
- **Failed device queries are not capped** by PUSH_MAX_ATTEMPTS, against the comment at
  `backend/internal/repository/notification.go:174-177`.
- **Retry-After can be too short** when two checks guard one route.
- **Order totals wrap** at 2^63, and **negative amounts** lose their hundredths in a round trip.
- **Applicants with equal slugs, or names that leave none,** cannot both be approved.

Times are integers; where only order matters their unit is left open. Tokens, keys and
digests are compared as given, which takes the hashes to be collision free. What a caller,
a provider or the network decides is a parameter of the step.

## Model

| member | source | states |
|---|---|---|
| `SyncCatalogue.InOrderSorts` | backend/internal/repository/sync.go:69-94 | an `ORDER BY updated_at, id` read returns every selected row exactly once, in strictly ascending order |
| `SyncCatalogue.WhitelistsAgree` | backend/migrations/00018_sync.sql:20-29 | the domains whose deletes the service asks for are exactly those the privileged helper accepts, so its error is never met |
| `SyncCatalogue.OrderIsWhitelist` | backend/internal/service/sync.go:30-42 | the default request names exactly the whitelisted domains, in the canonical order |
| `SyncService.PageOf` | backend/internal/repository/sync.go:47-59 | a page keeps the first `limit` rows, has more exactly when more than `limit` were read, and its watermark is the latest stamp read (sentinel included), never before the cursor |
| `SyncService.ReadPage` | backend/internal/repository/sync.go:69-94 | one `limit`+1 read cut by `pageOf` is the stream's page |
| `SyncService.ReadDeleted` | backend/internal/repository/sync.go:255-276 | the deleted rows' page, and an error for a domain outside the helper's own list |
| `SyncService.EmitUpserts` | backend/internal/service/sync.go:161-163 | one upsert for each row of the page, in page order |
| `SyncService.EmitDeletes` | backend/internal/service/sync.go:235-237 | one delete for each row of the page, in page order |
| `SyncService.PullDomain` | backend/internal/service/sync.go:152-245 | an unknown domain is an error; of a known one, its upserts, then for delete-capable domains its deletes, under the later of the two watermarks and the or of the two has-more flags |
| `SyncService.PullEach` | backend/internal/service/sync.go:124-149 | the loop computes the response from the domains' pages; any domain outside the whitelist fails the poll |
| `SyncService.Pull` | backend/internal/service/sync.go:109-150 | the poll succeeds exactly when every named domain is known, no names meaning all of them in canonical order, and then returns that response |
| `SyncService.SendHasMore` | backend/internal/api/handlers/sync.go:51-59 | the response names exactly the domains whose flag is set |
| `SyncPoll.StreamPageCarries` | backend/internal/repository/sync.go:34-59 | a page holds every selected row stamped below its watermark, everything selected when there is no more; when there is, it is full and has left a row stamped at the watermark behind |
| `SyncPoll.ResponseCarries` | backend/internal/service/sync.go:124-139 | an operation is in the response exactly when its domain was asked for and its row is on that domain's upsert or delete page |
| `SyncPoll.RequestedIs` | backend/internal/service/sync.go:109-113 | a request that names no domain is for every whitelisted one, any other for what it names |
| `SyncPoll.HasMoreIs` | backend/internal/service/sync.go:129 | the result has a flag for exactly the requested domains, set exactly when a stream of the domain has more rows from the cursor on than fit a page |
| `SyncPoll.SentIs` | backend/internal/api/dto/sync.go:12-19 | a client is told of more for exactly the requested domains with such a stream; a domain that is absent is exhausted |
| `SyncPoll.ResponseInRequestOrder` | backend/internal/service/sync.go:124-131 | changes come domain by domain in the order of the request |
| `SyncPoll.ResponseInStampOrder` | backend/internal/service/sync.go:152-245 | within a domain upserts come before deletes, each in ascending order of stamp and id, with the catalogue's rows |
| `SyncPoll.NextIs` | backend/internal/service/sync.go:141-147 | the next cursor is the earliest watermark of the unfinished domains, else the latest of all; it never moves back |
| `SyncPoll.NoGapIff` | backend/internal/service/sync.go:101-108 | a poll tells of every row stamped in [cursor, next cursor) if and only if every unfinished stream was read up to some unfinished domain's merged watermark; the documented absence of gaps is conditional |
| `SyncPoll.UpsertOnlyDomainsHaveNoGap` | backend/internal/service/sync.go:141-147 | domains without soft deletes are always read without a gap |
| `SyncPoll.MergedWatermarkBehindHasNoGap` | backend/internal/service/sync.go:230-242 | delete-capable domains are read without a gap while the merged watermark does not pass that of an unfinished stream |
| `SyncPoll.FinishedPollTellsAll` | backend/internal/service/sync.go:141-149 | a poll with nothing more has told of every row stamped from the cursor on |
| `SyncReplica.ApplyAllAt` | backend/internal/service/sync.go:101-108 | applying a response idempotently sets or drops each row it names and touches no other |
| `SyncReplica.EmptyReplicaAgrees` | backend/internal/service/sync.go:101-108 | a client with an empty replica and a cursor before every stamp agrees with the catalogue |
| `SyncReplica.ResponseElsewhere` | backend/internal/service/sync.go:124-139 | a response changes nothing of a domain that was not asked for |
| `SyncReplica.PollAgreesIff` | backend/internal/service/sync.go:109-150 | for any poll the replica is right about every row below the new cursor if and only if it was right below the old one and every row the cursor passes is announced or was right already; a poll never repairs what was wrong below the cursor |
| `SyncReplica.NarrowPollIff` | backend/internal/service/sync.go:109-150 | a poll without a gap that asks for some of the client's domains misses nothing of the others if and only if every row of theirs that the one cursor passes was right on the replica already |
| `SyncReplica.NarrowPollLoses` | backend/internal/service/sync.go:109-113 | a row of a domain not asked for that the cursor passes and the replica lacks is lost in every run that does not touch it |
| `SyncReplica.EventsFirstLosesVenue` | backend/internal/service/sync.go:109-113 | a concrete catalogue in which a first poll for events alone loses a venue whatever is polled for later |
| `SyncReplica.ExhaustedMirrorsIff` | backend/internal/api/dto/sync.go:12-19 | of each requested domain a response does not name in has_more, the replica mirrors the visible rows afterwards if and only if it agreed about the domain before |
| `SyncReplica.PollKeepsAgreement` | backend/internal/service/sync.go:109-150 | from an agreeing replica, a poll that misses nothing keeps it right below the new cursor and equal to the visible rows of every domain reported complete |
| `SyncReplica.FinishedPollMirrors` | backend/internal/service/sync.go:109-150 | a poll that reports nothing more and asks for all of the client's domains leaves the replica equal to the visible catalogue if and only if it agreed before the poll |
| `SyncReplica.RunsConverge` | backend/internal/service/sync.go:101-150 | over every run in which edits are stamped at or after the cursor, rows leave by soft delete, and each poll, whatever its page size and domains, announces the client's rows its cursor passes unless they are right already: the replica agrees below the cursor and mirrors each of the client's domains the last poll reported complete |
| `SyncReplica.FreshClientConverges` | backend/internal/service/sync.go:101-150 | so does a client that starts with nothing, before every stamp |
| `SyncReplica.GapIsPermanent` | backend/internal/service/sync.go:141-147 | a row the cursor has passed and the replica lacks is missing after every further run that does not touch the row, whatever domains its polls name |
| `SyncReplica.VanishedRowLingers` | backend/internal/repository/sync.go:69-76 | a held row that leaves the public view without a soft delete, or of a domain without one, stays on the replica through every run until it is announced again, whatever domains its polls name |
| `SyncCatchUp.StallIff` | backend/internal/service/sync.go:132-147 | an unfinished poll leaves the cursor where it was if and only if some requested domain has more rows than a page stamped at the cursor in one stream and no later watermark in the other |
| `SyncCatchUp.StallIsForever` | backend/internal/service/sync.go:132-147 | a client that stalls at a domain never moves again, over every run whose edits leave the jam in place and whose polls ask for the domain with pages no larger |
| `SyncCatchUp.PollShrinksBacklog` | backend/internal/service/sync.go:132-147 | when no stamp is shared by more than `limit` rows of a stream, an unfinished poll strictly shrinks the set of rows stamped at or after the cursor |
| `SyncCatchUp.CatchUpEnds` | backend/internal/service/sync.go:109-150 | when no stamp from the cursor on is shared by more rows of a stream than fit a page, polling a catalogue that stands still reports nothing more for the first time after at most one poll per backlog row plus one, gaps or not |
| `SyncCatchUp.AgreesAfterIff` | backend/internal/service/sync.go:109-150 | the replica agrees after k polls if and only if it agreed at the start and no poll on the way missed a row; later polls make nothing good |
| `SyncCatchUp.CaughtUpMirrorsIff` | backend/internal/service/sync.go:101-150 | a client that has caught up with a catalogue that stands still mirrors it if and only if it agreed at the start and no poll before the last missed a row |
| `SyncCatchUp.GaplessCatchUpMirrors` | backend/internal/service/sync.go:101-150 | a client that agreed at the start mirrors the catalogue when it has caught up if the polls it made left no gap at the cursors they visited |
| `SyncCatchUp.UpsertOnlyCatchUpEnds` | backend/internal/service/sync.go:101-150 | for domains without soft deletes, an agreeing client catches up within that many polls and mirrors the catalogue, with no condition on gaps |
| `SyncCatchUp.EqualStampsStall` | backend/internal/service/sync.go:132-147 | for every page size, `limit`+1 categories with one stamp stall a client at that stamp over every run of polls for them with pages no larger |
| `SyncCatchUp.LateDeleteGap` | backend/internal/service/sync.go:238-241 | a concrete catalogue in which the merged watermark passes an unfinished upsert stream and the poll leaves a gap |
| `SyncCatchUp.LateDeleteLosesEvent` | backend/internal/service/sync.go:238-241 | the published event in that gap never reaches the client over any later run of polls |
| `SyncCatchUp.LateDeleteIsSparse` | backend/internal/service/sync.go:238-241 | that catalogue shares no stamp beyond a page and an empty client agrees with it at first |
| `SyncCatchUp.LateDeleteEndsWrong` | backend/internal/service/sync.go:238-241 | so polling it ends with nothing more reported and a replica that does not mirror it |
| `OrderStore.Store.ReserveInventory` | backend/migrations/00016_tickets_orders.sql:53-79 | reserve_ticket_inventory: raises on a quantity below one or past the integer column's range, reserves exactly when the tier exists, is active and has room |
| `OrderStore.Store.ReleaseInventory` | backend/migrations/00016_tickets_orders.sql:83-101 | release_ticket_inventory raises on a quantity below one; else it takes the quantity off, not below zero |
| `OrderStore.Store.ReleaseItems` | backend/internal/repository/order.go:300-304 | every line's quantity is released, line by line, or the first bad one raises |
| `OrderStore.Store.ReserveLine` | backend/internal/repository/order.go:137-182 | one pass of the line loop prices and reserves the line or stops with the source's error |
| `OrderStore.Store.ReserveLines` | backend/internal/repository/order.go:132-183 | the whole loop is the fold of its passes, stopping at the first error |
| `OrderStore.Store.CreateOrder` | backend/internal/service/order.go:158-184 | the quantity checks and then the order, its lines and its total, or the error |
| `OrderStore.Store.PlaceAndPay` | backend/internal/api/middleware/tx.go:49-60 | answers with the new order or the error; a rejected order or failed checkout leaves every table as it was |
| `OrderStore.Store.Initiate` | backend/internal/service/payment.go:70-111 | a pending ledger row for the order's total and currency is opened when a checkout was; an existing row aborts the transaction, record_pending_payment having no conflict clause |
| `OrderStore.Store.Cancel` | backend/internal/repository/order.go:270-312 | the buyer's own pending order is cancelled and its stock released; otherwise nothing changes |
| `OrderStore.Store.IssueTickets` | backend/internal/repository/order.go:344-369 | one ticket for each unit of each line is appended |
| `OrderStore.Store.ConfirmPaid` | backend/internal/repository/order.go:319-377 | pending becomes paid with its tickets; any other status is reported as already paid |
| `OrderStore.Store.FailPayment` | backend/internal/repository/order.go:384-427 | pending becomes failed with its stock released; a paid order is refused, others are left |
| `OrderStore.Store.UpsertFromWebhook` | backend/internal/repository/payment.go:70-91 | the ledger row is inserted, or overwritten with the new status and stamps preferred, unless the currency trigger raises |
| `OrderStore.Store.ApplySuccess` | backend/internal/service/payment.go:153-187 | confirms the order and records it paid; a repeated event records nothing |
| `OrderStore.Store.ApplyFailure` | backend/internal/service/payment.go:189-233 | fails the order and records a failed row, with the provider's amount and currency where given |
| `OrderStore.Store.HandleWebhook` | backend/internal/service/payment.go:125-151 | signature, reference and provider checks, then success, failure or nothing, all in one transaction |
| `OrderInvariants.ReleaseIsExact` | backend/migrations/00016_tickets_orders.sql:84-101 | releasing lines a tier covers takes off exactly their units; the floor at zero is never reached |
| `OrderInvariants.DraftIs` | backend/internal/repository/order.go:132-183 | an accepted draft prices each line at its tier, reserves exactly its units without passing a set total, and sums the subtotal in int64 arithmetic |
| `OrderPlacement.DraftIff` | backend/internal/repository/order.go:132-183 | the line loop goes through if and only if every line is offered, one currency is met and every tier has room for all that is asked of it together, in whatever order and however split over lines |
| `OrderPlacement.PlacedIff` | backend/internal/service/order.go:158-184 | a ticket request places an order if and only if its event is found, its lines are offered in one currency for positive quantities, there is room for all of them, and no amount is negative in int64 arithmetic |
| `OrderRuns.StepKeeps` | backend/internal/repository/order.go:123-427 | every request keeps stock conservation, order soundness, ticket exactness and ledger agreement |
| `OrderRuns.RunKeeps` | backend/internal/repository/order.go:123-427 | these hold along every run: each tier's sold count is the sum of its units on pending and paid orders, each paid order has exactly its tickets and no other has any, a ledger row is paid exactly when its order is, then for the order's total, and a failed row has a failed or cancelled order |
| `OrderRuns.ReachableHolds` | backend/internal/repository/order.go:123-427 | they hold in every state reachable from empty tables |
| `OrderRuns.ReleaseKeepsStock` | backend/internal/repository/order.go:296-304 | letting a pending order go keeps the sold counts equal to what the remaining orders hold |
| `OrderRuns.TierStepKeeps` | backend/internal/repository/ticket.go:79-87 | tier edits change no order, ticket or ledger row |
| `OrderOutcomes.SettledIsFinal` | backend/internal/repository/order.go:279-291 | over every run an order that left pending, and its tickets, never change again |
| `OrderOutcomes.FirstDecisiveEventWins` | backend/internal/service/payment.go:125-233 | over every run, a pending order's status, tickets and hold on stock are those of the first cancel by its buyer, success or failure event for it |
| `OrderOutcomes.PaidRowIsFinal` | backend/internal/service/payment.go:153-233 | a paid ledger row is never changed by a later request |
| `OrderOutcomes.PaidAtNeverChanges` | backend/internal/repository/payment.go:70-91 | over every run `paid_at` keeps its first value although the upsert prefers the new one |
| `OrderOutcomes.FailedAtMovesIff` | backend/internal/repository/payment.go:67-91 | `failed_at` is overwritten exactly by each further accepted failure event at another time; the comment that stamps are set only once does not hold for it |
| `OrderOutcomes.TotalExactIff` | backend/internal/repository/order.go:132-183 | in every reachable state an order's total is the sum of unit price times quantity if and only if that sum fits int64 |
| `OrderOutcomes.TotalCanWrap` | backend/internal/repository/order.go:173-174 | four tickets at 2^62 minor units give an accepted order with total zero |
| `OrderOutcomes.PurchaseWithinTotal` | backend/migrations/00016_tickets_orders.sql:53-79 | a purchase never leaves a tier sold past a set total and raises its count by exactly the units bought |
| `OrderOutcomes.SettlementGivesBack` | backend/internal/repository/order.go:296-304 | a cancellation or first failure gives back exactly what the order had reserved |
| `OrderAnswers.PlacedOrderIs` | backend/internal/repository/order.go:121-207 | a placed order is the newest, the buyer's, for the event, pending, with the request's lines in order at the tiers' prices and their int64 sum as total; every tier has sold what was asked of it more; its ledger row is pending for its total when a checkout was opened; no other order, ledger row or ticket moves |
| `OrderAnswers.PlaceAndPayIff` | backend/internal/service/payment.go:70-111 | from every reachable state an order is placed if and only if its event is found, its lines are placeable and the provider's checkout call does not fail |
| `OrderAnswers.UnplacedLeavesNothing` | backend/internal/api/middleware/tx.go:49-60 | otherwise, a failed checkout included, every table is as it was |
| `OrderAnswers.RowIffCheckout` | backend/internal/service/payment.go:93-108 | a new order has a ledger row if and only if a checkout was opened for it |
| `OrderAnswers.RefusedFor` | backend/internal/repository/order.go:137-171 | the line loop ends with what is wrong with the first line that cannot be reserved beside those before it: unknown tier or other event, sales closed, another currency, past the column's range, or sold out |
| `OrderAnswers.RefusalIs` | backend/internal/service/order.go:158-184 | the answer to every request that places no order: request checks, event, first bad line, table constraints, provider, in this order |
| `OrderAnswers.CancelIs` | backend/internal/repository/order.go:270-312 | unknown, another buyer's and settled orders are refused as such; the buyer's pending order is cancelled at that time, its units are back with their tiers, and nothing else moves |
| `OrderAnswers.WebhookRefusals` | backend/internal/service/payment.go:125-151 | unsigned, without reference, not verifiable and unknown-order calls are refused as such; a call the provider calls pending changes nothing |
| `OrderAnswers.SuccessIs` | backend/internal/service/payment.go:153-187 | a success pays a pending order at that time with a paid ledger row for its total, adding to its tickets only; on an order of any other status it succeeds and changes nothing |
| `OrderAnswers.FailureIs` | backend/internal/service/payment.go:189-233 | a failure lets a pending order go and leaves its failed ledger row, an existing row keeping its amount; of a failed or cancelled order it writes the row only, a paid order it leaves alone, and one in another currency is rolled back |
| `OrderAnswers.TicketsAreSound` | backend/internal/repository/order.go:344-369 | over every run each ticket is for its order's buyer and event and for the tier of its line |
| `Idempotency.PreImageInjective` | backend/internal/api/middleware/idempotency.go:108-114 | the digested bytes tell two requests apart when neither method and path hold a NUL, and when neither body does, as no JSON text can |
| `Idempotency.SharedDigestIff` | backend/internal/api/middleware/idempotency.go:108-114 | a request's digest can be shared by another operation if and only if its method, path or body holds a NUL |
| `Idempotency.RouteCollides` | backend/internal/api/middleware/idempotency.go:64-65 | on every route with an open segment, as `POST /api/v1/events/{id}/orders`, two requests share a digest: the decoded segment of one holds slashes and a NUL, the body of the other a NUL |
| `Idempotency.Repository.Create` | backend/internal/repository/idempotency.go:62-81 | reaps the user's expired keys, then inserts exactly when the slot is free |
| `Idempotency.Repository.Get` | backend/internal/repository/idempotency.go:84-101 | the slot's record, if there is one |
| `Idempotency.Repository.Complete` | backend/internal/repository/idempotency.go:106-116 | stores status and body on the slot's record |
| `Idempotency.Repository.Serve` | backend/internal/api/middleware/idempotency.go:40-105 | the guarded handler inside its transaction: run and record, replay, refuse, or roll back at 400 and above |
| `Idempotency.ServedAloneIs` | backend/internal/api/middleware/idempotency.go:28-105 | while a slot's record lives its request is given the stored response and any other is refused with 409; without one the handler runs, a success being recorded for 24 hours and a failure leaving nothing; only stale records of the user are dropped |
| `Idempotency.Recorder.WriteHeader` | backend/internal/api/middleware/idempotency.go:133-139 | the header is noted; the recorded status stays that of the first one |
| `Idempotency.Recorder.Write` | backend/internal/api/middleware/idempotency.go:141-144 | the bytes are appended to the recorded body |
| `Idempotency.HeaderAppended` | backend/internal/api/middleware/idempotency.go:133-144 | the recorded status is that of the first header, and 200 while no header has been written |
| `IdempotencyRuns.AloneRefines` | backend/internal/api/middleware/idempotency.go:40-105 | an uninterrupted request in the interleaved model is the middleware's own behaviour |
| `IdempotencyRuns.RunKeeps` | backend/internal/api/middleware/idempotency.go:30-39 | over every interleaving within the key's lifetime a slot has one record, matching its one effect and every answer |
| `IdempotencyRuns.ExactlyOnce` | backend/internal/api/middleware/idempotency.go:30-39 | effects of a slot are applied at most once, exactly once if any request on it succeeded; all successes carry one response to one request hash, other hashes are refused, and nobody is told the key is in progress |
| `IdempotencyRuns.SettledSlotAnswers` | backend/internal/api/middleware/idempotency.go:67-87 | a recorded slot replays its response to the same request and answers 409 to another, changing nothing |
| `IdempotencyRuns.FailureLeavesNothing` | backend/internal/api/middleware/tx.go:51-54 | a request that ends at 400 or above, or never ends, leaves neither effect nor record |
| `IdempotencyRuns.ExpiredKeyRunsAgain` | backend/internal/repository/idempotency.go:62-81 | past its lifetime a key protects nothing: the request is applied a second time |
| `Outbox.ChosenAreDue` | backend/internal/repository/outbox.go:50-69 | a claim takes only due rows, at most a batch, oldest first |
| `Outbox.ChosenIff` | backend/internal/repository/outbox.go:50-69 | a row is taken if and only if it is pending, its time has come and fewer than a batch of older such rows are in its way |
| `Outbox.Table.ClaimBatch` | backend/internal/repository/outbox.go:50-84 | the chosen rows are leased for five minutes and returned; no other row changes |
| `Outbox.Table.MarkSent` | backend/internal/repository/outbox.go:87-107 | the row is sent, with one 'sent' log entry |
| `Outbox.Table.MarkFailed` | backend/internal/repository/outbox.go:111-138 | writes the attempt count and retry time, failed once attempts reach the maximum, whatever the row's status was |
| `Outbox.Table.SendOne` | backend/internal/worker/email.go:75-101 | sent, retried with capped exponential backoff, or dead-lettered, with its log entry |
| `Outbox.ReportedIs` | backend/internal/worker/email.go:75-101 | the row is sent exactly when delivered, pending after base·2^min(attempts,6) exactly when the failure is retryable and leaves an attempt, else failed with its attempts used up; the log entry says the same |
| `Outbox.TotalDelayIs` | backend/internal/worker/email.go:88-94 | k retryable failures schedule base·(2^k−1) in total up to seven, 64·base for each one after |
| `OutboxRuns.RunKeeps` | backend/internal/worker/email.go:57-101 | over every run of several workers, crashes and lapses with outcomes landing in time: leases are exclusive and counters agree with the log |
| `OutboxRuns.ClaimIs` | backend/internal/repository/outbox.go:50-84 | in any state a claim leases exactly those rows for 300 seconds, hands each over as the table has it, and changes nothing else |
| `OutboxRuns.TerminalStays` | backend/internal/repository/outbox.go:87-138 | over every such run sent and failed rows are never touched or claimed again and no further outcome of theirs is recorded |
| `OutboxRuns.PermanentIsFinal` | backend/internal/worker/email.go:96-100 | a row whose holder reports a permanent failure in time is failed with its attempts used up, and over every such run stays so and is never held again |
| `OutboxRuns.OutcomesSettle` | backend/internal/worker/email.go:75-101 | a row is settled once max_attempts outcomes are recorded; until then attempts count them and its delays are the backoff's total |
| `OutboxRuns.OutboxSafe` | backend/internal/worker/email.go:57-101 | from an empty outbox: no row under two running leases, one 'sent' entry for a sent row and none for another, at most max_attempts outcomes |
| `OutboxRuns.SentSurvivesIff` | backend/internal/repository/outbox.go:111-138 | in any state, a sent row stops being sent exactly when a worker still holding it reports a failure |
| `OutboxRuns.LateFailureUnsends` | backend/internal/repository/outbox.go:111-138 | a run in which a late failure re-queues a delivered email |
| `OutboxRuns.LateFailureInOrder` | backend/internal/repository/outbox.go:111-138 | that run is in time order |
| `Push.ChosenAreClaimable` | backend/internal/repository/notification.go:126-144 | a claim takes only undispatched, due, unleased rows, at most a batch, oldest first |
| `Push.ChosenIff` | backend/internal/repository/notification.go:126-144 | a notification is taken if and only if it is undispatched, due, not under a running lease, and fewer than a batch of older ones are in its way |
| `Push.Queue.ClaimForDispatch` | backend/internal/repository/notification.go:126-159 | the chosen rows are leased and returned; no other row changes |
| `Push.Queue.MarkDispatched` | backend/internal/repository/notification.go:163-172 | stamps dispatched_at and clears the lease |
| `Push.Queue.MarkDispatchFailed` | backend/internal/repository/notification.go:178-187 | writes attempts and retry time and clears the lease, leaving dispatched_at alone |
| `Push.Queue.ListByUser` | backend/internal/repository/device.go:64-84 | the user's devices in registration order |
| `Push.Queue.DeleteByToken` | backend/internal/repository/device.go:88-95 | every device with the token is dropped, no other |
| `Push.Queue.DispatchNotification` | backend/internal/worker/push.go:105-176 | one round: the row is dispatched or rescheduled and invalid tokens are pruned as the loop counts |
| `Push.PruneIsExact` | backend/internal/worker/push.go:143-162 | a round unregisters exactly the recipient's devices whose tokens the provider calls invalid |
| `Push.DispatchedIff` | backend/internal/worker/push.go:105-138 | a round ends a notification exactly when the devices could be listed and none refused or attempts are used up; no devices counts as none refused |
| `Push.RoundIs` | backend/internal/worker/push.go:105-176 | what a round writes: the end of the notification when that holds, else one attempt more and a wait of base·2^min(attempts,6); the lease is given back either way |
| `PushRuns.NeverClaimedAgain` | backend/internal/repository/notification.go:126-187 | over any run, late outcomes included, a dispatched notification stays dispatched and is never claimed again |
| `PushRuns.RunKeeps` | backend/internal/worker/push.go:90-176 | with outcomes in time or never: leases are exclusive and sending rounds stay below the cap while undispatched |
| `PushRuns.ClaimIs` | backend/internal/repository/notification.go:126-159 | in any state a claim leases exactly those notifications for 300 seconds and changes nothing else |
| `PushRuns.SendsAreBounded` | backend/internal/worker/push.go:105-138 | at most PUSH_MAX_ATTEMPTS rounds send a notification, plus one for each worker lost between sending and recording, with failed device queries mixed in |
| `PushRuns.FailedListsNeverGiveUp` | backend/internal/worker/push.go:168-176 | for every n there is a run, in time order and with every outcome in time, of claims and failed device queries after which the notification has n attempts and is still unleased, undispatched and due after the backoff's total delay; the stop the comment on MarkDispatchFailed describes does not exist |
| `PushRuns.UnlistedIsNeverDispatched` | backend/internal/worker/push.go:105-111 | over any run, late outcomes and several workers included, a notification whose recorded rounds all failed to list its devices stays undispatched, whatever PUSH_MAX_ATTEMPTS is |
| `PushRuns.LateWorkersSendTwice` | backend/internal/repository/notification.go:126-144 | with one attempt allowed, two workers with overlapping work both send |
| `PushRuns.LateWorkersInOrder` | backend/internal/repository/notification.go:126-144 | that run is in time order |
| `RateLimit.Limiter.Allow` | backend/internal/api/middleware/ratelimit.go:92-117 | the answer and the key's new bucket, no other bucket touched |
| `RateLimit.Limiter.Prune` | backend/internal/api/middleware/ratelimit.go:121-132 | drops exactly the buckets whose window has elapsed |
| `RateLimit.CallIs` | backend/internal/api/middleware/ratelimit.go:92-117 | a call is admitted if and only if its limit is positive and its key has no bucket, one that is over, or one with room; what it counts, and the wait it is told otherwise |
| `RateLimit.RateBound` | backend/internal/api/middleware/ratelimit.go:92-132 | with limits at most L and windows at least W on a key, sweeps and other keys interleaved, no interval of length W has more than 2L−1 allowed calls |
| `RateLimit.DenialMeansFull` | backend/internal/api/middleware/ratelimit.go:92-117 | a positive limit denies a call only after that many calls on its key were allowed within the last window |
| `RateLimit.RateBoundIsReached` | backend/internal/api/middleware/ratelimit.go:92-117 | for every L and every window of two ticks or more some run reaches 2L−1 |
| `RateLimit.JanitorIsInvisible` | backend/internal/api/middleware/ratelimit.go:121-132 | wherever sweeps fall, all answers and waits are those of a limiter that never forgets |
| `RateLimit.LateSweepIff` | backend/internal/api/middleware/ratelimit.go:96-132 | a sweep dated s before a call dated `now` changes the call's answer if and only if the call's bucket is full, over at s and not over at now, the clock being read before the lock is taken |
| `RateLimit.LateSweepShows` | backend/internal/api/middleware/ratelimit.go:121-132 | a run in which it does |
| `RateLimit.RetryAfterIsExact` | backend/internal/api/middleware/ratelimit.go:222-227 | for one denied caller the advertised value is the least whole number of seconds after which the call is allowed (section 10.2.3 of RFC 9110) |
| `RateLimit.Guard` | backend/internal/api/middleware/ratelimit.go:144-169 | denied exactly when some check denies, with the longest wait of those, every check counted |
| `RateLimit.RetryPassesIff` | backend/internal/api/middleware/ratelimit.go:144-169 | a retry after the advertised time passes if and only if every check that applies to the request has a positive limit and, if it admitted the denied request, still has room or has ended its window by then |
| `RateLimit.SingleCheckRetryPasses` | backend/internal/api/middleware/ratelimit.go:144-169 | with one check and a positive limit the retry always passes |
| `RateLimit.TwoChecksCanStillDeny` | backend/internal/api/middleware/ratelimit.go:144-169 | with an address and an account check under one rule, as the login route has them, the advertised wait can be too short |
| `Sessions.Store.Create` | backend/internal/repository/session.go:29-38 | a session is inserted unless its hash is taken |
| `Sessions.Store.ConsumeForRotation` | backend/internal/repository/session.go:65-81 | an active session is revoked and returned; anything else changes nothing |
| `Sessions.Store.Revoke` | backend/internal/repository/session.go:84-92 | an unrevoked session is revoked, a revoked one keeps its time |
| `Sessions.Store.Login` | backend/internal/service/auth.go:228-256 | a new unrevoked session under the new token, or nothing: the step the runs below are made of |
| `Sessions.Store.Refresh` | backend/internal/service/auth.go:154-175 | a new pair exactly when the token is active, its user readable and the new token free, the old one revoked with it; every other outcome leaves the table as it was |
| `Sessions.Store.Logout` | backend/internal/service/auth.go:177-183 | a token that is not blank is revoked if it was not; no other row changes |
| `Sessions.RunKeeps` | backend/internal/service/auth.go:154-183 | every run of these steps keeps rotation single, tokens in one place each, the session count, one unrevoked token and one user a login |
| `Sessions.SingleUse` | backend/internal/repository/session.go:59-81 | over every run of logins, refreshes and logouts no token is rotated twice, unrevoked sessions number the logins not logged out, and one login's descendants are all of one user and at most one of them is unrevoked |
| `Sessions.RevokedIsNeverAccepted` | backend/internal/repository/session.go:65-92 | after any run a refresh with a consumed or revoked token changes nothing |
| `Sessions.FailedRefreshKeepsToken` | backend/internal/service/auth.go:149-175 | after a refresh that failed, a further one goes through exactly when the token was active: failing after consuming leaves it usable |
| `Sessions.ExpiredIsRefused` | backend/internal/repository/session.go:65-71 | from its expiry on a token changes nothing |
| `Sessions.IssuesIff` | backend/internal/service/auth.go:149-175 | a refresh puts its new token in if and only if that is unused, its user readable and the token presented on record, unexpired and unrevoked |
| `Sessions.TokenLife` | backend/internal/service/auth.go:228-256 | over every run a token issued at t for a lifetime is for the user who logged in or whose token was rotated, and can be rotated if and only if it is before t + lifetime and it was neither rotated nor logged out |
| `Sessions.RotationIs` | backend/internal/service/auth.go:154-175 | a rotation revokes the token presented at that time, adds the new one for the same user, and moves no other row |
| `Sessions.LogoutIs` | backend/internal/service/auth.go:177-183 | a logout revokes its token's row at most; whitespace alone names none and a revoked row keeps its time |
| `SingleFlight.Console.RefreshPair` | admin/lib/session.ts:48-74 | joins the flight of the key if one is pending, else starts one |
| `SingleFlight.Console.Settle` | admin/lib/session.ts:69-71 | settling a flight drops its key |
| `SingleFlight.RunKeeps` | admin/lib/session.ts:46-96 | every run keeps one pending flight a key, one successful flight a key, and sound requests |
| `SingleFlight.AnswerIs` | admin/lib/session.ts:55-68 | a flight's pair is the response's access token and the token its key was rotated to, and nothing when the rotation failed or the response lacks either |
| `SingleFlight.SharedPair` | admin/lib/session.ts:39-96 | however the backend is used meanwhile, any two requests handed a pair for one refresh token are handed the same, the one the backend rotated that token to, for the same user; at most two attempts each, the second only after a 401 with a refresh token |
| `SingleFlight.OverlapJoins` | admin/lib/session.ts:51-53 | a 401 while the key's flight is pending joins it and makes no backend call |
| `SingleFlight.OneCallWhilePending` | admin/lib/session.ts:39-74 | while a flight is pending it is its key's only unsettled one and none was started after it |
| `SingleFlight.LostResponseStrands` | admin/lib/session.ts:55-71 | when the response to a rotation is lost, no later flight of that token brings a pair |
| `Money.FormatMajor` | backend/internal/infrastructure/payments/chapa.go:174-185 | prints the amount's whole part and trimmed hundredths |
| `Money.PadFraction` | backend/internal/infrastructure/payments/chapa.go:187-193 | zero-pads to the width and trims trailing zeros |
| `Money.Int64Pow10` | backend/internal/infrastructure/payments/chapa.go:236-242 | the power of ten as int64 multiplication leaves it |
| `Money.ReadHundredths` | backend/internal/infrastructure/payments/chapa.go:211-228 | the first two digits of a fraction, or nothing when one of its first two characters is none |
| `Money.ParseMajor` | backend/internal/infrastructure/payments/chapa.go:196-234 | the parsed amount for every string, zero on a bad whole part, with int64 wrap-around |
| `Money.MajorIsCanonical` | backend/internal/infrastructure/payments/chapa.go:172-185 | for amounts not negative: no leading zeros, at most two decimals, no trailing zero |
| `Money.ParsedMajor` | backend/internal/infrastructure/payments/chapa.go:172-234 | parsing what was printed loses exactly a negative amount's hundredths |
| `Money.NegativeMajor` | backend/internal/infrastructure/payments/chapa.go:174-193 | a negative amount's hundredths are printed with a sign of their own and without their zeros, so five and fifty hundredths look the same |
| `Money.RoundTripIff` | backend/internal/infrastructure/payments/chapa.go:172-234 | an int64 amount survives printing and parsing if and only if it is not negative or a whole major unit |
| `Money.HundredthsIsFloor` | backend/internal/infrastructure/payments/chapa.go:211-228 | for a fraction of digits of any length the two digits kept are a hundred times it, rounded down |
| `Money.ParsedIsFloorIff` | backend/internal/infrastructure/payments/chapa.go:195-234 | an unsigned decimal string is parsed as the floor of a hundred times its value if and only if that is zero or fits int64 with a digit before the point |
| `Money.MinusNegates` | backend/internal/infrastructure/payments/chapa.go:202-206 | a leading minus negates what follows it, in int64 arithmetic |
| `Money.BadWholeIsZero` | backend/internal/infrastructure/payments/chapa.go:207-211 | a whole part that is empty or not a number is read as zero, whatever follows the point |
| `Money.BadFractionIsDropped` | backend/internal/infrastructure/payments/chapa.go:213-224 | a character that is no digit among the first two after the point drops the fraction |
| `Slug.SlugIsJoinedWords` | backend/internal/service/organizer.go:119-125 | a slug is the lower-cased name's maximal runs of a-z and 0-9 in order, joined by single dashes |
| `Slug.FixedPointIff` | backend/internal/service/organizer.go:119-125 | slugs have only a-z, 0-9 and single inner dashes, and exactly such strings are their own slug |
| `Slug.SlugifyIsIdempotent` | backend/internal/service/organizer.go:119-125 | slugifying twice is slugifying once, on every string |
| `Slug.EmptyIff` | backend/internal/service/organizer.go:119-125 | the slug is empty exactly when no character lower-cases into a-z or 0-9 |
| `Slug.RequestedSlug` | backend/internal/service/organizer.go:127-132 | the slug comes from the name exactly when the requested one is nothing but whitespace |
| `Slug.UnreadableSlugHidesName` | backend/internal/service/organizer.go:127-132 | a requested slug of which nothing is left is not replaced by the name |
| `Organizers.Store.LatestOf` | backend/internal/repository/organizer.go:64-69 | the user's newest application, if any |
| `Organizers.Store.CreateOrganizer` | backend/migrations/00007_organizers_and_events.sql:25-28 | an organizer is inserted unless its slug is taken |
| `Organizers.Store.Apply` | backend/internal/service/organizer.go:38-71 | stores a pending application under its slug unless the checks fail or the user's newest is pending |
| `Organizers.Store.Approve` | backend/internal/service/organizer.go:88-107 | a pending application becomes approved and an organizer is made, or nothing changes |
| `Organizers.Store.Reject` | backend/internal/service/organizer.go:109-117 | a pending application becomes rejected; any other is reported as not pending |
| `Organizers.ApplyIs` | backend/internal/service/organizer.go:38-71 | an application is refused exactly when the checks fail or the user has one pending; else it is stored as the user's, with the trimmed name, under its slug, pending |
| `Organizers.ReviewIsFinal` | backend/internal/repository/organizer.go:98-115 | a rejection ends a pending application and leaves any other; a reviewed one never changes again over any run |
| `Organizers.SlugsAgree` | backend/internal/service/organizer.go:59-107 | over every run the organizers are exactly the approved applications, one each, under the slug stored at application, all distinct and in normal form; a user has at most one pending application |
| `Organizers.ApprovableIff` | backend/internal/service/organizer.go:88-107 | a pending application cannot be approved exactly when an approved one has its slug, the empty slug included |

## Left out

- Failures of a SQL statement or a commit, and `Complete` failing after the response was sent: every statement modelled succeeds or fails as its own guards, constraints and triggers say.
- Concurrency inside one SQL statement; row locks appear as the order of the atomic steps, and for idempotency as requests blocked on uncommitted rows.
- Two applications by one user whose pending checks overlap: each application is one step.
- Row-level security, roles and event ownership checks: the acting user is taken to pass them, and an order's event lookup is a yes or no.
- SHA-256, bcrypt, JWT and random ids: digests are collision free and order ids follow creation order; refresh tokens need no assumption, since the unique constraint rejects a repeat.
- `time.Now()` within one request: one moment stands for all calls of that request.
- Tickets' codes and QR payloads, check-in, badges, RSVPs, likes, follows, saves, votes, recaps: separate features of one guarded statement each.
- Event reminders: a due reminder only adds one notification row or is marked failed.
- Media job recovery: its claim never takes up a job left 'processing', so there is nothing to prove of it.
- Requests without an idempotency key, which the middleware passes on, and without a user, which it answers 500: neither reaches the store.
- Request bodies that cannot be read, JSON encoding, and jsonb normalisation of stored response bodies.
- The clamp of the sync `limit` parameter and a negative limit; every non-negative limit is covered.
- The mobile client: its replica is modelled from the idempotent upserts and deletes the sync comments describe.
- Strings that are not valid UTF-8.
- Field validation of organizer applications: its verdict is a parameter of `Apply`.
- Pruning a device whose token another user registers between the listing and the delete: a push round is one step.
- The email worker's pace: outcomes landing before their lease lapses is a hypothesis of the lease results, and what happens without it is `SentSurvivesIff` and `LateFailureUnsends`.
- The cookies `withRetry` rewrites, and several console processes sharing one in-flight map: other processes appear as other users of the backend.
- Outbox.Table.MarkSent: the provider's message id is not kept, because no decision depends on it.
- RateLimit.RetryAfterIsExact: the conversion of the wait to float64 seconds before rounding up is taken to be exact.
