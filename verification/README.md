# Fleet ledger and its satellites

A Dafny model of the delivery back office: orders are placed, dispatched to a driver as the stops of a trip, driven
through arrival and completion, and counted against a subscription plan, while team members come and go. Around that
ledger stand the filter between a driver's GPS fixes and the published position, the request limiters, the cache-aside
reader, the grouping of the activity log, the CSV import and the subscription webhook.

## Layout

| module | content |
|---|---|
| `Common` | options, results, the exceptions services throw, a pigeonhole lemma |
| `OrderLifecycle`, `TripStatus` | the order state machine with its editable fields; what a list of stops says of a trip |
| `Ledger` | the tables (`Db`) and what each service call makes of them, as functions to a result |
| `LedgerServices` | the services as objects that rewrite the tables step by step and roll back; every method is proved to do exactly what its `Ledger` function says, so every lemma about those functions is about the methods |
| `LedgerEffects` | what each call answers and writes, in plain values: when it commits, the exception otherwise, the rows it leaves |
| `LedgerInvariants`, `LedgerRuns`, `LedgerTheorems` | what each call keeps, runs of calls from the empty database, and the theorems over all of them |
| `CsvImport` | the import loop over the same services |
| `TripActivity`, `ActivityGrouping` | the derived timeline of a trip; the grouped activity log |
| `GpsFilter` | the position filter, over any metric distance |
| `FixedWindow`, `RadarLimiter`, `CacheAside` | Redis protocols: every command of every client is a step of its own, and theorems are about all interleavings |
| `Paystack` | the webhook events and the subscriptions table |

How to read the model:

- A ledger call is one transaction that runs with no other beside it: it commits or leaves the tables alone. Runs of the
  ledger are serial; the interleaving of concurrent clients is modelled in the Redis modules.
- Ids that the database generates, references, tokens and clock readings are inputs of a call. An id or reference that is
  already taken makes the call fail with `Conflict` and roll back. The clock never goes back; a call may take several
  readings of it, with any waits in between.
- `Order.trail` is an auxiliary variable: the history of a row's statuses with the pickup facts at each save. No call
  reads it. `hits` in the limiters and `askedAt`, `readAt` in the cache are of the same kind.
- In Redis a key may vanish at any moment from its expiry on, and a cached value at any moment at all; the bounds hold
  whenever it does.

## Where code and comments part

The model follows the code.

- The throttle's comment says concurrent requests can never race past the limit
  (`src/common/rate-limit/redis-throttler-storage.service.ts:14-16`). That holds for one life of the counter key
  (`FixedWindow.AdmittedPerLife`). For a time span as long as the window it holds of every run exactly where the limit is
  at most one, or there is no window (`FixedWindow.WindowKeepsLimitExactly`); otherwise the worst case is one less than
  twice the limit, never more (`FixedWindow.AdmittedPerWindow`) and for every configuration no less
  (`FixedWindow.WindowBoundIsReached`).
- The Radar limiter is described as a cap that no burst can pass (`src/modules/tracking/radar-rate-limiter.service.ts:5-12`).
  A second lets through its own key's calls up to the limit, and on top of them every late call that finds room under the
  key of an earlier second (`RadarLimiter.AllowedInSecondExactly`). So it keeps the limit exactly if its late calls fit
  into what its own have left (`RadarLimiter.SecondKeepsLimitExactly`), and late callers with enough different keys can
  pass any limit by any amount in one instant (`RadarLimiter.LateScriptsPassAnyLimit`).
- The filter's comments say that two consecutive readings confirm a jump and that valid movement clears the candidate
  (`src/modules/tracking/tracking.service.ts:222-223`, `:259`). The first is right exactly when the reading before the jump
  was quarantined (`GpsFilter.AcceptedJumpHasWitness`), the second exactly when the movement is worth storing
  (`GpsFilter.PlausibleReadingClearsExactly`). A reading dropped as no change leaves the candidate, and the jump may be
  confirmed against what was read in between (`GpsFilter.AgreeingFixesNeedNotBeConsecutive`).
- Webhook handlers are described as idempotent (`src/modules/subscriptions/paystack-webhook-handler.service.ts:98`). They are
  when the event is repeated at once (`Paystack.HandlersAreIdempotent`). A repeat that comes later changes nothing exactly
  when its guard holds by then, kind by kind (`Paystack.LateRepeatChangesNothingExactly`, with `Paystack.Settled` for the
  guards), and apart from a charge whose mark is retained the guard may have been lost: a failed payment, a cancellation
  or a disable repeated after a paid invoice, and a paid invoice repeated after a failed payment, take effect once more
  (`Paystack.LateRepeatsUndo`); so does a create whose code is no longer recorded
  (`Paystack.LateCreateChangesNothingExactly`), which puts a company that has moved on back on its first subscription
  (`Paystack.LateCreateReverts`).
- Saving a subscription deletes the cached plan, but a reader that computed its value before the save may still store it
  afterwards (`CacheAside.SlowFillRevivesOldValue`); `CacheAside.DeletionMakesReadsCurrentExactly` says exactly when not.
- A suspended driver can be dispatched: the call asks for the role only (`LedgerInvariants.SuspensionDoesNotStopDispatch`,
  `LedgerTheorems.SuspendedDriverIsDispatched`; `LedgerTheorems.SuspendedDriverOnTheRoad` is a run that does it).
- Arriving at a stop succeeds for a cancelled or delivered order, which it leaves as it is
  (`LedgerTheorems.ArriveCommitsExactly`).

## Model

| member | source | states |
|---|---|---|
| LedgerTheorems.StopsAgreeWithOrders | src/modules/dispatch/dispatch.service.ts:146-189 | in every state a serial run reaches an order has at most one stop, stop numbers of a trip are distinct, and the order of a stop exists, is not PENDING and has its trip's company and driver; proved from the state machine, without the unique column |
| LedgerTheorems.OpenStopsKeepTheirDriver | src/modules/team/team.service.ts:1219-1239 | in every reachable state the driver of a trip with a PENDING or ARRIVED stop still has a DRIVER row in that company, although the checks sit in another service |
| LedgerTheorems.StopTimesInOrder | src/modules/dispatch/dispatch.service.ts:376-398 | created, started, arrived, completed are in that order for every reachable stop, a PENDING stop has no times, no stop is ever FAILED |
| LedgerTheorems.ArriveCommitsExactly | src/modules/dispatch/dispatch.service.ts:359-398 | arriving commits exactly when the stop is the company's own and PENDING; the order ends IN_TRANSIT if it was under way and is untouched otherwise |
| LedgerTheorems.CompleteCommitsExactly | src/modules/dispatch/dispatch.service.ts:527-569 | completing commits exactly when the stop is ARRIVED and its order ASSIGNED, PICKED_UP or IN_TRANSIT; the changes form a connected path of allowed edges to DELIVERED |
| LedgerTheorems.SkipCommitsExactly | src/modules/dispatch/dispatch.service.ts:671-711 | the same for skipping, from any unresolved stop, to FAILED |
| LedgerEffects.ArriveExactly | src/modules/dispatch/dispatch.service.ts:359-398 | the exception of every refused arrival, and of a committed one the rows: the stop ARRIVED at the last clock reading, the trip started at the one before unless it had been, the order saved once with each status up to IN_TRANSIT |
| LedgerEffects.CompleteExactly | src/modules/dispatch/dispatch.service.ts:527-569 | likewise: the stop COMPLETED at the reading of the call with its arrival kept, the order taken to DELIVERED |
| LedgerEffects.SkipExactly | src/modules/dispatch/dispatch.service.ts:671-711 | likewise: the stop SKIPPED with its times kept, the order taken to FAILED |
| LedgerTheorems.CompletedExactly | src/modules/dispatch/dispatch.service.ts:537-568 | over every run a stop is COMPLETED if and only if a completion has committed at it |
| LedgerTheorems.StatusHasACause | src/modules/dispatch/dispatch.service.ts:376-398 | over every run a stop that is not PENDING is so because an arrival, a completion or a skip committed at it |
| LedgerTheorems.AtStopEffect | src/modules/dispatch/dispatch.service.ts:376-395 | a committed call at a stop writes that stop, its order and its trip's start, and nothing else |
| LedgerTheorems.DeliveredKeepsPickup | src/common/constants/order-editable-fields.constant.ts:26-38 | over every run a DELIVERED order shows the pickup, saved-pickup id and items it had when it last became PICKED_UP, and has n status changes with n <= 4 * (failures + 1) |
| LedgerTheorems.OrderContinues | src/modules/orders/orders.service.ts:1071-1147 | whatever call comes next, an order keeps its company and its past, and its pickup facts change only while PENDING or ASSIGNED |
| LedgerTheorems.CompletedIsFinal | src/modules/dispatch/dispatch.service.ts:537-568 | once a stop is COMPLETED its order exists and is DELIVERED, and no future run of calls changes or removes either row |
| LedgerTheorems.CountersAreExact | src/modules/usage/usage.service.ts:129-325 | in every reachable state both counters equal the number of the company's rows, and exactly one row is its OWNER, which is ACTIVE |
| LedgerTheorems.OwnerStays | src/common/constants/team-role.constant.ts:3-6 | the one owner row of a company is never changed or removed by any future run of calls: invites and role changes cannot make another, and every team call spares it |
| LedgerTheorems.OrderClampNeverFires | src/modules/usage/usage.service.ts:303-325 | deleting an order always takes one off a positive counter |
| LedgerTheorems.MemberClampNeverFires | src/modules/usage/usage.service.ts:256-300 | so do cancelling an invite and removing a member |
| LedgerTheorems.LimitsHold | src/modules/usage/usage.service.ts:133-165 | from a reachable state within the plan's limits, no run without a change of that company's plan leaves them |
| LedgerTheorems.TripsEnd | src/modules/dispatch/dispatch.service.ts:681-706 | in every future of every reachable state a trip with n stops sees at most 2n committed arrivals, completions and skips |
| LedgerTheorems.ItineraryExists | src/common/utils/trip-status.util.ts:24-27 | the stops of a trip can always be listed once each in sequence order |
| LedgerTheorems.ItineraryIsStrict | src/common/utils/trip-status.util.ts:24-27 | and its sequence numbers strictly increase |
| LedgerTheorems.ItineraryIsUnique | src/common/utils/trip-status.util.ts:24-27 | so in every reachable state a trip has one such list only |
| LedgerTheorems.StopCallsMoveTripForward | src/common/utils/trip-status.util.ts:7-13 | a committed call at a stop of a reachable trip never moves its derived status back and leaves it started |
| LedgerTheorems.ReachableTripIsCausal | src/modules/dispatch/dispatch.service.ts:390-398 | the facts on a reachable trip's rows are dated in causal order, and no two of its timeline entries are the same |
| LedgerTheorems.TimelineIsCausal | src/common/utils/trip-activity.util.ts:20-70 | the timeline of every reachable trip shows each fact once, sorted, creation first and the start before every arrival |
| LedgerTheorems.ArrivalsPrecedeOutcomes | src/common/utils/trip-activity.util.ts:37-69 | and each stop's arrival before its own delivery or skip, ties included |
| LedgerRuns.StepKeepsInv | src/modules/dispatch/dispatch.service.ts:929-948 | every call, committed or rolled back, keeps the joint invariant of all tables |
| LedgerRuns.RunKeepsInv | src/modules/dispatch/dispatch.service.ts:929-948 | so does every run of calls |
| LedgerRuns.AcceptKeepsInv | src/modules/team/team.service.ts:896-975 | accepting an invite keeps it: an INVITED row has had no user until now |
| LedgerRuns.ActivateKeepsInv | src/modules/team/team.service.ts:1121-1150 | so does activating a member, an invited one without a user included |
| LedgerRuns.InvitedRowIsIdle | src/modules/team/team.service.ts:376-385 | cancelling an invite never takes a driver from an open trip, though it does not ask |
| LedgerRuns.EraseOrderKeepsInv | src/modules/orders/orders.service.ts:1194-1250 | deleting an order with its stop, and counting it off, keeps the joint invariant |
| LedgerRuns.SendKeepsInv | src/modules/dispatch/dispatch.service.ts:131-192 | so does a committed dispatch |
| Ledger.DispatchCommitsExactly | src/modules/dispatch/dispatch.service.ts:114-192 | dispatch commits exactly when the user is a DRIVER of the company and the orders are pairwise distinct, PENDING, unscheduled and the company's own (ids and reference free) |
| LedgerInvariants.DispatchWritesStops | src/modules/dispatch/dispatch.service.ts:146-189 | a committed dispatch adds one trip whose stops are numbered 1..n in request order and keeps every other stop |
| LedgerInvariants.DispatchWritesOrders | src/modules/dispatch/dispatch.service.ts:146-189 | it assigns exactly the requested orders to the driver and writes nothing else |
| LedgerInvariants.SuspensionDoesNotStopDispatch | src/modules/dispatch/dispatch.service.ts:120-129 | whether a member is suspended makes no difference to whether a dispatch commits |
| LedgerTheorems.SuspendedDriverIsDispatched | src/modules/dispatch/dispatch.service.ts:120-129 | whenever a member can be suspended, every dispatch that was possible before commits afterwards |
| LedgerTheorems.SuspendedDriverOnTheRoad | src/modules/dispatch/dispatch.service.ts:120-129 | a run from the empty tables that ends with a suspended driver on an open trip |
| LedgerEffects.DispatchRefusals | src/modules/dispatch/dispatch.service.ts:120-170 | a refused dispatch throws for the driver first, then for a generated id, then for the first order that cannot join |
| LedgerEffects.OrderRefusalExactly | src/modules/dispatch/dispatch.service.ts:146-170 | why an order cannot join: missing, foreign, not PENDING or requested twice, due later |
| LedgerServices.DispatchService.DispatchOrders | src/modules/dispatch/dispatch.service.ts:114-192 | the transaction either commits the specified tables or restores the old ones, and throws the specified exception |
| LedgerServices.DispatchService.DispatchAll | src/modules/dispatch/dispatch.service.ts:146-189 | the loop over the requested orders, which finds duplicates only through its own earlier writes, stops at the refusal judged on the tables before the call |
| LedgerServices.DispatchService.AdvanceOrderTo | src/modules/dispatch/dispatch.service.ts:978-1010 | the loop over the progression always passes its guards and leaves the order advanced along it, or untouched |
| LedgerServices.DispatchService.ArriveAtStop | src/modules/dispatch/dispatch.service.ts:359-398 | the service method does what the specification of arriving says, in every case |
| LedgerServices.DispatchService.CompleteStop | src/modules/dispatch/dispatch.service.ts:527-569 | the same for completing, with the advance rolled back when the last update throws |
| LedgerServices.DispatchService.SkipStop | src/modules/dispatch/dispatch.service.ts:671-711 | the same for skipping |
| LedgerEffects.CreateOrderExactly | src/modules/orders/orders.service.ts:111-160 | an order is created if and only if the plan has room and its references and id are new; then it is PENDING with just the given details, and counted; otherwise which exception |
| LedgerEffects.StatusExactly | src/modules/orders/orders.service.ts:865-918 | a status is refused unless the old one is among the ways into it; then the row has it, and nothing else changed |
| LedgerEffects.AssignDriverExactly | src/modules/orders/orders.service.ts:969-1025 | only a PENDING or FAILED order takes a driver, and is ASSIGNED then |
| LedgerEffects.UpdateOrderExactly | src/modules/orders/orders.service.ts:1071-1147 | which edits are refused by status and mentioned fields, and every field of the row after the others |
| LedgerEffects.EditIsAllowedExactly | src/common/constants/order-editable-fields.constant.ts:34-80 | an edit is allowed if and only if the order is PENDING or ASSIGNED, or PICKED_UP or IN_TRANSIT and neither pickup nor items are mentioned |
| LedgerEffects.DeleteOrderExactly | src/modules/orders/orders.service.ts:1194-1250 | only a PENDING or CANCELLED order is deleted, with its stop and one off the count |
| LedgerEffects.OrderIsCounted | src/modules/usage/usage.service.ts:129-190 | 10 orders on the free plan, 500 on the starter, no limit on the pro |
| LedgerEffects.MemberIsCounted | src/modules/usage/usage.service.ts:192-254 | 2 members, 10, no limit |
| LedgerEffects.GuardsReadRows | src/modules/team/team.service.ts:1219-1272 | a manager is an OWNER or ADMIN row of the company, a busy driver a DRIVER row with a PENDING or ARRIVED stop on a trip of theirs |
| LedgerEffects.InviteExactly | src/modules/team/team.service.ts:129-190 | each refusal of an invite, and the row and count it leaves, the token valid for seven days |
| LedgerEffects.CancelExactly | src/modules/team/team.service.ts:362-390 | each refusal, and the row and count gone |
| LedgerEffects.AcceptExactly | src/modules/team/team.service.ts:896-975 | a wrong, missing or expired token is refused; an accepted one makes the row ACTIVE with its user and is spent |
| LedgerEffects.ChangeRoleExactly | src/modules/team/team.service.ts:513-545 | each refusal, and the row with the new role |
| LedgerEffects.RemoveExactly | src/modules/team/team.service.ts:575-615 | each refusal, and the row and count gone |
| LedgerEffects.SuspendExactly | src/modules/team/team.service.ts:721-770 | each refusal, and the row SUSPENDED |
| LedgerEffects.ActivateExactly | src/modules/team/team.service.ts:1121-1150 | each refusal, and the row ACTIVE |
| LedgerEffects.OpenCompanyExactly | src/modules/companies/companies.service.ts:113-133 | a company starts on the free plan with its owner as the one member counted |
| LedgerServices.OrdersService.CreateOrder | src/modules/orders/orders.service.ts:111-160 | an order is created and counted together or not at all |
| LedgerServices.OrdersService.UpdateOrderStatus | src/modules/orders/orders.service.ts:865-918 | a status changes along allowed edges only, for the order's own company |
| LedgerServices.OrdersService.AssignDriver | src/modules/orders/orders.service.ts:969-1025 | driver and status change together |
| LedgerServices.OrdersService.UpdateOrder | src/modules/orders/orders.service.ts:1071-1147 | an edit applies all its fields or is refused for one it may not touch |
| LedgerServices.OrdersService.DeleteOrder | src/modules/orders/orders.service.ts:1194-1250 | a deletable order goes with its stops and its count, or stays |
| LedgerServices.TeamService.InviteMember | src/modules/team/team.service.ts:129-190 | a member is invited and counted together or not at all |
| LedgerServices.TeamService.CancelInvite | src/modules/team/team.service.ts:362-390 | an outstanding invite goes with its count |
| LedgerServices.TeamService.AcceptInvite | src/modules/team/team.service.ts:896-975 | a valid token gives the row its user and spends the token |
| LedgerServices.TeamService.ChangeMemberRole | src/modules/team/team.service.ts:513-545 | neither to nor from OWNER, nor away from DRIVER with open stops |
| LedgerServices.TeamService.RemoveMember | src/modules/team/team.service.ts:575-615 | never the owner, never a driver with open stops |
| LedgerServices.TeamService.SuspendMember | src/modules/team/team.service.ts:721-770 | the same guards, and the row keeps its place |
| LedgerServices.TeamService.ActivateMember | src/modules/team/team.service.ts:1121-1150 | any row that is not ACTIVE becomes so |
| LedgerServices.UsageService.IncrementOrderCount | src/modules/usage/usage.service.ts:129-190 | the order counter goes up by one, to the plan's limit at most; beyond it the call throws and writes nothing |
| LedgerServices.UsageService.DecrementOrderCount | src/modules/usage/usage.service.ts:303-325 | the order counter goes down by one, never below zero |
| LedgerServices.UsageService.IncrementTeamMemberCount | src/modules/usage/usage.service.ts:192-254 | the member counter goes up by one, to the plan's limit at most; beyond it the call throws and writes nothing |
| LedgerServices.UsageService.DecrementTeamMemberCount | src/modules/usage/usage.service.ts:256-300 | the member counter goes down by one, never below zero |
| OrderLifecycle.AdvanceIsConnected | src/modules/dispatch/dispatch.service.ts:989-1009 | advancing an order takes allowed edges only, lands on IN_TRANSIT from anywhere under way, and is a no-op elsewhere |
| OrderLifecycle.EditedRowOk | src/modules/orders/orders.service.ts:1096-1147 | an accepted edit cannot make a collected order contradict its last pickup |
| OrderLifecycle.EditRespectsStatus | src/modules/orders/orders.service.ts:1104-1147 | the details after an accepted edit are exactly those that have the asked value in every mentioned field and the old one in every other, the fields the status protects included |
| OrderLifecycle.HistoryIsShort | src/common/constants/order-status.constant.ts:23-34 | a history of n changes that enters FAILED f times has n <= 4 * (f + 1) |
| OrderLifecycle.DisallowedFieldsInDto | src/modules/orders/orders.service.ts:1498-1517 | exactly the fields the edit mentions and the status does not let it touch |
| TripStatus.DoneReadings | src/common/utils/trip-status.util.ts:5-27 | COMPLETED, resolved = total and "no current stop" are the same on every list of stops |
| TripStatus.DerivedExactly | src/common/utils/trip-status.util.ts:5-13 | COMPLETED when all stops are resolved, SCHEDULED when there are stops and all are PENDING, IN_PROGRESS otherwise |
| TripStatus.CountsExactly | src/common/utils/trip-status.util.ts:15-21 | the progress counts are the numbers of stops with each status |
| TripStatus.MovesGoForward | src/common/utils/trip-status.util.ts:7-13 | no move of a stop takes the derived status back |
| TripStatus.CurrentStop | src/common/utils/trip-status.util.ts:24-27 | the first unresolved stop, or none when all are resolved |
| TripActivity.FactsExactly | src/common/utils/trip-activity.util.ts:21-65 | which entries there are: creation, start, and of each stop its arrival, delivery or skip, the skip whether or not the driver had arrived |
| TripActivity.DeriveTripActivity | src/common/utils/trip-activity.util.ts:20-70 | the pushes and the sort yield a sorted permutation of the trip's facts, ties in push order |
| TripActivity.SortIsSortedPermutation | src/common/utils/trip-activity.util.ts:67-69 | the sort is by time and loses nothing |
| TripActivity.SortKeepsOrder | src/common/utils/trip-activity.util.ts:67-69 | it is stable: whatever was not later stays in front |
| TripActivity.CreatedFirst | src/common/utils/trip-activity.util.ts:21-27 | creation comes before every other entry |
| TripActivity.StartedBeforeArrivals | src/common/utils/trip-activity.util.ts:29-44 | the start comes before every arrival |
| TripActivity.ArrivalBeforeOutcome | src/common/utils/trip-activity.util.ts:37-64 | a stop's arrival comes before its own outcome, even at the same instant |
| CsvImport.ImportService.ImportRows | src/modules/orders/orders.service.ts:240-303 | the loop that stops at the plan limit leaves exactly the tables the loop that tries every row leaves, and reports the rows before the limit one by one |
| CsvImport.ImportService.ImportOrdersFromCsv | src/modules/orders/orders.service.ts:207-303 | a file is refused whole for its size, its form, no rows or over 500, and then changes nothing; otherwise the tables hold exactly the orders of the rows that make one, and their number is reported |
| CsvImport.RowsExactly | src/modules/orders/orders.service.ts:245-300 | on the tables: a row makes an order if and only if it is good, its references were found, its id is free and the plan has room for it; these orders are PENDING with just their rows' details, and every other row fails for its own reason |
| CsvImport.GoodFileExactly | src/modules/orders/orders.service.ts:240-303 | of n good rows as many are imported as the plan has room for |
| CsvImport.ReportAddsUp | src/modules/orders/orders.service.ts:245-303 | imported + failed + skipped is the total, no skipped row could have been imported, failed row numbers increase within 2..n+1 with their own reasons |
| CsvImport.NothingImportedAfterLimit | src/modules/orders/orders.service.ts:248-251 | after the first refusal for the limit trying further rows imports nothing |
| CsvImport.FailedRowNumbers | src/modules/orders/orders.service.ts:257-300 | the list of failures names rows that failed, with their reasons, in strictly increasing order |
| CsvImport.ImportGrowth | src/modules/orders/orders.service.ts:119-146 | the imported count is the growth of the company's orders and of its counter; nothing else changes |
| ActivityGrouping.GroupAdjacentEvents | src/modules/activity-log/activity-log.service.ts:359-398 | the groups show consecutive runs that together are the list, each with its own count and end times, each as long as it can be |
| ActivityGrouping.GroupShowsItsRun | src/modules/activity-log/activity-log.service.ts:374-394 | a group shows the id and texts of its newest log, its count and both end times, and ends where the type changes or five minutes are over |
| ActivityGrouping.GoodRunExactly | src/modules/activity-log/activity-log.service.ts:375-382 | a run may be one group if and only if it is of one type and no two of its logs are over 300000 ms apart |
| ActivityGrouping.RunsCoverTheList | src/modules/activity-log/activity-log.service.ts:359-398 | the runs laid end to end give the input back |
| ActivityGrouping.GroupsAreGoodRuns | src/modules/activity-log/activity-log.service.ts:327 | on a newest-first list every group has one event type and spans at most five minutes |
| ActivityGrouping.GreedyIsOptimal | src/modules/activity-log/activity-log.service.ts:374-394 | no way of cutting the list into such runs has fewer of them |
| GpsFilter.TrackingService.UpdateDriverLocation | src/modules/tracking/tracking.service.ts:106-288 | the service method, branch by branch, gives the specified verdict, writes the specified row and no other trip |
| GpsFilter.TrackingService.PersistAcceptedLocation | src/modules/tracking/tracking.service.ts:644-672 | stores the position with its times and clears the candidate when told to |
| GpsFilter.DroppedFirstExactly | src/modules/tracking/tracking.service.ts:142-170 | whatever the row, a fix is dropped for accuracy if and only if that is given and over 100 m, and a precise one as stale if and only if it is not newer |
| GpsFilter.JudgedAgainstPositionExactly | src/modules/tracking/tracking.service.ts:172-274 | a precise newer fix is quarantined if and only if it is over 140 km/h away within 300 s and not within 50 m of the candidate, of no change if and only if it is not that, under 15 m away and under a minute old, and accepted otherwise |
| GpsFilter.AcceptedRowExactly | src/modules/tracking/tracking.service.ts:644-672 | an accepted fix leaves its point, accuracy, times and bearing, and no candidate |
| GpsFilter.AcceptedSpeedExactly | src/modules/tracking/tracking.service.ts:183-192 | and the speed from the last point, rounded to a tenth |
| GpsFilter.RejectedRowExactly | src/modules/tracking/tracking.service.ts:240-257 | a rejected fix leaves the row, a quarantined one but for the candidate with its time |
| GpsFilter.PublishedIsPrecise | src/modules/tracking/tracking.service.ts:142-150 | no run publishes a position vaguer than 100 m |
| GpsFilter.OnlyAcceptancePublishes | src/modules/tracking/tracking.service.ts:130-288 | rejected fixes change nothing, quarantined ones the candidate only, accepted ones the position |
| GpsFilter.RejectionsDoNotPublish | src/modules/tracking/tracking.service.ts:240-257 | no stretch of rejected or quarantined fixes changes the published position |
| GpsFilter.PublishedIsLatestAccepted | src/modules/tracking/tracking.service.ts:644-672 | between two acceptances the row holds the position, accuracy and both times of the first |
| GpsFilter.AcceptedTimestampsIncrease | src/modules/tracking/tracking.service.ts:161-170 | of any two accepted fixes of a run, from whatever row it starts, the later one has the later timestamp |
| GpsFilter.TimestampsIncrease | src/modules/tracking/tracking.service.ts:161-170 | from a row with a timestamp, n acceptances take it at least n milliseconds further |
| GpsFilter.CandidateIsLatestQuarantined | src/modules/tracking/tracking.service.ts:242-257 | the row has a candidate exactly while the latest quarantined fix has had no acceptance after it, and it is that fix |
| GpsFilter.PlausibleReadingClearsExactly | src/modules/tracking/tracking.service.ts:259-288 | a plausible reading that passed the first checks clears the candidate if and only if it moved 15 m or a minute has passed |
| GpsFilter.SpeedLimitHoldsOverRuns | src/modules/tracking/tracking.service.ts:187-203 | over every run without confirmed jumps and gaps of 300 s the position moves at most 140/3.6 m per second, at least a second per step |
| GpsFilter.AcceptedJumpHasWitness | src/modules/tracking/tracking.service.ts:205-238 | an accepted jump lies within 50 m of the latest fix quarantined since the last acceptance, which contradicted the same position; that is the reading just before it if and only if that one was quarantined |
| GpsFilter.SecondFixSettles | src/modules/tracking/tracking.service.ts:219-257 | a precise newer fix within 50 m of the one just quarantined is never quarantined again |
| GpsFilter.AcceptedFixesAreApart | src/modules/tracking/tracking.service.ts:260-274 | fixes accepted in succession within a minute of the server's clock are at least 15 m apart, confirmed jumps included |
| GpsFilter.AgreeingFixesNeedNotBeConsecutive | src/modules/tracking/tracking.service.ts:259-274 | for any two places far enough apart a run in which a jump is accepted although the reading before it denied it |
| FixedWindow.RedisThrottlerStorage.IncrementAlone | src/common/rate-limit/redis-throttler-storage.service.ts:40-83 | an undisturbed call issues the commands of the model in their order and returns the record they lead to |
| FixedWindow.RedisThrottlerStorage.EvalIncrementScript | src/common/rate-limit/redis-throttler-storage.service.ts:25-31 | the script counts up an existing key and creates a missing one with its expiry |
| FixedWindow.CheckExactly | src/common/rate-limit/redis-throttler-storage.service.ts:49-57 | a request is refused at the block key if and only if that has time left, and told how many seconds |
| FixedWindow.IncrementExactly | src/common/rate-limit/redis-throttler-storage.service.ts:25-31 | the counter goes up by one and keeps its expiry, or begins at one for the ttl |
| FixedWindow.MeasureExactly | src/common/rate-limit/redis-throttler-storage.service.ts:65-66 | the answer tells the seconds the counter has left |
| FixedWindow.DecideExactly | src/common/rate-limit/redis-throttler-storage.service.ts:68-82 | blocked if and only if the hit was above the limit; the block key is set then, with blocking on, and in no other case |
| FixedWindow.BlockChangesOnlyBy | src/common/rate-limit/redis-throttler-storage.service.ts:68-69 | over every step the block key changes only by an answer above the limit or by its expiry |
| FixedWindow.ExceedingBlocks | src/common/rate-limit/redis-throttler-storage.service.ts:49-76 | once an answer exceeds the limit, in every continuation nobody who had not got past the block key is admitted for the block duration |
| FixedWindow.HitAboveLimitIsNotAdmitted | src/common/rate-limit/redis-throttler-storage.service.ts:68-82 | in every interleaving a hit above the limit is never admitted |
| FixedWindow.RunKeepsInv | src/common/rate-limit/redis-throttler-storage.service.ts:49-83 | in every interleaving counts go 1, 2, 3, ... per life, lives begin at least a ttl apart, and every answer says blocked exactly above the limit |
| FixedWindow.AdmittedPerLife | src/common/rate-limit/redis-throttler-storage.service.ts:25-31 | in every interleaving at most `limit` requests are admitted in one life of the counter key |
| FixedWindow.AdmittedPerWindow | src/common/rate-limit/redis-throttler-storage.service.ts:49-83 | and at most 2 * limit - 1 in any time span as long as the ttl |
| FixedWindow.AdmittedHaveOneHit | src/common/rate-limit/redis-throttler-storage.service.ts:60-66 | every admitted request passed the counter exactly once, within the limit |
| FixedWindow.WindowBoundIsReached | src/common/rate-limit/redis-throttler-storage.service.ts:60-83 | for every configuration with a limit and a window, and any blocking, a run and a span in which 2 * limit - 1 are admitted: the bound cannot be lowered |
| FixedWindow.WindowKeepsLimitExactly | src/common/rate-limit/redis-throttler-storage.service.ts:49-83 | that every span as long as the ttl sees at most `limit` is true of all runs if and only if the limit is at most one or there is no window |
| FixedWindow.BlockHolds | src/common/rate-limit/redis-throttler-storage.service.ts:49-57 | until a block runs out, no request that had not got past the block key is admitted, whatever the others do |
| RadarLimiter.RadarRateLimiter.TryAcquire | src/modules/tracking/radar-rate-limiter.service.ts:34-38 | an undisturbed call reads the clock, runs the script and answers as the model does |
| RadarLimiter.ReadClockExactly | src/modules/tracking/radar-rate-limiter.service.ts:35 | a caller's key is the second its clock shows |
| RadarLimiter.RunScriptExactly | src/modules/tracking/radar-rate-limiter.service.ts:18-37 | the key's counter goes up by one or begins at one for a second, and the call is allowed if and only if the count is within the limit |
| RadarLimiter.AllowedInSecondExactly | src/modules/tracking/radar-rate-limiter.service.ts:34-38 | in every interleaving a second of the clock lets through its own key's calls up to the limit, plus every allowed late call |
| RadarLimiter.SecondKeepsLimitExactly | src/modules/tracking/radar-rate-limiter.service.ts:34-38 | so it keeps the limit if and only if its late calls fit into what its own have left of it |
| RadarLimiter.PromptSecondKeepsTheLimit | src/modules/tracking/radar-rate-limiter.service.ts:18-38 | a second in which no script ran late keeps the limit, whatever happened in other seconds |
| RadarLimiter.PromptSpanKeepsTwiceTheLimit | src/modules/tracking/radar-rate-limiter.service.ts:18-38 | a second-long span over two such seconds sees at most twice the limit |
| RadarLimiter.PromptRunsKeepTheLimit | src/modules/tracking/radar-rate-limiter.service.ts:18-38 | in a run without late scripts both hold of every second and every span |
| RadarLimiter.NextScriptIsAllowedExactly | src/modules/tracking/radar-rate-limiter.service.ts:34-38 | the next script adds a call to its second, and so is one too many for a full one, if and only if there is room under its key |
| RadarLimiter.LateScriptsPassAnyLimit | src/modules/tracking/radar-rate-limiter.service.ts:34-38 | for every limit and every n a run that lets n calls through in one instant |
| RadarLimiter.LimitHoldsOfAllRunsExactly | src/modules/tracking/radar-rate-limiter.service.ts:34-38 | the limit per second holds of all runs if and only if it is nought |
| CacheAside.RedisCacheService.Del | src/common/cache/redis-cache.service.ts:81-84 | is the deletion step of the model |
| CacheAside.RedisCacheService.GetOrSet | src/common/cache/redis-cache.service.ts:21-46 | an undisturbed read issues the commands of the model; failures of Redis never reach the caller, failures of the computation do |
| CacheAside.GetExactly | src/common/cache/redis-cache.service.ts:26-33 | a reader is served from the cache if and only if the GET works and finds a value no older than the ttl, and computes otherwise |
| CacheAside.ComputeExactly | src/common/cache/redis-cache.service.ts:35 | a computation reads the source at that instant or throws to the caller |
| CacheAside.FillExactly | src/common/cache/redis-cache.service.ts:37-45 | the computed value is returned in any case, and stored if the SET works |
| CacheAside.StoredValueIsServed | src/common/cache/redis-cache.service.ts:21-46 | until it is deleted, evicted or overwritten a stored value is given to whoever asks within the ttl |
| CacheAside.StalenessIsBounded | src/common/cache/redis-cache.service.ts:21-46 | in every interleaving a returned value was held by the source no earlier than ttl plus fill latency before the read |
| CacheAside.DeletionMakesReadsCurrentExactly | src/modules/subscriptions/subscriptions.service.ts:429-433 | after a deletion all later readers see the current value, in every continuation without writes, if and only if no reader still holds an older one to store |
| CacheAside.SlowFillRevivesOldValue | src/common/cache/redis-cache.service.ts:36-39 | for any two values and any time span a run in which the value from before the save is served that long after the deletion |
| Paystack.PaystackWebhookHandlerService.Handle | src/modules/subscriptions/paystack-webhook-handler.service.ts:102-166 | every event leaves the tables its specification says, what a handler throws being swallowed |
| Paystack.PaystackWebhookHandlerService.HandleChargeSuccess | src/modules/subscriptions/paystack-webhook-handler.service.ts:196-250 | a first charge is marked and recovers a past-due subscription; one-time and repeated charges do nothing |
| Paystack.PaystackWebhookHandlerService.HandleSubscriptionCreate | src/modules/subscriptions/paystack-webhook-handler.service.ts:263-310 | records a new code with the company it names, or nothing |
| Paystack.PaystackWebhookHandlerService.UpdateFromPaystackSubscription | src/modules/subscriptions/subscriptions.service.ts:195-245 | overwrites the company's row, or inserts one when it has none |
| Paystack.PaystackWebhookHandlerService.HandleSubscriptionDisable | src/modules/subscriptions/paystack-webhook-handler.service.ts:347-380 | the row with the code goes to FREE and CANCELED |
| Paystack.PaystackWebhookHandlerService.HandleInvoiceUpdate | src/modules/subscriptions/paystack-webhook-handler.service.ts:390-429 | a paid invoice renews, unless the query for its date fails |
| Paystack.PaystackWebhookHandlerService.MarkPastDue | src/modules/subscriptions/subscriptions.service.ts:331-358 | the row with the code becomes PAST_DUE |
| Paystack.CodeOfOneCompany | src/modules/subscriptions/paystack-webhook-handler.service.ts:284-308 | over every run of events a code is recorded by at most one company |
| Paystack.ChargeExactly | src/modules/subscriptions/paystack-webhook-handler.service.ts:196-250 | a subscription charge that is no known repeat marks its reference and makes a past-due row of its code ACTIVE; any other does nothing |
| Paystack.RecordsExactly | src/modules/subscriptions/paystack-webhook-handler.service.ts:263-291 | when a create is recorded: the company it names, a configured plan, a code nobody has |
| Paystack.CreateExactly | src/modules/subscriptions/subscriptions.service.ts:195-245 | every field of the company's row after a recorded create, or of the row inserted |
| Paystack.PlanCodeExactly | src/modules/subscriptions/paystack-webhook-handler.service.ts:451-460 | which plan a code stands for |
| Paystack.RowEventsExactly | src/modules/subscriptions/paystack-webhook-handler.service.ts:320-380 | every field of the row after not_renew, disable and a failed payment |
| Paystack.InvoiceExactly | src/modules/subscriptions/paystack-webhook-handler.service.ts:390-429 | and after an invoice: unpaid or unanswered nothing, otherwise ACTIVE, not to be cancelled, with the next date if there is one |
| Paystack.UnknownCodeExactly | src/modules/subscriptions/paystack-webhook-handler.service.ts:320-446 | these events on a code nobody has recorded change nothing at all |
| Paystack.OnboardExactly | src/modules/subscriptions/subscriptions.service.ts:58-88 | a company without a subscription gets a free one |
| Paystack.HandlersAreIdempotent | src/modules/subscriptions/paystack-webhook-handler.service.ts:196-446 | every event repeated at once does what it does once, an invoice event if the query is answered as before |
| Paystack.EventChangesNothingExactly | src/modules/subscriptions/paystack-webhook-handler.service.ts:196-446 | for each kind of event and any state: it changes nothing if and only if its guard holds |
| Paystack.LateRepeatChangesNothingExactly | src/modules/subscriptions/paystack-webhook-handler.service.ts:196-446 | so a repeat, after any events in between, changes nothing if and only if its guard holds by then |
| Paystack.LateRepeatsUndo | src/modules/subscriptions/paystack-webhook-handler.service.ts:320-446 | for every recorded code, sequences after which a repeated failed payment, cancellation, disable or paid invoice takes effect again |
| Paystack.LateCreateChangesNothingExactly | src/modules/subscriptions/paystack-webhook-handler.service.ts:284-308 | a recorded create repeated after any events changes nothing if and only if its code is still recorded |
| Paystack.LateCreateReverts | src/modules/subscriptions/paystack-webhook-handler.service.ts:284-308 | which it is not after a second subscription: the repeat puts the company back on the first |
| Paystack.RepeatsChangeNothing | src/modules/subscriptions/subscriptions.service.ts:439-467 | dropping every repeat of a charge reference whose mark is retained, anywhere in the run, leads to the same state |
| Paystack.UnrecordedCodeChangesNothing | src/modules/subscriptions/paystack-webhook-handler.service.ts:320-446 | no event but a create changes any subscription when nobody has recorded its code |
| Paystack.RowsChangeOnlyBy | src/modules/subscriptions/paystack-webhook-handler.service.ts:196-446 | no event touches a row it is not about, and plan, code, period, status and planned cancellation each change by their own events only, to the values these carry |
| Paystack.DisableDowngrades | src/modules/subscriptions/paystack-webhook-handler.service.ts:366-380 | a disable puts the company of the code on the free plan |
| Paystack.DowngradeEndsExactly | src/modules/subscriptions/paystack-webhook-handler.service.ts:263-310 | a downgraded company leaves the free plan, or its code, exactly by a create event recorded for it, under another code |
| Paystack.StaysOnFree | src/modules/subscriptions/paystack-webhook-handler.service.ts:347-380 | so it stays there through every run without one |

## Left out

- LedgerTheorems.OpenStopsKeepTheirDriver: about serial calls only, because the check for open stops runs outside the
  transaction (`src/modules/team/team.service.ts:1219-1239`) and can race with a dispatch.
- LedgerTheorems.StopsAgreeWithOrders: about serial calls only; orders are read without a lock, and of two concurrent
  dispatches of one order it is the unique column (`src/common/entities/trip-stop.entity.ts:43-45`) that stops the second.
- RadarLimiter.PromptRunsKeepTheLimit: under the condition that no script of the run is late;
  `RadarLimiter.SecondKeepsLimitExactly` has the exact condition, second by second.
- Paystack.HandlersAreIdempotent: a repeated invoice event is supposed to find the same answer at Paystack as the first,
  because the answer is an input of the event.
- Paystack.RepeatsChangeNothing: for references whose mark is still retained; blank references are never marked.
- Two GPS fixes for one trip handled at the same time: the row is read and written in separate statements; `GpsFilter` has
  them one after the other.
- Code after the commit in arrive, complete and skip, proof-of-delivery files, emitted events, mails, broadcasts and logs.
- The admin module (ownership transfer, membership removal and plan changes by support), resending invites, deletion of
  companies and soft deletes.
- The monthly reset of the usage counters, which is not in the repository; `ordersThisPeriod` counts all existing orders.
- Company creation and plan changes are modelled as ledger functions only, not as service methods.
- Generation of ids, references and tokens, hashing, and the validation and parsing of CSV cells: inputs of the model.
- Great-circle distance, bearing and arrival estimates: distance is any metric, bearing any function; speeds are exact
  reals rounded to a tenth.
- Database faults in the middle of a webhook handler, the payment provider's HTTP calls, and blanks other than space, tab
  and line ends in codes and company ids.
- Rounded percentages of trip progress, cached order lists and the other read-only views.
- The JSON encoding of cached values, and computations that read the source at more than one instant.
- Expiry of processed-charge marks after a day is an event of the model (`MarkForgotten`), not a clock.
