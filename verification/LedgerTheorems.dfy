/** The properties of every run of service calls, from the empty database on. */
module LedgerTheorems {
  import opened Common
  import opened OrderLifecycle
  import opened TripStatus
  import opened Ledger
  import opened LedgerInvariants
  import opened LedgerRuns
  import Effects = LedgerEffects
  import Timeline = TripActivity

  lemma ReachableInv(cmds: seq<Command>)
    ensures Inv(Run(START, cmds))
  {
    RunKeepsInv(START, cmds);
  }

  // ---- Stops, orders, drivers ----

  /** In every serial run, even without the unique column: an order has at most one stop, and agrees with its trip. */
  lemma StopsAgreeWithOrders(cmds: seq<Command>)
    ensures var db := Run(START, cmds).db;
            && OneStopPerOrder(db.stops)
            && DistinctSequences(db.stops)
            && forall s :: s in db.stops ==>
                 var stop := db.stops[s];
                 && stop.tripId in db.trips && stop.orderId in db.orders
                 && db.orders[stop.orderId].status != OrderStatus.Pending
                 && db.orders[stop.orderId].companyId == db.trips[stop.tripId].companyId
                 && db.orders[stop.orderId].driver == Some(db.trips[stop.tripId].driver)
  {
    ReachableInv(cmds);
    var db := Run(START, cmds).db;
    hide Run, Perform, Next;
    assert forall s :: s in db.stops ==> StopRowOk(db.orders, db.trips, db.stops[s]);
  }

  /** Whoever still has a stop to visit is still a driver of that company. */
  lemma OpenStopsKeepTheirDriver(cmds: seq<Command>)
    ensures var db := Run(START, cmds).db;
            forall s :: s in db.stops && ActiveStop(db.stops[s]) ==>
              var t := db.stops[s].tripId;
              t in db.trips && HasDriver(db, db.trips[t].companyId, db.trips[t].driver)
  {
    ReachableInv(cmds);
    var db := Run(START, cmds).db;
    hide Run, Perform, Next;
    forall s | s in db.stops && ActiveStop(db.stops[s])
      ensures db.stops[s].tripId in db.trips
              && HasDriver(db, db.trips[db.stops[s].tripId].companyId, db.trips[db.stops[s].tripId].driver)
    {
      assert DriverPresent(db.members, db.trips[db.stops[s].tripId]);
    }
  }

  /** Clock readings of one trip are ordered; waiting stops have none; no stop is ever FAILED. */
  lemma StopTimesInOrder(cmds: seq<Command>, s: nat)
    requires s in Run(START, cmds).db.stops
    ensures var db := Run(START, cmds).db;
            var stop := db.stops[s];
            && stop.tripId in db.trips
            && stop.status != StopStatus.Failed
            && (stop.status == StopStatus.Pending ==> stop.arrivedAt.None? && stop.completedAt.None?)
            && (stop.arrivedAt.Some? ==>
                  var trip := db.trips[stop.tripId];
                  trip.startedAt.Some? && trip.createdAt <= trip.startedAt.value <= stop.arrivedAt.value)
            && (stop.status == Completed ==>
                  stop.arrivedAt.Some? && stop.completedAt.Some? && stop.arrivedAt.value <= stop.completedAt.value)
  {
    ReachableInv(cmds);
    var w := Run(START, cmds);
    hide Run, Perform, Next;
    StopTimesAt(w, s);
    assert StopRowOk(w.db.orders, w.db.trips, w.db.stops[s]);
  }

  /** Suspending a driver, in whatever state that succeeds, leaves every dispatch to them as possible as it was. */
  lemma SuspendedDriverIsDispatched(db: Db, c: nat, acting: nat, m: nat, d: Dispatch, now: int)
    requires d.Valid() && CanDispatch(db, d) && SuspendMember(db, c, acting, m).Success?
    ensures DispatchOrders(SuspendMember(db, c, acting, m).value, d, now).Success?
  {
    hide CanDispatch, DispatchOrders, IsManager, BusyDriver;
    SuspensionDoesNotStopDispatch(db, d, m);
    DispatchCommitsExactly(SuspendMember(db, c, acting, m).value, d, now);
  }

  lemma Then(cmds: seq<Command>, cmd: Command) returns (more: seq<Command>)
    ensures Run(START, more) == Next(Run(START, cmds), cmd)
  {
    more := cmds + [cmd];
    RunInParts(START, cmds, [cmd]);
    assert Run(Run(START, cmds), [cmd]) == Next(Run(START, cmds), cmd);
  }

  const OWNER := Member(0, Some(0), "owner", Owner, MemberStatus.Active, None)

  function DriverRow(user: Option<nat>, status: MemberStatus, invite: Option<Invite>): Member {
    Member(0, user, "driver", Role.Driver, status, invite)
  }

  /** Company 0 on the free plan, with no orders yet. */
  function Staffed(members: map<nat, Member>, count: int): World {
    World(Db(map[], map[], map[], members, map[0 := Usage(0, count)], map[0 := Free]), 0)
  }

  function Opened(): World {
    Staffed(map[0 := OWNER], 1)
  }

  function DriverInvited(): World {
    Staffed(map[0 := OWNER, 1 := DriverRow(None, Invited, Some(Invite(7, INVITE_TOKEN_TTL_MS)))], 2)
  }

  function DriverHired(): World {
    Staffed(map[0 := OWNER, 1 := DriverRow(Some(1), MemberStatus.Active, None)], 2)
  }

  function DriverSuspended(): World {
    Staffed(map[0 := OWNER, 1 := DriverRow(Some(1), MemberStatus.Suspended, None)], 2)
  }

  lemma Opening()
    ensures Next(START, OpenCompany(0, 0, 0, "owner")) == Opened()
  {
    assert !UserTaken(EMPTY, 0) && !EmailTaken(EMPTY, "owner");
    hide UserTaken, EmailTaken;
    var db := CreateCompany(EMPTY, 0, 0, 0, "owner").value;
    assert db.members == map[0 := OWNER] && db.usages == map[0 := Usage(0, 1)] && db.plans == map[0 := Free];
  }

  lemma OwnerManages(w: World)
    requires 0 in w.db.members && w.db.members[0] == OWNER
    ensures IsManager(w.db, 0, 0)
  {
  }

  lemma Inviting()
    ensures Next(Opened(), InviteTo(0, 0, 1, "driver", Role.Driver, 7)) == DriverInvited()
  {
    var db := Opened().db;
    OwnerManages(Opened());
    assert !EmailTaken(db, "driver") by {
      assert "owner"[0] != "driver"[0];
    }
    hide IsManager, EmailTaken;
    assert db.usages[0 := Usage(0, 2)] == map[0 := Usage(0, 2)];
    assert IncrementTeamMemberCount(db, 0).Success?;
  }

  lemma Accepting()
    ensures Next(DriverInvited(), Accept(1, 7, 1)) == DriverHired()
  {
  }

  lemma Suspending()
    ensures Next(DriverHired(), Suspend(0, 0, 1)) == DriverSuspended()
  {
    OwnerManages(DriverHired());
    assert !BusyDriver(DriverHired().db, 1);
    hide IsManager, BusyDriver;
  }

  ghost predicate OnTheRoadSuspended(db: Db) {
    && 1 in db.members && db.members[1] == DriverRow(Some(1), MemberStatus.Suspended, None)
    && 0 in db.trips && db.trips[0].driver == 1
    && 0 in db.stops && ActiveStop(db.stops[0]) && db.stops[0].tripId == 0
  }

  lemma Sending(details: Details)
    requires details.scheduledFor.None?
    ensures OnTheRoadSuspended(
              Next(Next(DriverSuspended(), PlaceOrder(0, 0, details, true)),
                   Send(Dispatch(0, 1, [0], true, 0, [0]))).db)
  {
    var (w, d) := (DriverSuspended(), Dispatch(0, 1, [0], true, 0, [0]));
    var placed := Next(w, PlaceOrder(0, 0, details, true));
    assert placed == World(w.db.(orders := map[0 := NewOrder(0, details)], usages := map[0 := Usage(1, 2)]), 0);
    assert 1 in placed.db.members && IsDriver(placed.db.members[1], 0, 1);
    assert CanDispatch(placed.db, d);
    DispatchCommitsExactly(placed.db, d, 0);
    DispatchWritesStops(placed.db, d, 0);
    hide DispatchOrders, CanDispatch, FirstRefusal;
    assert d.stopIds[0] == 0;
  }

  lemma RunNothing()
    ensures Run(START, []) == START
  {
  }

  /** There is a run that does it: a company opens, hires its one driver, suspends them and sends them out. */
  lemma SuspendedDriverOnTheRoad(details: Details) returns (cmds: seq<Command>)
    requires details.scheduledFor.None?
    ensures OnTheRoadSuspended(Run(START, cmds).db)
  {
    hide *;
    RunNothing();
    hide Run, Next, Opened, DriverInvited, DriverHired, DriverSuspended, OnTheRoadSuspended;
    cmds := Then([], OpenCompany(0, 0, 0, "owner"));
    Opening();
    cmds := Then(cmds, InviteTo(0, 0, 1, "driver", Role.Driver, 7));
    Inviting();
    cmds := Then(cmds, Accept(1, 7, 1));
    Accepting();
    cmds := Then(cmds, Suspend(0, 0, 1));
    Suspending();
    cmds := Then(cmds, PlaceOrder(0, 0, details, true));
    cmds := Then(cmds, Send(Dispatch(0, 1, [0], true, 0, [0])));
    Sending(details);
  }

  // ---- When the calls at a stop commit ----

  ghost predicate OwnStop(db: Db, c: nat, t: nat, s: nat) {
    t in db.trips && db.trips[t].companyId == c && s in db.stops && db.stops[s].tripId == t
  }

  /** In a reachable state the order of one's own stop is always there to be loaded. */
  lemma OwnStopHasOrder(w: World, c: nat, t: nat, s: nat)
    requires Inv(w) && OwnStop(w.db, c, t, s)
    ensures OrderAccess(w.db, c, w.db.stops[s].orderId).Pass? && OrderRowOk(w.db.orders[w.db.stops[s].orderId])
  {
    assert StopRowOk(w.db.orders, w.db.trips, w.db.stops[s]);
  }

  /** Arriving needs a waiting stop and nothing of the order: a cancelled or delivered one is left as it is. */
  lemma ArriveCommitsExactly(cmds: seq<Command>, c: nat, t: nat, s: nat, began: int, started: int, arrived: int)
    ensures var db := Run(START, cmds).db;
            var r := ArriveAtStop(db, c, t, s, began, started, arrived);
            && (r.Success? <==> OwnStop(db, c, t, s) && db.stops[s].status == StopStatus.Pending)
            && (r.Success? ==>
                  var (before, after) := (db.orders[db.stops[s].orderId], r.value.orders[db.stops[s].orderId]);
                  if UnderWay(before.status) then after.status == InTransit && before.trail <= after.trail
                  else after == before)
  {
    ReachableInv(cmds);
    var w := Run(START, cmds);
    hide Run, Perform, Next, Inv, AdvancedTo;
    if OwnStop(w.db, c, t, s) {
      OwnStopHasOrder(w, c, t, s);
      AdvanceIsConnected(w.db.orders[w.db.stops[s].orderId]);
    }
  }

  /** The order's row after a call that ends in `last`: one connected stretch of allowed changes from where it stood. */
  ghost predicate WalkedTo(before: Order, after: Order, last: OrderStatus) {
    && after.status == last
    && before.trail <= after.trail
    && ConnectedTrail(after.trail)
    && after.details == before.details && after.driver == before.driver
  }

  lemma CompleteCommitsExactly(cmds: seq<Command>, c: nat, t: nat, s: nat, began: int, completed: int)
    ensures var db := Run(START, cmds).db;
            var r := CompleteStop(db, c, t, s, began, completed);
            && (r.Success? <==>
                  && OwnStop(db, c, t, s) && db.stops[s].status == Arrived
                  && db.stops[s].orderId in db.orders && UnderWay(db.orders[db.stops[s].orderId].status))
            && (r.Success? ==> var o := db.stops[s].orderId; WalkedTo(db.orders[o], r.value.orders[o], Delivered))
  {
    ReachableInv(cmds);
    var w := Run(START, cmds);
    hide Run, Perform, Next, Inv, AdvancedTo, OrderRowOk, ConnectedTrail;
    if OwnStop(w.db, c, t, s) {
      OwnStopHasOrder(w, c, t, s);
      var row := w.db.orders[w.db.stops[s].orderId];
      AdvanceIsConnected(row);
      LastStep(row, Delivered);
    }
  }

  lemma SkipCommitsExactly(cmds: seq<Command>, c: nat, t: nat, s: nat, began: int)
    ensures var db := Run(START, cmds).db;
            var r := SkipStop(db, c, t, s, began);
            && (r.Success? <==>
                  && OwnStop(db, c, t, s) && db.stops[s].status !in {Completed, Skipped}
                  && db.stops[s].orderId in db.orders && UnderWay(db.orders[db.stops[s].orderId].status))
            && (r.Success? ==>
                  var o := db.stops[s].orderId; WalkedTo(db.orders[o], r.value.orders[o], OrderStatus.Failed))
  {
    ReachableInv(cmds);
    var w := Run(START, cmds);
    hide Run, Perform, Next, Inv, AdvancedTo, OrderRowOk, ConnectedTrail;
    if OwnStop(w.db, c, t, s) {
      OwnStopHasOrder(w, c, t, s);
      var row := w.db.orders[w.db.stops[s].orderId];
      AdvanceIsConnected(row);
      LastStep(row, OrderStatus.Failed);
    }
  }

  /** The closing status update is allowed from IN_TRANSIT only. */
  lemma LastStep(o: Order, last: OrderStatus)
    requires OrderRowOk(o) && last in {Delivered, OrderStatus.Failed}
    ensures var moved := AdvancedTo(o, InTransit);
            && (last in AllowedTransitions(moved.status) <==> UnderWay(o.status))
            && (UnderWay(o.status) ==> WalkedTo(o, WithStatus(moved, last), last))
  {
    hide AdvancedTo;
    AdvanceIsConnected(o);
    if UnderWay(o.status) {
      WithStatusRowOk(AdvancedTo(o, InTransit), last);
    }
  }

  // ---- What stays of an order ----

  /** A delivered order says of its pickup what it said when the driver last picked it up, however it got there. */
  lemma DeliveredKeepsPickup(cmds: seq<Command>, o: nat)
    requires o in Run(START, cmds).db.orders
    ensures var row := Run(START, cmds).db.orders[o];
            && (row.status == Delivered ==> LastPickup(row.trail) == Some(row.details.pickup))
            && ConnectedTrail(row.trail) && row.trail[|row.trail| - 1].status == row.status
            && |row.trail| - 1 <= 4 * (Failures(row.trail) + 1)
  {
    ReachableInv(cmds);
    HistoryIsShort(Run(START, cmds).db.orders[o]);
  }

  /** The history of a row only grows, and its pickup facts change only before collection. */
  ghost predicate Continues(before: Order, after: Order) {
    && before.trail <= after.trail
    && before.companyId == after.companyId
    && (before.details.pickup != after.details.pickup ==> before.status in {OrderStatus.Pending, OrderStatus.Assigned})
  }

  predicate AboutPeople(cmd: Command) {
    || cmd.OpenCompany? || cmd.ChoosePlan? || cmd.InviteTo? || cmd.Cancel? || cmd.Accept? || cmd.ChangeRole?
    || cmd.Remove? || cmd.Suspend? || cmd.Activate? || cmd.Wait?
  }

  lemma PeopleLeaveOrders(w: World, cmd: Command)
    requires AboutPeople(cmd)
    ensures var db := Next(w, cmd).db;
            db.orders == w.db.orders && db.trips == w.db.trips && db.stops == w.db.stops
  {
    hide IsManager, BusyDriver, EmailTaken, UserTaken;
  }

  predicate AtStop(cmd: Command) {
    cmd.Arrive? || cmd.Complete? || cmd.Skip?
  }

  /** What a committed call at a stop writes: that stop's row, its order's row, and perhaps the trip's start. */
  ghost predicate TouchesOneStop(before: Db, after: Db, t: nat, s: nat) {
    && s in before.stops && s in after.stops
    && before.stops[s].tripId == t
    && after.stops == before.stops[s := after.stops[s]]
    && after.stops[s].tripId == t
    && after.stops[s].orderId == before.stops[s].orderId
    && after.stops[s].sequence == before.stops[s].sequence
    && StopMove(before.stops[s].status, after.stops[s].status)
    && var o := before.stops[s].orderId;
       && o in before.orders && o in after.orders
       && after.orders == before.orders[o := after.orders[o]]
       && Continues(before.orders[o], after.orders[o])
       && t in before.trips && t in after.trips
       && after.trips == before.trips[t := after.trips[t]]
       && after.members == before.members && after.usages == before.usages && after.plans == before.plans
  }

  lemma AtStopEffect(w: World, cmd: Command)
    requires Inv(w) && AtStop(cmd) && Perform(w, cmd).Success?
    ensures TouchesOneStop(w.db, Perform(w, cmd).value, cmd.trip, cmd.stop)
  {
    hide Inv, AdvancedTo, AllowedTransitions, OrderRowOk;
    var s := cmd.stop;
    OwnStopHasOrder(w, cmd.companyId, cmd.trip, s);
    AdvanceIsConnected(w.db.orders[w.db.stops[s].orderId]);
  }

  /** Committed edits, patches, creations and deletions of orders, and dispatches. */
  predicate AboutOrders(cmd: Command) {
    cmd.PlaceOrder? || cmd.PatchStatus? || cmd.EditOrder? || cmd.EraseOrder? || cmd.Send?
  }

  lemma OfficeContinues(w: World, cmd: Command, o: nat)
    requires OrdersInv(w.db.orders) && AboutOrders(cmd)
    requires o in w.db.orders && o in Next(w, cmd).db.orders
    ensures Continues(w.db.orders[o], Next(w, cmd).db.orders[o])
  {
    hide OrderRowOk;
    if Perform(w, cmd).Success? {
      match cmd
      case EditOrder(_, e, dto) => if e == o { EditedRowOk(w.db.orders[o], dto); }
      case Send(d) => DispatchCommitsExactly(w.db, d, w.clock);
      case _ =>
    }
  }

  lemma OrderContinues(w: World, cmd: Command, o: nat)
    requires Inv(w) && o in w.db.orders && o in Next(w, cmd).db.orders
    ensures Continues(w.db.orders[o], Next(w, cmd).db.orders[o])
  {
    hide StopsInv, TimesInv, DriversInv, CountersInv, OwnersInv, Perform;
    if AboutPeople(cmd) {
      PeopleLeaveOrders(w, cmd);
    } else if AtStop(cmd) {
      if Perform(w, cmd).Success? {
        AtStopEffect(w, cmd);
      }
    } else {
      OfficeContinues(w, cmd, o);
    }
  }

  // ---- Completed stops and delivered orders are final ----

  ghost predicate Sealed(db: Db, s: nat) {
    && s in db.stops && db.stops[s].status == Completed
    && db.stops[s].orderId in db.orders && db.orders[db.stops[s].orderId].status == Delivered
  }

  ghost predicate SameSeal(before: Db, after: Db, s: nat)
    requires Sealed(before, s)
  {
    && Sealed(after, s)
    && after.stops[s] == before.stops[s]
    && after.orders[after.stops[s].orderId] == before.orders[before.stops[s].orderId]
  }

  lemma OfficeKeepsSeal(w: World, cmd: Command, s: nat)
    requires AboutOrders(cmd) && Sealed(w.db, s)
    ensures SameSeal(w.db, Next(w, cmd).db, s)
  {
    hide WithStatus, Edited, AssignedTo, NewStops, DisallowedFieldsInDto;
    if Perform(w, cmd).Success? {
      match cmd
      case Send(d) =>
        DispatchCommitsExactly(w.db, d, w.clock);
        NewStopsKeys(d, |d.orderIds|, w.clock);
        assert d.orderIds[..|d.orderIds|] == d.orderIds && d.stopIds[..|d.stopIds|] == d.stopIds;
      case _ =>
    }
  }

  lemma StepKeepsSeal(w: World, cmd: Command, s: nat)
    requires Inv(w) && Sealed(w.db, s)
    ensures SameSeal(w.db, Next(w, cmd).db, s)
  {
    hide TimesInv, DriversInv, CountersInv, OwnersInv, OrdersInv, Perform;
    if AboutPeople(cmd) {
      PeopleLeaveOrders(w, cmd);
    } else if AtStop(cmd) {
      if Perform(w, cmd).Success? {
        AtStopEffect(w, cmd);
      }
    } else {
      OfficeKeepsSeal(w, cmd, s);
    }
  }

  lemma {:induction false} RunKeepsSeal(w: World, cmds: seq<Command>, s: nat)
    requires Inv(w) && Sealed(w.db, s)
    ensures SameSeal(w.db, Run(w, cmds).db, s)
    decreases |cmds|
  {
    hide Inv, Next;
    if cmds != [] {
      StepKeepsInv(w, cmds[0]);
      StepKeepsSeal(w, cmds[0], s);
      RunKeepsSeal(Next(w, cmds[0]), cmds[1..], s);
    }
  }

  lemma {:induction false} RunInParts(w: World, first: seq<Command>, rest: seq<Command>)
    ensures Run(w, first + rest) == Run(Run(w, first), rest)
    decreases |first|
  {
    hide Next;
    if first == [] {
      assert first + rest == rest;
    } else {
      assert (first + rest)[1..] == first[1..] + rest;
      RunInParts(Next(w, first[0]), first[1..], rest);
    }
  }

  /** Once a stop is COMPLETED its order exists and is DELIVERED, and neither row ever changes again. */
  lemma CompletedIsFinal(past: seq<Command>, future: seq<Command>, s: nat)
    requires s in Run(START, past).db.stops && Run(START, past).db.stops[s].status == Completed
    ensures Sealed(Run(START, past).db, s) && SameSeal(Run(START, past).db, Run(START, past + future).db, s)
  {
    ReachableInv(past);
    var w := Run(START, past);
    RunInParts(START, past, future);
    hide Run, Perform, Next;
    assert StopRowOk(w.db.orders, w.db.trips, w.db.stops[s]);
    RunKeepsSeal(w, future, s);
  }

  // ---- Which calls made a stop what it is ----

  /** The call that puts a stop in that status. */
  predicate CallFor(cmd: Command, s: nat, status: StopStatus) {
    AtStop(cmd) && cmd.stop == s &&
    match status
    case Arrived => cmd.Arrive?
    case Completed => cmd.Complete?
    case Skipped => cmd.Skip?
    case _ => false
  }

  ghost predicate Stands(db: Db, s: nat, status: StopStatus) {
    s in db.stops && db.stops[s].status == status
  }

  ghost predicate CommitsFor(w: World, cmd: Command, s: nat, status: StopStatus) {
    CallFor(cmd, s, status) && Perform(w, cmd).Success?
  }

  lemma OfficeLeavesStatus(w: World, cmd: Command, s: nat, status: StopStatus)
    requires AboutOrders(cmd) && status != StopStatus.Pending && Stands(Next(w, cmd).db, s, status)
    ensures Stands(w.db, s, status)
  {
    hide WithStatus, Edited, AssignedTo, NewStops, DisallowedFieldsInDto, AllowedTransitions;
    if Perform(w, cmd).Success? {
      match cmd
      case Send(d) =>
        DispatchCommitsExactly(w.db, d, w.clock);
        var k := DispatchedStop(w.db, d, w.clock, s);
      case _ =>
    }
  }

  /** What a committed call at a stop leaves there is its own status. */
  lemma CallLeavesItsStatus(w: World, cmd: Command, status: StopStatus)
    requires AtStop(cmd) && Perform(w, cmd).Success?
    ensures Stands(Next(w, cmd).db, cmd.stop, status) <==> CallFor(cmd, cmd.stop, status)
  {
    hide ArriveAtStop, CompleteStop, SkipStop;
    var (db, now) := (w.db, w.clock);
    match cmd
    case Arrive(c, t, s, w1, w2) => Effects.ArriveExactly(db, c, t, s, now, now + w1, now + w1 + w2);
    case Complete(c, t, s, w1) => Effects.CompleteExactly(db, c, t, s, now, now + w1);
    case Skip(c, t, s) => Effects.SkipExactly(db, c, t, s, now);
  }

  lemma StatusComesFromItsCall(w: World, cmd: Command, s: nat, status: StopStatus)
    requires Inv(w) && status != StopStatus.Pending
    requires Stands(Next(w, cmd).db, s, status) && !Stands(w.db, s, status)
    ensures CommitsFor(w, cmd, s, status)
  {
    hide Inv, Perform;
    if AboutPeople(cmd) {
      PeopleLeaveOrders(w, cmd);
    } else if AboutOrders(cmd) {
      OfficeLeavesStatus(w, cmd, s, status);
    } else if Perform(w, cmd).Success? {
      AtStopEffect(w, cmd);
      CallLeavesItsStatus(w, cmd, status);
    }
  }

  /** One of the calls of the run committed at the stop and put it in that status. */
  ghost predicate CommittedIn(cmds: seq<Command>, s: nat, status: StopStatus) {
    exists k: nat :: k < |cmds| && CommitsFor(Run(START, cmds[..k]), cmds[k], s, status)
  }

  lemma LastCall(cmds: seq<Command>, k: nat)
    requires k < |cmds|
    ensures Run(START, cmds[..k + 1]) == Next(Run(START, cmds[..k]), cmds[k])
  {
    assert cmds[..k + 1] == cmds[..k] + [cmds[k]];
    RunInParts(START, cmds[..k], [cmds[k]]);
    assert Run(Run(START, cmds[..k]), [cmds[k]]) == Next(Run(START, cmds[..k]), cmds[k]);
  }

  /** A stop is ARRIVED, COMPLETED or SKIPPED only because an arrival, a completion or a skip committed at it. */
  lemma {:induction false} StatusHasACause(cmds: seq<Command>, s: nat, status: StopStatus)
    requires status != StopStatus.Pending && Stands(Run(START, cmds).db, s, status)
    ensures CommittedIn(cmds, s, status)
    decreases |cmds|
  {
    assert Run(START, []).db.stops == map[];
    hide Next, Inv, Run, CommitsFor;
    var n := |cmds| - 1;
    var front := cmds[..n];
    LastCall(cmds, n);
    assert cmds[..n + 1] == cmds;
    if Stands(Run(START, front).db, s, status) {
      StatusHasACause(front, s, status);
      var k: nat :| k < |front| && CommitsFor(Run(START, front[..k]), front[k], s, status);
      assert front[..k] == cmds[..k];
    } else {
      ReachableInv(front);
      StatusComesFromItsCall(Run(START, front), cmds[n], s, status);
    }
  }

  /** A stop is COMPLETED if and only if a completion has committed at it. */
  lemma CompletedExactly(cmds: seq<Command>, s: nat)
    ensures Stands(Run(START, cmds).db, s, Completed) <==> CommittedIn(cmds, s, Completed)
  {
    hide Next, Inv, Run, CommitsFor;
    if Stands(Run(START, cmds).db, s, Completed) {
      StatusHasACause(cmds, s, Completed);
    }
    if k: nat :| k < |cmds| && CommitsFor(Run(START, cmds[..k]), cmds[k], s, Completed) {
      LastCall(cmds, k);
      CommittedStands(Run(START, cmds[..k]), cmds[k], s);
      CompletedIsFinal(cmds[..k + 1], cmds[k + 1..], s);
      assert cmds[..k + 1] + cmds[k + 1..] == cmds;
    }
  }

  lemma CommittedStands(w: World, cmd: Command, s: nat)
    requires CommitsFor(w, cmd, s, Completed)
    ensures Stands(Next(w, cmd).db, s, Completed)
  {
    hide Perform;
    CallLeavesItsStatus(w, cmd, Completed);
  }

  // ---- Counters, owners, plan limits ----

  /** The counters are exact, and every company has exactly one owner row, which is active. */
  lemma CountersAreExact(cmds: seq<Command>, c: nat)
    requires c in Run(START, cmds).db.usages
    ensures var db := Run(START, cmds).db;
            && db.usages[c].ordersThisPeriod == |OrdersOf(db.orders, c)|
            && db.usages[c].teamMembersCount == |MembersOf(db.members, c)|
            && exists m :: SoleOwner(db.members, c, m)
  {
    ReachableInv(cmds);
    assert HasSoleOwner(Run(START, cmds).db.members, c);
  }

  lemma TeamCallKeepsOwnerRow(w: World, cmd: Command, m: nat)
    requires AboutPeople(cmd)
    requires m in w.db.members && w.db.members[m].role == Owner && w.db.members[m].status == MemberStatus.Active
    ensures m in Next(w, cmd).db.members && Next(w, cmd).db.members[m] == w.db.members[m]
  {
    hide IsManager, BusyDriver, EmailTaken, UserTaken;
  }

  lemma OfficeLeavesMembers(w: World, cmd: Command)
    requires AboutOrders(cmd)
    ensures Next(w, cmd).db.members == w.db.members
  {
    hide WithStatus, Edited, AllowedTransitions, DisallowedFieldsInDto, NewStops, FirstRefusal, DriverAccess;
  }

  lemma {:induction false} RunKeepsOwnerRow(w: World, cmds: seq<Command>, m: nat)
    requires Inv(w)
    requires m in w.db.members && w.db.members[m].role == Owner && w.db.members[m].status == MemberStatus.Active
    ensures m in Run(w, cmds).db.members && Run(w, cmds).db.members[m] == w.db.members[m]
    decreases |cmds|
  {
    hide Inv, Perform;
    if cmds != [] {
      StepKeepsInv(w, cmds[0]);
      if AboutPeople(cmds[0]) {
        TeamCallKeepsOwnerRow(w, cmds[0], m);
      } else if AboutOrders(cmds[0]) {
        OfficeLeavesMembers(w, cmds[0]);
      } else if Perform(w, cmds[0]).Success? {
        AtStopEffect(w, cmds[0]);
      }
      RunKeepsOwnerRow(Next(w, cmds[0]), cmds[1..], m);
    }
  }

  /** The owner a company has is the owner it keeps: no future run of calls changes or removes that row. */
  lemma OwnerStays(past: seq<Command>, future: seq<Command>, c: nat, m: nat)
    requires c in Run(START, past).db.usages && SoleOwner(Run(START, past).db.members, c, m)
    ensures m in Run(START, past + future).db.members
            && Run(START, past + future).db.members[m] == Run(START, past).db.members[m]
  {
    ReachableInv(past);
    RunInParts(START, past, future);
    RunKeepsOwnerRow(Run(START, past), future, m);
  }

  /** Deleting an order takes exactly one off a positive counter: the clamp at zero never fires. */
  lemma OrderClampNeverFires(cmds: seq<Command>, c: nat, o: nat)
    requires DeleteOrder(Run(START, cmds).db, c, o).Success?
    ensures var db := Run(START, cmds).db;
            && 0 < db.usages[c].ordersThisPeriod
            && DeleteOrder(db, c, o).value.usages[c].ordersThisPeriod == db.usages[c].ordersThisPeriod - 1
  {
    ReachableInv(cmds);
    var db := Run(START, cmds).db;
    hide Run, Perform, Next;
    CountersInvRemoveOrder(db.orders, db.members, db.usages, o);
  }

  /** Neither does it when an invite is cancelled or a member removed. */
  lemma MemberClampNeverFires(cmds: seq<Command>, c: nat, acting: nat, m: nat)
    requires var db := Run(START, cmds).db;
             CancelInvite(db, c, acting, m).Success? || RemoveMember(db, c, acting, m).Success?
    ensures var db := Run(START, cmds).db;
            && 0 < db.usages[c].teamMembersCount
            && RemoveRow(db, c, m).Success?
            && RemoveRow(db, c, m).value.usages[c].teamMembersCount == db.usages[c].teamMembersCount - 1
  {
    ReachableInv(cmds);
    var db := Run(START, cmds).db;
    hide Run, Perform, Next, IsManager, BusyDriver;
    CountersInvRemoveMember(db.orders, db.members, db.usages, m);
  }

  ghost predicate WithinLimits(db: Db, c: nat) {
    c in db.usages && c in db.plans ==>
      && !Exceeds(db.usages[c].ordersThisPeriod, OrderLimit(db.plans[c]))
      && !Exceeds(db.usages[c].teamMembersCount, TeamMemberLimit(db.plans[c]))
  }

  lemma CountersNotNegative(db: Db, c: nat)
    requires CountersInv(db.orders, db.members, db.usages)
    ensures c in db.usages ==> db.usages[c].ordersThisPeriod >= 0 && db.usages[c].teamMembersCount >= 0
  {
  }

  lemma CountingKeepsLimits(db: Db, c: nat, k: nat)
    requires CountersInv(db.orders, db.members, db.usages) && WithinLimits(db, c)
    ensures IncrementOrderCount(db, k).Success? ==> WithinLimits(IncrementOrderCount(db, k).value, c)
    ensures IncrementTeamMemberCount(db, k).Success? ==> WithinLimits(IncrementTeamMemberCount(db, k).value, c)
  {
    CountersNotNegative(db, c);
    hide CountersInv;
  }

  lemma UncountingKeepsLimits(db: Db, usages: map<nat, Usage>, c: nat, k: nat)
    requires WithinLimits(db, c) && db.usages == usages
    ensures DecrementOrderCount(db, k).Success? ==> WithinLimits(DecrementOrderCount(db, k).value, c)
    ensures DecrementTeamMemberCount(db, k).Success? ==> WithinLimits(DecrementTeamMemberCount(db, k).value, c)
  {
  }

  lemma SameCountersSameLimits(before: Db, after: Db, c: nat)
    requires WithinLimits(before, c) && after.usages == before.usages && after.plans == before.plans
    ensures WithinLimits(after, c)
  {
  }

  lemma OfficeKeepsLimits(w: World, cmd: Command, c: nat)
    requires Inv(w) && WithinLimits(w.db, c) && AboutOrders(cmd)
    ensures WithinLimits(Next(w, cmd).db, c)
  {
    hide OrdersInv, StopsInv, TimesInv, DriversInv, CountersInv, OwnersInv, WithinLimits, DispatchOrders,
      IncrementOrderCount, DecrementOrderCount, WithStatus, Edited, AllowedTransitions, DisallowedFieldsInDto;
    var after := Next(w, cmd).db;
    if Perform(w, cmd).Success? {
      match cmd
      case PlaceOrder(k, _, _, _) =>
        CountingKeepsLimits(w.db, c, k);
        SameCountersSameLimits(IncrementOrderCount(w.db, k).value, after, c);
      case EraseOrder(k, o) =>
        SameCountersSameLimits(w.db, WithoutOrder(w.db, o), c);
        UncountingKeepsLimits(WithoutOrder(w.db, o), w.db.usages, c, k);
      case Send(d) =>
        DispatchLeavesUsages(w.db, d, w.clock);
        SameCountersSameLimits(w.db, after, c);
      case _ =>
        SameCountersSameLimits(w.db, after, c);
    }
  }

  lemma DispatchLeavesUsages(db: Db, d: Dispatch, now: int)
    requires d.Valid() && DispatchOrders(db, d, now).Success?
    ensures DispatchOrders(db, d, now).value.usages == db.usages && DispatchOrders(db, d, now).value.plans == db.plans
  {
  }

  lemma PeopleKeepLimits(w: World, cmd: Command, c: nat)
    requires Inv(w) && WithinLimits(w.db, c) && AboutPeople(cmd)
    requires cmd.ChoosePlan? ==> cmd.companyId != c
    ensures WithinLimits(Next(w, cmd).db, c)
  {
    hide OrdersInv, StopsInv, TimesInv, DriversInv, CountersInv, OwnersInv, IncrementTeamMemberCount,
      DecrementTeamMemberCount, IsManager, BusyDriver, EmailTaken, UserTaken, WithinLimits;
    var after := Next(w, cmd).db;
    if Perform(w, cmd).Success? {
      match cmd
      case OpenCompany(_, _, _, _) => PlansKeepLimits(w, cmd, c);
      case ChoosePlan(_, _) => PlansKeepLimits(w, cmd, c);
      case InviteTo(k, _, _, _, _, _) =>
        CountingKeepsLimits(w.db, c, k);
        SameCountersSameLimits(IncrementTeamMemberCount(w.db, k).value, after, c);
      case Cancel(k, _, m) => RemovalKeepsLimits(w.db, c, k, m);
      case Remove(k, _, m) => RemovalKeepsLimits(w.db, c, k, m);
      case _ => SameCountersSameLimits(w.db, after, c);
    }
  }

  lemma PlansKeepLimits(w: World, cmd: Command, c: nat)
    requires WithinLimits(w.db, c) && (cmd.OpenCompany? || cmd.ChoosePlan?)
    requires cmd.ChoosePlan? ==> cmd.companyId != c
    ensures WithinLimits(Next(w, cmd).db, c)
  {
    hide EmailTaken, UserTaken;
  }

  lemma RemovalKeepsLimits(db: Db, c: nat, k: nat, m: nat)
    requires WithinLimits(db, c)
    ensures RemoveRow(db, k, m).Success? ==> WithinLimits(RemoveRow(db, k, m).value, c)
  {
    var without := db.(members := db.members - {m});
    SameCountersSameLimits(db, without, c);
    UncountingKeepsLimits(without, db.usages, c, k);
  }

  lemma StepKeepsLimits(w: World, cmd: Command, c: nat)
    requires Inv(w) && WithinLimits(w.db, c)
    requires cmd.ChoosePlan? ==> cmd.companyId != c
    ensures WithinLimits(Next(w, cmd).db, c)
  {
    hide Inv, Perform, WithinLimits;
    if AboutPeople(cmd) {
      PeopleKeepLimits(w, cmd, c);
    } else if AboutOrders(cmd) {
      OfficeKeepsLimits(w, cmd, c);
    } else if Perform(w, cmd).Success? {
      AtStopEffect(w, cmd);
      SameCountersSameLimits(w.db, Next(w, cmd).db, c);
    }
  }

  /** While nobody changes a company's plan, no run of calls takes its counters over the plan's limits. */
  lemma {:induction false} LimitsHold(past: seq<Command>, cmds: seq<Command>, c: nat)
    requires WithinLimits(Run(START, past).db, c)
    requires forall k :: 0 <= k < |cmds| && cmds[k].ChoosePlan? ==> cmds[k].companyId != c
    ensures WithinLimits(Run(START, past + cmds).db, c)
    decreases |cmds|
  {
    hide Next, WithinLimits;
    if cmds == [] {
      assert past + cmds == past;
    } else {
      ReachableInv(past);
      RunInParts(START, past, [cmds[0]]);
      StepKeepsLimits(Run(START, past), cmds[0], c);
      assert Run(Run(START, past), [cmds[0]]) == Next(Run(START, past), cmds[0]);
      assert past + cmds == past + [cmds[0]] + cmds[1..];
      LimitsHold(past + [cmds[0]], cmds[1..], c);
    }
  }

  // ---- The work left on a trip ----

  ghost function StopsAt(stops: map<nat, Stop>, t: nat, status: StopStatus): set<nat> {
    set s | s in stops && stops[s].tripId == t && stops[s].status == status
  }

  ghost function StopsOf(stops: map<nat, Stop>, t: nat): set<nat> {
    set s | s in stops && stops[s].tripId == t
  }

  /** How many calls at a stop a trip can still absorb. */
  ghost function OpenWork(stops: map<nat, Stop>, t: nat): nat {
    2 * |StopsAt(stops, t, StopStatus.Pending)| + |StopsAt(stops, t, Arrived)|
  }

  lemma OpenWorkBound(stops: map<nat, Stop>, t: nat)
    ensures OpenWork(stops, t) <= 2 * |StopsOf(stops, t)|
  {
    var (p, a) := (StopsAt(stops, t, StopStatus.Pending), StopsAt(stops, t, Arrived));
    assert p !! a;
    assert |p + a| == |p| + |a|;
    SubsetSize(p + a, StopsOf(stops, t));
  }

  /** Rewriting one stop's row moves that stop between the sets and no other. */
  lemma StopsAtMoved(stops: map<nat, Stop>, t: nat, s: nat, row: Stop, status: StopStatus)
    requires s in stops && stops[s].tripId == t && row.tripId == t
    ensures |StopsAt(stops[s := row], t, status)| + (if stops[s].status == status then 1 else 0)
            == |StopsAt(stops, t, status)| + (if row.status == status then 1 else 0)
  {
    var others := StopsAt(stops, t, status) - {s};
    assert StopsAt(stops, t, status) == if stops[s].status == status then others + {s} else others;
    assert StopsAt(stops[s := row], t, status) == if row.status == status then others + {s} else others;
  }

  lemma StopCallDoesWork(stops: map<nat, Stop>, t: nat, s: nat, row: Stop)
    requires s in stops && stops[s].tripId == t && row.tripId == t
    requires StopMove(stops[s].status, row.status) && stops[s].status != StopStatus.Failed
    ensures OpenWork(stops[s := row], t) < OpenWork(stops, t)
  {
    hide StopsAt;
    StopsAtMoved(stops, t, s, row, StopStatus.Pending);
    StopsAtMoved(stops, t, s, row, Arrived);
  }

  lemma OtherTripsWork(stops: map<nat, Stop>, t: nat, s: nat, row: Stop)
    requires s in stops && stops[s].tripId != t && row.tripId != t
    ensures OpenWork(stops[s := row], t) == OpenWork(stops, t)
  {
    assert StopsAt(stops[s := row], t, StopStatus.Pending) == StopsAt(stops, t, StopStatus.Pending);
    assert StopsAt(stops[s := row], t, Arrived) == StopsAt(stops, t, Arrived);
  }

  lemma DispatchAddsNoWork(db: Db, d: Dispatch, now: int, t: nat)
    requires d.Valid() && CanDispatch(db, d) && t in db.trips
    ensures OpenWork(Dispatched(db, d, |d.orderIds|, now).stops, t) == OpenWork(db.stops, t)
  {
    var after := Dispatched(db, d, |d.orderIds|, now).stops;
    forall s | s in after ensures after[s].tripId == t ==> s in db.stops && after[s] == db.stops[s] {
      var k := DispatchedStop(db, d, now, s);
    }
    forall s | s in db.stops ensures s in after && after[s] == db.stops[s] {
      NewStopsKeys(d, |d.orderIds|, now);
      assert s !in d.stopIds;
      assert d.stopIds[..|d.orderIds|] == d.stopIds;
    }
    assert StopsAt(after, t, StopStatus.Pending) == StopsAt(db.stops, t, StopStatus.Pending);
    assert StopsAt(after, t, Arrived) == StopsAt(db.stops, t, Arrived);
  }

  lemma DeletingAddsNoWork(db: Db, o: nat, t: nat)
    ensures OpenWork(WithoutOrder(db, o).stops, t) <= OpenWork(db.stops, t)
  {
    var after := WithoutOrder(db, o).stops;
    SubsetSize(StopsAt(after, t, StopStatus.Pending), StopsAt(db.stops, t, StopStatus.Pending));
    SubsetSize(StopsAt(after, t, Arrived), StopsAt(db.stops, t, Arrived));
  }

  predicate WorksOn(w: World, cmd: Command, t: nat) {
    AtStop(cmd) && cmd.trip == t && Perform(w, cmd).Success?
  }

  lemma OfficeAddsNoWork(w: World, cmd: Command, t: nat)
    requires AboutOrders(cmd) && t in w.db.trips
    ensures OpenWork(Next(w, cmd).db.stops, t) <= OpenWork(w.db.stops, t)
    ensures t in Next(w, cmd).db.trips
  {
    hide OpenWork, WithStatus, Edited, DriverAccess, FirstRefusal, AllowedTransitions, DisallowedFieldsInDto, NewStops;
    if Perform(w, cmd).Success? {
      match cmd
      case EraseOrder(_, o) => DeletingAddsNoWork(w.db, o, t);
      case Send(d) =>
        DispatchCommitsExactly(w.db, d, w.clock);
        DispatchAddsNoWork(w.db, d, w.clock, t);
      case _ =>
    }
  }

  lemma StepWork(w: World, cmd: Command, t: nat)
    requires Inv(w) && t in w.db.trips
    ensures t in Next(w, cmd).db.trips
    ensures OpenWork(Next(w, cmd).db.stops, t) + (if WorksOn(w, cmd, t) then 1 else 0) <= OpenWork(w.db.stops, t)
  {
    hide TimesInv, DriversInv, CountersInv, OwnersInv, OrdersInv, Perform, OpenWork;
    if AboutPeople(cmd) {
      PeopleLeaveOrders(w, cmd);
    } else if AboutOrders(cmd) {
      OfficeAddsNoWork(w, cmd, t);
    } else if Perform(w, cmd).Success? {
      AtStopEffect(w, cmd);
      var (s, after) := (cmd.stop, Next(w, cmd).db.stops);
      assert StopRowOk(w.db.orders, w.db.trips, w.db.stops[s]);
      if cmd.trip == t {
        StopCallDoesWork(w.db.stops, t, s, after[s]);
      } else {
        OtherTripsWork(w.db.stops, t, s, after[s]);
      }
    }
  }

  /** The number of calls in a run that commit at a stop of trip `t`. */
  function CallsAt(w: World, cmds: seq<Command>, t: nat): nat
    decreases |cmds|
  {
    if cmds == [] then 0
    else (if WorksOn(w, cmds[0], t) then 1 else 0) + CallsAt(Next(w, cmds[0]), cmds[1..], t)
  }

  lemma {:induction false} RunWork(w: World, cmds: seq<Command>, t: nat)
    requires Inv(w) && t in w.db.trips
    ensures CallsAt(w, cmds, t) + OpenWork(Run(w, cmds).db.stops, t) <= OpenWork(w.db.stops, t)
    decreases |cmds|
  {
    hide Inv, Next, OpenWork, WorksOn;
    if cmds != [] {
      StepKeepsInv(w, cmds[0]);
      StepWork(w, cmds[0], t);
      RunWork(Next(w, cmds[0]), cmds[1..], t);
    }
  }

  /** However the company goes on, a trip with n stops sees at most 2n committed arrivals, completions and skips. */
  lemma TripsEnd(past: seq<Command>, future: seq<Command>, t: nat)
    requires t in Run(START, past).db.trips
    ensures CallsAt(Run(START, past), future, t) <= 2 * |StopsOf(Run(START, past).db.stops, t)|
  {
    ReachableInv(past);
    var w := Run(START, past);
    hide Run, Next, Inv, OpenWork, StopsOf;
    RunWork(w, future, t);
    OpenWorkBound(w.db.stops, t);
  }

  // ---- Trip status and timeline of ledger trips ----

  /** The stops of a trip in delivery order. */
  ghost predicate IsItinerary(stops: map<nat, Stop>, t: nat, ids: seq<nat>) {
    && Distinct(ids)
    && (forall s :: s in ids <==> s in stops && stops[s].tripId == t)
    && (forall i, j :: 0 <= i < j < |ids| ==> stops[ids[i]].sequence <= stops[ids[j]].sequence)
  }

  /** Sequence numbers being distinct, a later stop of an itinerary has a strictly larger one. */
  lemma ItineraryIsStrict(stops: map<nat, Stop>, t: nat, ids: seq<nat>, i: nat, j: nat)
    requires DistinctSequences(stops) && IsItinerary(stops, t, ids) && i < j < |ids|
    ensures stops[ids[i]].sequence < stops[ids[j]].sequence
  {
    assert ids[i] in ids && ids[j] in ids;
  }

  ghost predicate StrictlyOrdered(stops: map<nat, Stop>, ids: seq<nat>) {
    && (forall i :: 0 <= i < |ids| ==> ids[i] in stops)
    && (forall i, j :: 0 <= i < j < |ids| ==> stops[ids[i]].sequence < stops[ids[j]].sequence)
  }

  lemma {:induction false} OneStrictOrder(stops: map<nat, Stop>, a: seq<nat>, b: seq<nat>)
    requires StrictlyOrdered(stops, a) && StrictlyOrdered(stops, b) && forall s :: s in a <==> s in b
    ensures a == b
    decreases |a|
  {
    assert a != [] ==> a[0] in a;
    assert b != [] ==> b[0] in b;
    if a != [] && b != [] {
      var (m, n) := (|a| - 1, |b| - 1);
      assert a[m] in b && b[n] in a;
      var i, j :| 0 <= i < |b| && b[i] == a[m] && 0 <= j < |a| && a[j] == b[n];
      assert stops[b[i]].sequence <= stops[b[n]].sequence && stops[a[j]].sequence <= stops[a[m]].sequence;
      assert i == n;
      assert forall s :: s in a <==> s in a[..m] || s == a[m];
      assert forall s :: s in b <==> s in b[..n] || s == b[n];
      OneStrictOrder(stops, a[..m], b[..n]);
    }
  }

  /** So a trip of a reachable state has one itinerary, and its derived readings do not depend on which was found. */
  lemma ItineraryIsUnique(cmds: seq<Command>, t: nat, a: seq<nat>, b: seq<nat>)
    requires IsItinerary(Run(START, cmds).db.stops, t, a) && IsItinerary(Run(START, cmds).db.stops, t, b)
    ensures a == b
  {
    ReachableInv(cmds);
    var w := Run(START, cmds);
    hide Run, Perform, Next;
    ItineraryIsStrictlyOrdered(w.db.stops, t, a);
    ItineraryIsStrictlyOrdered(w.db.stops, t, b);
    OneStrictOrder(w.db.stops, a, b);
  }

  lemma ItineraryIsStrictlyOrdered(stops: map<nat, Stop>, t: nat, ids: seq<nat>)
    requires DistinctSequences(stops) && IsItinerary(stops, t, ids)
    ensures StrictlyOrdered(stops, ids)
  {
    forall i | 0 <= i < |ids| ensures ids[i] in stops {
      assert ids[i] in ids;
    }
    forall i, j | 0 <= i < j < |ids| ensures stops[ids[i]].sequence < stops[ids[j]].sequence {
      ItineraryIsStrict(stops, t, ids, i, j);
    }
  }

  lemma {:induction false} ItineraryExists(stops: map<nat, Stop>, t: nat, left: set<nat>) returns (ids: seq<nat>)
    requires left <= StopsOf(stops, t)
    ensures Distinct(ids) && (forall s :: s in ids <==> s in left)
    ensures forall i :: 0 <= i < |ids| ==> ids[i] in stops
    ensures forall i, j :: 0 <= i < j < |ids| ==> stops[ids[i]].sequence <= stops[ids[j]].sequence
    decreases left
  {
    if left == {} {
      ids := [];
    } else {
      var last := LatestStop(stops, t, left);
      var front := ItineraryExists(stops, t, left - {last});
      ids := front + [last];
      assert forall i :: 0 <= i < |front| ==> front[i] in left - {last};
      assert last in ids;
      forall s ensures s in ids <==> s in left {
        assert s in ids <==> s in front || s == last;
      }
    }
  }

  lemma {:induction false} LatestStop(stops: map<nat, Stop>, t: nat, left: set<nat>) returns (last: nat)
    requires left <= StopsOf(stops, t) && left != {}
    ensures last in left && forall s :: s in left ==> stops[s].sequence <= stops[last].sequence
    decreases left
  {
    var one :| one in left;
    last := one;
    if left != {one} {
      var best := LatestStop(stops, t, left - {one});
      if stops[one].sequence < stops[best].sequence {
        last := best;
      }
    }
  }

  ghost function Statuses(stops: map<nat, Stop>, t: nat, ids: seq<nat>): seq<StopStatus>
    requires IsItinerary(stops, t, ids)
  {
    assert forall i :: 0 <= i < |ids| ==> ids[i] in ids;
    seq(|ids|, i requires 0 <= i < |ids| => stops[ids[i]].status)
  }

  /** A committed call at a stop never takes the derived status of its trip backwards. */
  lemma StopCallsMoveTripForward(cmds: seq<Command>, cmd: Command, ids: seq<nat>)
    requires var w := Run(START, cmds);
             AtStop(cmd) && Perform(w, cmd).Success? && IsItinerary(w.db.stops, cmd.trip, ids)
    ensures var (w, after) := (Run(START, cmds), Next(Run(START, cmds), cmd));
            && IsItinerary(after.db.stops, cmd.trip, ids)
            && Stage(DeriveTripStatus(Statuses(w.db.stops, cmd.trip, ids)))
               <= Stage(DeriveTripStatus(Statuses(after.db.stops, cmd.trip, ids)))
            && DeriveTripStatus(Statuses(after.db.stops, cmd.trip, ids)) != Scheduled
  {
    ReachableInv(cmds);
    var (w, after) := (Run(START, cmds), Next(Run(START, cmds), cmd));
    hide Run, Perform, Inv, DeriveTripStatus;
    AtStopEffect(w, cmd);
    var (t, s) := (cmd.trip, cmd.stop);
    assert s in ids;
    var i :| 0 <= i < |ids| && ids[i] == s;
    assert IsItinerary(after.db.stops, t, ids) by {
      assert forall k :: 0 <= k < |ids| ==> ids[k] in ids;
    }
    MovesGoForward(Statuses(w.db.stops, t, ids), i, after.db.stops[s].status);
    assert Statuses(after.db.stops, t, ids) == Statuses(w.db.stops, t, ids)[i := after.db.stops[s].status];
  }

  ghost function FactsOf(db: Db, t: nat, ids: seq<nat>): Timeline.TripFacts
    requires t in db.trips && IsItinerary(db.stops, t, ids)
  {
    assert forall i :: 0 <= i < |ids| ==> ids[i] in ids;
    Timeline.TripFacts(t, db.trips[t].createdAt, db.trips[t].startedAt,
                       seq(|ids|, i requires 0 <= i < |ids| => StopFactsOf(db.stops[ids[i]], ids[i])))
  }

  function StopFactsOf(stop: Stop, s: nat): Timeline.StopFacts {
    Timeline.StopFacts(s, stop.status, stop.arrivedAt, stop.completedAt, stop.updatedAt)
  }

  lemma ReachableFactsAreDistinct(db: Db, t: nat, ids: seq<nat>)
    requires t in db.trips && IsItinerary(db.stops, t, ids)
    ensures Distinct(Timeline.Facts(FactsOf(db, t, ids)))
  {
    hide Timeline.Facts;
    Timeline.FactsDistinct(FactsOf(db, t, ids));
  }

  /** The facts of a reachable trip are causal, so its timeline is too: see module TripActivity. */
  lemma ReachableTripIsCausal(cmds: seq<Command>, t: nat, ids: seq<nat>)
    requires t in Run(START, cmds).db.trips && IsItinerary(Run(START, cmds).db.stops, t, ids)
    ensures var facts := FactsOf(Run(START, cmds).db, t, ids);
            Timeline.Causal(facts) && Distinct(Timeline.Facts(facts))
  {
    ReachableInv(cmds);
    var w := Run(START, cmds);
    hide Run, Perform, Next, Inv, Timeline.Facts;
    var facts := FactsOf(w.db, t, ids);
    TripTimesAt(w, t);
    forall k | 0 <= k < |ids| ensures Timeline.CausalStop(facts, facts.stops[k]) {
      assert ids[k] in ids;
      StopTimesAt(w, ids[k]);
    }
    ReachableFactsAreDistinct(w.db, t, ids);
  }

  lemma TripTimesAt(w: World, t: nat)
    requires Inv(w) && t in w.db.trips
    ensures TripTimesOk(w.db.trips[t], w.clock)
  {
  }

  /** The timeline of a reachable trip shows each fact once, in time order, and opens with creation and start. */
  lemma TimelineIsCausal(cmds: seq<Command>, t: nat, ids: seq<nat>, e: Timeline.Entry)
    requires t in Run(START, cmds).db.trips && IsItinerary(Run(START, cmds).db.stops, t, ids)
    requires e in Timeline.Facts(FactsOf(Run(START, cmds).db, t, ids))
    ensures var facts := FactsOf(Run(START, cmds).db, t, ids);
            ShowsEachFactOnce(facts) && FollowsItsCause(facts, e)
  {
    ReachableTripIsCausal(cmds, t, ids);
    var facts := FactsOf(Run(START, cmds).db, t, ids);
    hide Run, FactsOf, Timeline.StableSort, Timeline.Facts;
    Timeline.SortIsSortedPermutation(Timeline.Facts(facts));
    Timeline.SortKeepsDistinct(Timeline.Facts(facts));
    if e.kind != Timeline.TripCreated {
      Timeline.CreatedFirst(facts, e);
    }
    if e.kind == Timeline.ArrivedAt {
      Timeline.StartedBeforeArrivals(facts, e);
    }
  }

  ghost predicate ShowsEachFactOnce(facts: Timeline.TripFacts) {
    var timeline := Timeline.StableSort(Timeline.Facts(facts));
    Timeline.Sorted(timeline) && multiset(timeline) == multiset(Timeline.Facts(facts)) && Distinct(timeline)
  }

  ghost predicate FollowsItsCause(facts: Timeline.TripFacts, e: Timeline.Entry) {
    var timeline := Timeline.StableSort(Timeline.Facts(facts));
    && (e.kind != Timeline.TripCreated ==>
          Timeline.Before(timeline, Timeline.Entry(Timeline.TripCreated, facts.id, facts.createdAt), e))
    && (e.kind == Timeline.ArrivedAt ==>
          facts.startedAt.Some?
          && Timeline.Before(timeline, Timeline.Entry(Timeline.TripStarted, facts.id, facts.startedAt.value), e))
  }

  /** Each stop's arrival is shown before its own delivery or skip, even when both fell on the same instant. */
  lemma ArrivalsPrecedeOutcomes(cmds: seq<Command>, t: nat, ids: seq<nat>, k: nat)
    requires t in Run(START, cmds).db.trips && IsItinerary(Run(START, cmds).db.stops, t, ids)
    requires k < |ids| && ids[k] in Run(START, cmds).db.stops && Run(START, cmds).db.stops[ids[k]].arrivedAt.Some?
    ensures var (stop, facts) := (Run(START, cmds).db.stops[ids[k]], FactsOf(Run(START, cmds).db, t, ids));
            var timeline := Timeline.StableSort(Timeline.Facts(facts));
            var arrival := Timeline.Entry(Timeline.ArrivedAt, ids[k], stop.arrivedAt.value);
            && (stop.status == Completed ==>
                  stop.completedAt.Some?
                  && var delivered := Timeline.Entry(Timeline.DeliveredAt, ids[k], stop.completedAt.value);
                     Timeline.Before(timeline, arrival, delivered))
            && (stop.status == Skipped ==>
                  Timeline.Before(timeline, arrival, Timeline.Entry(Timeline.SkippedAt, ids[k], stop.updatedAt)))
  {
    ReachableInv(cmds);
    ReachableTripIsCausal(cmds, t, ids);
    var w := Run(START, cmds);
    hide Run, Timeline.StableSort, Timeline.Facts;
    StopTimesAt(w, ids[k]);
    Timeline.ArrivalBeforeOutcome(FactsOf(w.db, t, ids), k);
  }
}
