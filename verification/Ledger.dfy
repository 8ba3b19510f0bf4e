/** The database tables of one deployment, and what each service call makes of them. */
module Ledger {
  import opened Common
  import opened OrderLifecycle
  import opened TripStatus

  datatype Trip = Trip(companyId: nat, driver: nat, createdAt: int, startedAt: Option<int>)

  datatype Stop = Stop(
    tripId: nat,
    orderId: nat,
    sequence: int,
    status: StopStatus,
    arrivedAt: Option<int>,
    completedAt: Option<int>,
    updatedAt: int)

  datatype Role = Owner | Admin | Driver | Dispatcher | SuperAdmin
  datatype MemberStatus = Active | Invited | Suspended
  datatype Invite = Invite(token: nat, expiresAt: int)

  datatype Member = Member(
    companyId: nat,
    userId: Option<nat>,
    email: string,
    role: Role,
    status: MemberStatus,
    invite: Option<Invite>)

  datatype Usage = Usage(ordersThisPeriod: int, teamMembersCount: int)

  datatype Plan = Free | Starter | Pro

  datatype Db = Db(
    orders: map<nat, Order>,
    trips: map<nat, Trip>,
    stops: map<nat, Stop>,
    members: map<nat, Member>,
    usages: map<nat, Usage>,
    plans: map<nat, Plan>)

  const EMPTY := Db(map[], map[], map[], map[], map[], map[])

  const INVITE_TOKEN_TTL_MS := 7 * 24 * 60 * 60 * 1000

  function OrderLimit(plan: Plan): Option<int> {
    match plan case Free => Some(10) case Starter => Some(500) case Pro => None
  }

  function TeamMemberLimit(plan: Plan): Option<int> {
    match plan case Free => Some(2) case Starter => Some(10) case Pro => None
  }

  predicate Exceeds(count: int, limit: Option<int>) {
    limit.Some? && count > limit.value
  }

  // ---- Usage counters ----

  function IncrementOrderCount(db: Db, c: nat): Result<Db> {
    if c !in db.usages || c !in db.plans then Failure(NotFound) else
    var count := db.usages[c].ordersThisPeriod + 1;
    :- Need(!Exceeds(count, OrderLimit(db.plans[c])), PlanLimitExceeded);
    Success(db.(usages := db.usages[c := db.usages[c].(ordersThisPeriod := count)]))
  }

  function DecrementOrderCount(db: Db, c: nat): Result<Db> {
    if c !in db.usages then Failure(NotFound) else
    var count := Max(0, db.usages[c].ordersThisPeriod - 1);
    Success(db.(usages := db.usages[c := db.usages[c].(ordersThisPeriod := count)]))
  }

  function IncrementTeamMemberCount(db: Db, c: nat): Result<Db> {
    if c !in db.usages || c !in db.plans then Failure(NotFound) else
    var count := db.usages[c].teamMembersCount + 1;
    :- Need(!Exceeds(count, TeamMemberLimit(db.plans[c])), PlanLimitExceeded);
    Success(db.(usages := db.usages[c := db.usages[c].(teamMembersCount := count)]))
  }

  function DecrementTeamMemberCount(db: Db, c: nat): Result<Db> {
    if c !in db.usages then Failure(NotFound) else
    var count := Max(0, db.usages[c].teamMembersCount - 1);
    Success(db.(usages := db.usages[c := db.usages[c].(teamMembersCount := count)]))
  }

  // ---- Orders ----

  /** Loading an order on behalf of a company. */
  function OrderAccess(db: Db, c: nat, o: nat): Outcome {
    if o !in db.orders then Fail(NotFound)
    else Need(db.orders[o].companyId == c, Forbidden)
  }

  function SetOrder(db: Db, o: nat, row: Order): Db {
    db.(orders := db.orders[o := row])
  }

  /** `referencesFound` says whether the generators of tracking number and reference succeeded, `o` is the new id. */
  function CreateOrder(db: Db, c: nat, o: nat, details: Details, referencesFound: bool): Result<Db> {
    var counted :- IncrementOrderCount(db, c);
    :- Need(referencesFound && o !in db.orders, Conflict);
    Success(SetOrder(counted, o, NewOrder(c, details)))
  }

  function UpdateOrderStatus(db: Db, c: nat, o: nat, status: OrderStatus): Result<Db> {
    if OrderAccess(db, c, o).Fail? then Failure(OrderAccess(db, c, o).error) else
    :- Need(status in AllowedTransitions(db.orders[o].status), InvalidTransition);
    Success(SetOrder(db, o, WithStatus(db.orders[o], status)))
  }

  function AssignedTo(o: Order, driver: nat): Order {
    WithStatus(o.(driver := Some(driver)), OrderStatus.Assigned)
  }

  function AssignDriver(db: Db, c: nat, o: nat, driver: nat): Result<Db> {
    if OrderAccess(db, c, o).Fail? then Failure(OrderAccess(db, c, o).error) else
    :- Need(OrderStatus.Assigned in AllowedTransitions(db.orders[o].status), InvalidTransition);
    Success(SetOrder(db, o, AssignedTo(db.orders[o], driver)))
  }

  function UpdateOrder(db: Db, c: nat, o: nat, dto: EditDto): Result<Db> {
    if OrderAccess(db, c, o).Fail? then Failure(OrderAccess(db, c, o).error) else
    var row := db.orders[o];
    :- Need(row.status !in LOCKED_ORDER_STATUSES, BadRequest);
    :- Need(DisallowedFieldsInDto(dto, EditableFieldsForStatus(row.status)) == {}, BadRequest);
    Success(SetOrder(db, o, row.(details := Edited(row.details, dto))))
  }

  /** Removing an order row removes the stops that refer to it. */
  function WithoutOrder(db: Db, o: nat): Db {
    db.(orders := db.orders - {o}, stops := map s | s in db.stops && db.stops[s].orderId != o :: db.stops[s])
  }

  function DeleteOrder(db: Db, c: nat, o: nat): Result<Db> {
    if OrderAccess(db, c, o).Fail? then Failure(OrderAccess(db, c, o).error) else
    :- Need(db.orders[o].status in DELETABLE_ORDER_STATUSES, BadRequest);
    DecrementOrderCount(WithoutOrder(db, o), c)
  }

  // ---- Dispatch ----

  predicate HasMember(db: Db, c: nat, user: nat) {
    exists m :: m in db.members && db.members[m].companyId == c && db.members[m].userId == Some(user)
  }

  predicate HasDriver(db: Db, c: nat, user: nat) {
    exists m :: m in db.members && IsDriver(db.members[m], c, user)
  }

  predicate IsDriver(row: Member, c: nat, user: nat) {
    row.companyId == c && row.userId == Some(user) && row.role == Driver
  }

  /** A dispatch call, with the ids the database will generate for the trip and its stops. */
  datatype Dispatch = Dispatch(
    companyId: nat,
    driver: nat,
    orderIds: seq<nat>,
    referenceFound: bool,
    tripId: nat,
    stopIds: seq<nat>)
  {
    predicate Valid() {
      |stopIds| == |orderIds|
    }
  }

  /** Why the k-th requested order cannot join the trip, judged against the database as it was before the call. */
  function OrderRefusal(db: Db, d: Dispatch, k: nat): Outcome
    requires d.Valid() && k < |d.orderIds|
  {
    var o := d.orderIds[k];
    var access := OrderAccess(db, d.companyId, o);
    if access.Fail? then access
    else if db.orders[o].status != OrderStatus.Pending || o in d.orderIds[..k] then Fail(BadRequest)
    else if db.orders[o].details.scheduledFor.Some? then Fail(BadRequest)
    else Need(d.stopIds[k] !in db.stops && d.stopIds[k] !in d.stopIds[..k], Conflict)
  }

  predicate DriverChosen(db: Db, d: Dispatch) {
    HasDriver(db, d.companyId, d.driver)
  }

  /** When a dispatch commits: a driver of the company; distinct, pending, unscheduled orders of its own; new ids. */
  predicate CanDispatch(db: Db, d: Dispatch)
    requires d.Valid()
  {
    && DriverChosen(db, d)
    && d.referenceFound && d.tripId !in db.trips
    && Distinct(d.orderIds)
    && (forall k :: 0 <= k < |d.orderIds| ==>
          var o := d.orderIds[k];
          && o in db.orders
          && db.orders[o].companyId == d.companyId
          && db.orders[o].status == OrderStatus.Pending
          && db.orders[o].details.scheduledFor.None?)
    && Distinct(d.stopIds)
    && (forall k :: 0 <= k < |d.stopIds| ==> d.stopIds[k] !in db.stops)
  }

  /** The refusal of the first order, from the k-th on, that cannot join the trip. */
  function FirstRefusal(db: Db, d: Dispatch, k: nat): Outcome
    requires d.Valid() && k <= |d.orderIds|
    decreases |d.orderIds| - k
  {
    if k == |d.orderIds| then Pass
    else if OrderRefusal(db, d, k).Fail? then OrderRefusal(db, d, k)
    else FirstRefusal(db, d, k + 1)
  }

  /** Loading the chosen driver on behalf of the company. */
  function DriverAccess(db: Db, d: Dispatch): Outcome {
    if !HasMember(db, d.companyId, d.driver) then Fail(NotFound)
    else Need(DriverChosen(db, d), BadRequest)
  }

  function DispatchOrders(db: Db, d: Dispatch, now: int): Result<Db>
    requires d.Valid()
  {
    if DriverAccess(db, d).Fail? then Failure(DriverAccess(db, d).error) else
    :- Need(d.referenceFound && d.tripId !in db.trips, Conflict);
    :- FirstRefusal(db, d, 0);
    Success(Dispatched(db, d, |d.orderIds|, now))
  }

  function NewStop(d: Dispatch, k: nat, now: int): Stop
    requires k < |d.orderIds|
  {
    Stop(d.tripId, d.orderIds[k], k + 1, StopStatus.Pending, None, None, now)
  }

  /** The stops of the first `n` requested orders, numbered from 1 in request order. */
  function NewStops(d: Dispatch, n: nat, now: int): map<nat, Stop>
    requires d.Valid() && n <= |d.orderIds|
  {
    if n == 0 then map[] else NewStops(d, n - 1, now)[d.stopIds[n - 1] := NewStop(d, n - 1, now)]
  }

  lemma {:induction false} NewStopsKeys(d: Dispatch, n: nat, now: int)
    requires d.Valid() && n <= |d.orderIds|
    ensures forall s :: s in NewStops(d, n, now) <==> s in d.stopIds[..n]
  {
    if n > 0 {
      NewStopsKeys(d, n - 1, now);
      assert d.stopIds[..n] == d.stopIds[..n - 1] + [d.stopIds[n - 1]];
    }
  }

  lemma DispatchedNone(db: Db, d: Dispatch, now: int)
    requires d.Valid()
    ensures Dispatched(db, d, 0, now) == db.(trips := db.trips[d.tripId := Trip(d.companyId, d.driver, now, None)])
  {
    assert (map o | o in db.orders ::
              if o in d.orderIds[..0] then AssignedTo(db.orders[o], d.driver) else db.orders[o]) == db.orders;
  }

  /** Joining one more order to the trip is one row update and one row insertion. */
  lemma DispatchedOneMore(db: Db, d: Dispatch, n: nat, now: int)
    requires d.Valid() && n < |d.orderIds| && OrderRefusal(db, d, n).Pass?
    ensures var before := Dispatched(db, d, n, now);
            var o := d.orderIds[n];
            Dispatched(db, d, n + 1, now)
            == before.(orders := before.orders[o := AssignedTo(before.orders[o], d.driver)],
                       stops := before.stops[d.stopIds[n] := NewStop(d, n, now)])
  {
    var (before, after, o) := (Dispatched(db, d, n, now), Dispatched(db, d, n + 1, now), d.orderIds[n]);
    assert d.orderIds[..n + 1] == d.orderIds[..n] + [o];
    assert after.orders == before.orders[o := AssignedTo(before.orders[o], d.driver)];
    assert after.stops == before.stops[d.stopIds[n] := NewStop(d, n, now)];
  }

  /** The database once the first `n` requested orders are on the trip. */
  function Dispatched(db: Db, d: Dispatch, n: nat, now: int): Db
    requires d.Valid() && n <= |d.orderIds|
  {
    db.(trips := db.trips[d.tripId := Trip(d.companyId, d.driver, now, None)],
        orders := map o | o in db.orders ::
            if o in d.orderIds[..n] then AssignedTo(db.orders[o], d.driver) else db.orders[o],
        stops := db.stops + NewStops(d, n, now))
  }

  lemma {:induction false} NoRefusal(db: Db, d: Dispatch, k: nat)
    requires d.Valid() && k <= |d.orderIds|
    ensures FirstRefusal(db, d, k).Pass? <==> forall i :: k <= i < |d.orderIds| ==> OrderRefusal(db, d, i).Pass?
    decreases |d.orderIds| - k
  {
    if k < |d.orderIds| {
      NoRefusal(db, d, k + 1);
    }
  }

  /**
   * A dispatch commits exactly when the chosen user is a driver of the company and the orders are distinct, pending,
   * unscheduled and the company's own; it then adds one trip with its stops and assigns exactly those orders.
   */
  lemma DispatchCommitsExactly(db: Db, d: Dispatch, now: int)
    requires d.Valid()
    ensures DispatchOrders(db, d, now).Success? <==> CanDispatch(db, d)
    ensures CanDispatch(db, d) ==> DispatchOrders(db, d, now) == Success(Dispatched(db, d, |d.orderIds|, now))
  {
    NoRefusal(db, d, 0);
    assert DriverChosen(db, d) ==> HasMember(db, d.companyId, d.driver);
    if CanDispatch(db, d) {
      forall k | 0 <= k < |d.orderIds| ensures OrderRefusal(db, d, k).Pass? {
        assert d.orderIds[k] !in d.orderIds[..k] && d.stopIds[k] !in d.stopIds[..k];
      }
    }
    if FirstRefusal(db, d, 0).Pass? {
      forall i, j | 0 <= i < j < |d.orderIds|
        ensures d.orderIds[i] != d.orderIds[j] && d.stopIds[i] != d.stopIds[j]
      {
        assert OrderRefusal(db, d, j).Pass?;
        assert d.orderIds[..j][i] == d.orderIds[i] && d.stopIds[..j][i] == d.stopIds[i];
      }
      forall k | 0 <= k < |d.orderIds|
        ensures d.orderIds[k] in db.orders && d.stopIds[k] !in db.stops
                && db.orders[d.orderIds[k]].companyId == d.companyId
                && db.orders[d.orderIds[k]].status == OrderStatus.Pending
                && db.orders[d.orderIds[k]].details.scheduledFor.None?
      {
        assert OrderRefusal(db, d, k).Pass?;
      }
    }
  }

  // ---- A driver at a stop ----

  /** Loading a stop of a trip on behalf of a company. */
  function StopAccess(db: Db, c: nat, t: nat, s: nat): Outcome {
    if t !in db.trips then Fail(NotFound)
    else if db.trips[t].companyId != c then Fail(Forbidden)
    else Need(s in db.stops && db.stops[s].tripId == t, NotFound)
  }

  function SetStop(db: Db, s: nat, row: Stop): Db {
    db.(stops := db.stops[s := row])
  }

  function StartedTrip(trip: Trip, at: int): Trip {
    if trip.startedAt.None? then trip.(startedAt := Some(at)) else trip
  }

  /** `began` is the transaction's own timestamp; `started` and `arrived` are the two later clock readings. */
  function ArriveAtStop(db: Db, c: nat, t: nat, s: nat, began: int, started: int, arrived: int): Result<Db> {
    if StopAccess(db, c, t, s).Fail? then Failure(StopAccess(db, c, t, s).error) else
    var stop := db.stops[s];
    :- Need(stop.status == StopStatus.Pending, BadRequest);
    :- OrderAccess(db, c, stop.orderId);
    var moved := SetOrder(db, stop.orderId, AdvancedTo(db.orders[stop.orderId], InTransit));
    var begun := moved.(trips := db.trips[t := StartedTrip(db.trips[t], started)]);
    Success(SetStop(begun, s, stop.(status := Arrived, arrivedAt := Some(arrived), updatedAt := began)))
  }

  function CompleteStop(db: Db, c: nat, t: nat, s: nat, began: int, completed: int): Result<Db> {
    if StopAccess(db, c, t, s).Fail? then Failure(StopAccess(db, c, t, s).error) else
    var stop := db.stops[s];
    :- Need(stop.status == Arrived, BadRequest);
    :- OrderAccess(db, c, stop.orderId);
    var moved := SetOrder(db, stop.orderId, AdvancedTo(db.orders[stop.orderId], InTransit));
    var delivered :- UpdateOrderStatus(moved, c, stop.orderId, Delivered);
    Success(SetStop(delivered, s, stop.(status := Completed, completedAt := Some(completed), updatedAt := began)))
  }

  function SkipStop(db: Db, c: nat, t: nat, s: nat, began: int): Result<Db> {
    if StopAccess(db, c, t, s).Fail? then Failure(StopAccess(db, c, t, s).error) else
    var stop := db.stops[s];
    :- Need(stop.status !in {Completed, Skipped}, BadRequest);
    :- OrderAccess(db, c, stop.orderId);
    var moved := SetOrder(db, stop.orderId, AdvancedTo(db.orders[stop.orderId], InTransit));
    var failed :- UpdateOrderStatus(moved, c, stop.orderId, OrderStatus.Failed);
    Success(SetStop(failed, s, stop.(status := Skipped, updatedAt := began)))
  }

  // ---- Team ----

  predicate IsManager(db: Db, c: nat, user: nat) {
    exists m :: m in db.members && db.members[m].companyId == c && db.members[m].userId == Some(user)
                && db.members[m].role in {Owner, Admin}
  }

  predicate ActiveStop(stop: Stop) {
    stop.status in {StopStatus.Pending, Arrived}
  }

  predicate IsStopOf(db: Db, stop: Stop, c: nat, user: nat) {
    stop.tripId in db.trips && db.trips[stop.tripId].companyId == c && db.trips[stop.tripId].driver == user
  }

  predicate IsDriverAssignedToTrip(db: Db, c: nat, user: nat) {
    exists s :: s in db.stops && ActiveStop(db.stops[s]) && IsStopOf(db, db.stops[s], c, user)
  }

  /** A driver who still has a pending or arrived stop. */
  predicate BusyDriver(db: Db, m: nat)
    requires m in db.members
  {
    var row := db.members[m];
    row.role == Driver && row.userId.Some? && IsDriverAssignedToTrip(db, row.companyId, row.userId.value)
  }

  predicate EmailTaken(db: Db, email: string) {
    exists m :: m in db.members && db.members[m].email == email
  }

  predicate UserTaken(db: Db, user: nat) {
    exists m :: m in db.members && db.members[m].userId == Some(user)
  }

  function SetMember(db: Db, m: nat, row: Member): Db {
    db.(members := db.members[m := row])
  }

  function MemberAccess(db: Db, c: nat, m: nat): Outcome {
    if m !in db.members then Fail(NotFound)
    else Need(db.members[m].companyId == c, Forbidden)
  }

  function InviteMember(db: Db, c: nat, acting: nat, m: nat, email: string, role: Role, token: nat, now: int)
    : Result<Db>
  {
    if role == Owner then Failure(BadRequest) else
    :- Need(IsManager(db, c, acting), InsufficientPermissions);
    :- Need(!EmailTaken(db, email), Conflict);
    var counted :- IncrementTeamMemberCount(db, c);
    :- Need(m !in db.members, Conflict);
    var invite := Invite(token, now + INVITE_TOKEN_TTL_MS);
    Success(SetMember(counted, m, Member(c, None, email, role, Invited, Some(invite))))
  }

  function RemoveRow(db: Db, c: nat, m: nat): Result<Db> {
    DecrementTeamMemberCount(db.(members := db.members - {m}), c)
  }

  function CancelInvite(db: Db, c: nat, acting: nat, m: nat): Result<Db> {
    if !IsManager(db, c, acting) then Failure(InsufficientPermissions) else
    :- MemberAccess(db, c, m);
    :- Need(db.members[m].status == Invited, Forbidden);
    RemoveRow(db, c, m)
  }

  /** `m` is the row whose stored hash the token matches; `user` the account created for it. */
  function AcceptInvite(db: Db, m: nat, token: nat, user: nat, now: int): Result<Db> {
    if m !in db.members || db.members[m].status != Invited then Failure(NotFound) else
    var row := db.members[m];
    :- Need(row.invite.Some? && row.invite.value.token == token && row.invite.value.expiresAt >= now, NotFound);
    :- Need(!UserTaken(db, user), Conflict);
    Success(SetMember(db, m, row.(userId := Some(user), status := Active, invite := None)))
  }

  function ChangeMemberRole(db: Db, c: nat, acting: nat, m: nat, role: Role): Result<Db> {
    if role == Owner then Failure(BadRequest) else
    :- Need(IsManager(db, c, acting), InsufficientPermissions);
    :- MemberAccess(db, c, m);
    :- Need(db.members[m].role != Owner, Forbidden);
    :- Need(role == Driver || !BusyDriver(db, m), Forbidden);
    Success(SetMember(db, m, db.members[m].(role := role)))
  }

  function RemoveMember(db: Db, c: nat, acting: nat, m: nat): Result<Db> {
    if !IsManager(db, c, acting) then Failure(InsufficientPermissions) else
    :- MemberAccess(db, c, m);
    :- Need(db.members[m].role != Owner, Forbidden);
    :- Need(!BusyDriver(db, m), Forbidden);
    RemoveRow(db, c, m)
  }

  function SuspendMember(db: Db, c: nat, acting: nat, m: nat): Result<Db> {
    if !IsManager(db, c, acting) then Failure(InsufficientPermissions) else
    :- MemberAccess(db, c, m);
    :- Need(db.members[m].role != Owner, Forbidden);
    :- Need(db.members[m].status != Suspended, Forbidden);
    :- Need(!BusyDriver(db, m), Forbidden);
    Success(SetMember(db, m, db.members[m].(status := Suspended)))
  }

  function ActivateMember(db: Db, c: nat, acting: nat, m: nat): Result<Db> {
    if !IsManager(db, c, acting) then Failure(InsufficientPermissions) else
    :- MemberAccess(db, c, m);
    :- Need(db.members[m].status != Active, Forbidden);
    Success(SetMember(db, m, db.members[m].(status := Active)))
  }

  // ---- Companies and plans ----

  /** A new company starts on the free plan with one member, its owner. */
  function CreateCompany(db: Db, c: nat, m: nat, user: nat, email: string): Result<Db> {
    if c in db.usages || c in db.plans then Failure(Conflict) else
    :- Need(m !in db.members && !UserTaken(db, user) && !EmailTaken(db, email), Conflict);
    var row := Member(c, Some(user), email, Owner, Active, None);
    Success(db.(plans := db.plans[c := Free], usages := db.usages[c := Usage(0, 1)], members := db.members[m := row]))
  }

  /** Billing may move a company to any plan at any time. */
  function SetPlan(db: Db, c: nat, plan: Plan): Result<Db> {
    if c !in db.plans then Failure(NotFound) else
    Success(db.(plans := db.plans[c := plan]))
  }
}
