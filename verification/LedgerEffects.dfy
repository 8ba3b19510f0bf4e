/** What each call answers and writes, said in plain values: when it commits, with which exception it is refused
  * otherwise, and the rows it leaves. */
module LedgerEffects {
  import opened Common
  import opened OrderLifecycle
  import opened TripStatus
  import opened Ledger

  // ---- Plan limits ----

  predicate RoomForOrder(db: Db, c: nat) {
    c in db.usages && c in db.plans &&
    match db.plans[c]
    case Free => db.usages[c].ordersThisPeriod < 10
    case Starter => db.usages[c].ordersThisPeriod < 500
    case Pro => true
  }

  predicate RoomForMember(db: Db, c: nat) {
    c in db.usages && c in db.plans &&
    match db.plans[c]
    case Free => db.usages[c].teamMembersCount < 2
    case Starter => db.usages[c].teamMembersCount < 10
    case Pro => true
  }

  lemma OrderIsCounted(db: Db, c: nat)
    ensures var r := IncrementOrderCount(db, c);
            && (r == Failure(NotFound) <==> c !in db.usages || c !in db.plans)
            && (r == Failure(PlanLimitExceeded) <==> c in db.usages && c in db.plans && !RoomForOrder(db, c))
            && (r.Success? <==> RoomForOrder(db, c))
            && (r.Success? ==>
                  var u := db.usages[c];
                  r.value == db.(usages := db.usages[c := Usage(u.ordersThisPeriod + 1, u.teamMembersCount)]))
  {
  }

  lemma MemberIsCounted(db: Db, c: nat)
    ensures var r := IncrementTeamMemberCount(db, c);
            && (r == Failure(NotFound) <==> c !in db.usages || c !in db.plans)
            && (r == Failure(PlanLimitExceeded) <==> c in db.usages && c in db.plans && !RoomForMember(db, c))
            && (r.Success? <==> RoomForMember(db, c))
            && (r.Success? ==>
                  var u := db.usages[c];
                  r.value == db.(usages := db.usages[c := Usage(u.ordersThisPeriod, u.teamMembersCount + 1)]))
  {
  }

  lemma CountsGoDown(db: Db, c: nat)
    ensures var (r, q) := (DecrementOrderCount(db, c), DecrementTeamMemberCount(db, c));
            if c !in db.usages then r == q == Failure(NotFound)
            else
              var Usage(n, k) := db.usages[c];
              && r == Success(db.(usages := db.usages[c := Usage(if n > 0 then n - 1 else 0, k)]))
              && q == Success(db.(usages := db.usages[c := Usage(n, if k > 0 then k - 1 else 0)]))
  {
  }

  // ---- Orders ----

  /** A new order is PENDING, without a driver, with just the given details, and counted; or nothing is. */
  lemma CreateOrderExactly(db: Db, c: nat, o: nat, details: Details, found: bool)
    ensures var r := CreateOrder(db, c, o, details, found);
            && (r == Failure(NotFound) <==> c !in db.usages || c !in db.plans)
            && (r == Failure(PlanLimitExceeded) <==> c in db.usages && c in db.plans && !RoomForOrder(db, c))
            && (r == Failure(Conflict) <==> RoomForOrder(db, c) && (!found || o in db.orders))
            && (r.Success? <==> RoomForOrder(db, c) && found && o !in db.orders)
            && (r.Success? ==>
                  var u := db.usages[c];
                  var row := Order(c, OrderStatus.Pending, None, details, [Mark(OrderStatus.Pending, details.pickup)]);
                  r.value == db.(orders := db.orders[o := row],
                                 usages := db.usages[c := Usage(u.ordersThisPeriod + 1, u.teamMembersCount)]))
  {
  }

  /** The ways into each status. */
  predicate MayFollow(to: OrderStatus, from: OrderStatus) {
    match to
    case Pending => false
    case Assigned => from in {OrderStatus.Pending, OrderStatus.Failed}
    case PickedUp => from == OrderStatus.Assigned
    case InTransit => from == OrderStatus.PickedUp
    case Delivered => from == OrderStatus.InTransit
    case Failed => from == OrderStatus.InTransit
    case Cancelled => from in {OrderStatus.Pending, OrderStatus.Assigned, OrderStatus.PickedUp}
  }

  lemma StatusExactly(db: Db, c: nat, o: nat, status: OrderStatus)
    ensures var r := UpdateOrderStatus(db, c, o, status);
            if o !in db.orders then r == Failure(NotFound)
            else if db.orders[o].companyId != c then r == Failure(Forbidden)
            else if !MayFollow(status, db.orders[o].status) then r == Failure(InvalidTransition)
            else
              var row := db.orders[o];
              var after := Order(c, status, row.driver, row.details, row.trail + [Mark(status, row.details.pickup)]);
              r == Success(db.(orders := db.orders[o := after]))
  {
  }

  lemma AssignDriverExactly(db: Db, c: nat, o: nat, driver: nat)
    ensures var r := AssignDriver(db, c, o, driver);
            if o !in db.orders then r == Failure(NotFound)
            else if db.orders[o].companyId != c then r == Failure(Forbidden)
            else if db.orders[o].status !in {OrderStatus.Pending, OrderStatus.Failed} then
              r == Failure(InvalidTransition)
            else
              var row := db.orders[o];
              var trail := row.trail + [Mark(OrderStatus.Assigned, row.details.pickup)];
              r == Success(
                db.(orders := db.orders[o := Order(c, OrderStatus.Assigned, Some(driver), row.details, trail)]))
  {
  }

  predicate EditAllowed(status: OrderStatus, dto: EditDto) {
    match status
    case Pending => true
    case Assigned => true
    case PickedUp => dto.pickupLocation.None? && dto.pickupSavedLocationId.None? && dto.items.None?
    case InTransit => dto.pickupLocation.None? && dto.pickupSavedLocationId.None? && dto.items.None?
    case _ => false
  }

  lemma EditIsAllowedExactly(status: OrderStatus, dto: EditDto)
    ensures EditAllowed(status, dto) <==>
            status !in LOCKED_ORDER_STATUSES && DisallowedFieldsInDto(dto, EditableFieldsForStatus(status)) == {}
  {
    var rejected := DisallowedFieldsInDto(dto, EditableFieldsForStatus(status));
    assert forall f :: f in rejected <==> Mentions(dto, f) && f !in EditableFieldsForStatus(status);
    if status in {OrderStatus.PickedUp, OrderStatus.InTransit} {
      assert PickupLocation in rejected <==> dto.pickupLocation.Some?;
      assert PickupSavedLocationId in rejected <==> dto.pickupSavedLocationId.Some?;
      assert Items in rejected <==> dto.items.Some?;
    } else {
      forall f ensures f in ALL_FIELDS {
        EveryFieldListed(f);
      }
    }
  }

  lemma UpdateOrderExactly(db: Db, c: nat, o: nat, dto: EditDto)
    ensures var r := UpdateOrder(db, c, o, dto);
            if o !in db.orders then r == Failure(NotFound)
            else if db.orders[o].companyId != c then r == Failure(Forbidden)
            else if !EditAllowed(db.orders[o].status, dto) then r == Failure(BadRequest)
            else
              var row := db.orders[o];
              var d := row.details;
              var pickup := Pickup(
                if dto.pickupLocation.Some? then dto.pickupLocation.value else d.pickup.location,
                if dto.pickupSavedLocationId.Some? then dto.pickupSavedLocationId.value else d.pickup.savedLocationId,
                if dto.items.Some? then dto.items.value else d.pickup.items);
              var details := Details(
                if dto.customerName.Some? then dto.customerName.value else d.customerName,
                if dto.customerPhone.Some? then dto.customerPhone.value else d.customerPhone,
                pickup,
                if dto.dropoffLocation.Some? then dto.dropoffLocation.value else d.dropoffLocation,
                if dto.priority.Some? then dto.priority.value else d.priority,
                if dto.scheduledFor.Some? then dto.scheduledFor.value else d.scheduledFor,
                if dto.notes.Some? then dto.notes.value else d.notes);
              r == Success(db.(orders := db.orders[o := Order(c, row.status, row.driver, details, row.trail)]))
  {
    if o in db.orders {
      EditIsAllowedExactly(db.orders[o].status, dto);
    }
  }

  /** Deleting an order that is PENDING or CANCELLED takes its row, its stop and one off the count. */
  lemma DeleteOrderExactly(db: Db, c: nat, o: nat)
    ensures var r := DeleteOrder(db, c, o);
            if o !in db.orders then r == Failure(NotFound)
            else if db.orders[o].companyId != c then r == Failure(Forbidden)
            else if db.orders[o].status !in {OrderStatus.Pending, OrderStatus.Cancelled} then r == Failure(BadRequest)
            else if c !in db.usages then r == Failure(NotFound)
            else
              var Usage(n, k) := db.usages[c];
              && r.Success?
              && r.value == db.(orders := r.value.orders, stops := r.value.stops,
                                usages := db.usages[c := Usage(if n > 0 then n - 1 else 0, k)])
              && r.value.orders == db.orders - {o}
              && (forall s :: s in r.value.stops <==> s in db.stops && db.stops[s].orderId != o)
              && (forall s :: s in r.value.stops ==> r.value.stops[s] == db.stops[s])
  {
  }

  // ---- Dispatch ----

  /** The k-th requested order is the first that cannot join. */
  predicate FirstUnfit(db: Db, d: Dispatch, k: nat)
    requires d.Valid() && k < |d.orderIds|
  {
    OrderRefusal(db, d, k).Fail? && forall i: nat :: i < k ==> OrderRefusal(db, d, i).Pass?
  }

  /** Why an order cannot join, in the order of the checks: missing, foreign, not PENDING (or requested already), due
    * later; `Conflict` is the clash of a generated id. */
  lemma OrderRefusalExactly(db: Db, d: Dispatch, k: nat)
    requires d.Valid() && k < |d.orderIds|
    ensures var (o, r) := (d.orderIds[k], OrderRefusal(db, d, k));
            if o !in db.orders then r == Fail(NotFound)
            else if db.orders[o].companyId != d.companyId then r == Fail(Forbidden)
            else if db.orders[o].status != OrderStatus.Pending
                    || (exists i :: 0 <= i < k && d.orderIds[i] == o)
                    || db.orders[o].details.scheduledFor.Some? then r == Fail(BadRequest)
            else if d.stopIds[k] in db.stops || (exists i :: 0 <= i < k && d.stopIds[i] == d.stopIds[k]) then
              r == Fail(Conflict)
            else r == Pass
  {
    assert d.orderIds[k] in d.orderIds[..k] <==> exists i :: 0 <= i < k && d.orderIds[i] == d.orderIds[k];
    assert d.stopIds[k] in d.stopIds[..k] <==> exists i :: 0 <= i < k && d.stopIds[i] == d.stopIds[k];
  }

  lemma {:induction false} FirstRefusalIsFirst(db: Db, d: Dispatch, j: nat, k: nat)
    requires d.Valid() && j <= k < |d.orderIds| && FirstUnfit(db, d, k)
    ensures FirstRefusal(db, d, j) == OrderRefusal(db, d, k)
    decreases k - j
  {
    if j < k {
      FirstRefusalIsFirst(db, d, j + 1, k);
    }
  }

  /** A dispatch that does not commit says why: first the driver, then the generated ids, then the first order that
    * cannot join. */
  lemma DispatchRefusals(db: Db, d: Dispatch, now: int)
    requires d.Valid()
    ensures var r := DispatchOrders(db, d, now);
            && ((forall m :: m in db.members ==>
                   db.members[m].companyId != d.companyId || db.members[m].userId != Some(d.driver)) ==>
                  r == Failure(NotFound))
            && (HasMember(db, d.companyId, d.driver) && !HasDriver(db, d.companyId, d.driver) ==>
                  r == Failure(BadRequest))
            && (HasDriver(db, d.companyId, d.driver) && (!d.referenceFound || d.tripId in db.trips) ==>
                  r == Failure(Conflict))
            && (forall k: nat ::
                  k < |d.orderIds| && HasDriver(db, d.companyId, d.driver) && d.referenceFound && d.tripId !in db.trips
                  && FirstUnfit(db, d, k) ==>
                    r == Failure(OrderRefusal(db, d, k).error))
  {
    assert HasDriver(db, d.companyId, d.driver) ==> HasMember(db, d.companyId, d.driver);
    forall k: nat | k < |d.orderIds| && FirstUnfit(db, d, k)
      ensures FirstRefusal(db, d, 0) == OrderRefusal(db, d, k)
    {
      FirstRefusalIsFirst(db, d, 0, k);
    }
    hide OrderRefusal, FirstUnfit, Dispatched;
  }

  // ---- At a stop ----

  /** The statuses an order is taken through to be IN_TRANSIT, from where it stands. */
  function Route(status: OrderStatus): seq<OrderStatus> {
    match status
    case Assigned => [OrderStatus.PickedUp, OrderStatus.InTransit]
    case PickedUp => [OrderStatus.InTransit]
    case _ => []
  }

  /** The row saved once with each status of the route, and otherwise as it was. */
  ghost predicate Moved(before: Order, after: Order, route: seq<OrderStatus>) {
    && after.companyId == before.companyId && after.driver == before.driver && after.details == before.details
    && after.status == (if route == [] then before.status else route[|route| - 1])
    && |after.trail| == |before.trail| + |route|
    && (forall i :: 0 <= i < |before.trail| ==> after.trail[i] == before.trail[i])
    && (forall i :: 0 <= i < |route| ==> after.trail[|before.trail| + i] == Mark(route[i], before.details.pickup))
  }

  lemma AdvancedAlongRoute(row: Order)
    ensures Moved(row, AdvancedTo(row, InTransit), Route(row.status))
  {
    hide PathTo;
    PathToInTransit(row.status);
    WalkTwo(row, OrderStatus.PickedUp, OrderStatus.InTransit);
    WalkTwo(row, OrderStatus.InTransit, OrderStatus.InTransit);
  }

  lemma ClosedAlongRoute(row: Order, last: OrderStatus)
    requires last in {OrderStatus.Delivered, OrderStatus.Failed}
    ensures var moved := AdvancedTo(row, InTransit);
            && (last in AllowedTransitions(moved.status)
                <==> row.status in {OrderStatus.Assigned, OrderStatus.PickedUp, OrderStatus.InTransit})
            && (last in AllowedTransitions(moved.status) ==>
                  Moved(row, WithStatus(moved, last), Route(row.status) + [last]))
  {
    hide AdvancedTo;
    AdvancedAlongRoute(row);
  }

  /** Only the named rows differ. */
  ghost predicate Rewrites(before: Db, after: Db, t: nat, s: nat, o: nat) {
    && t in after.trips && s in after.stops && o in after.orders
    && after.trips == before.trips[t := after.trips[t]]
    && after.stops == before.stops[s := after.stops[s]]
    && after.orders == before.orders[o := after.orders[o]]
    && after.members == before.members && after.usages == before.usages && after.plans == before.plans
  }

  /** Why a stop cannot be loaded for the company. */
  predicate StopMissing(db: Db, c: nat, t: nat, s: nat) {
    t !in db.trips || (db.trips[t].companyId == c && (s !in db.stops || db.stops[s].tripId != t))
  }

  predicate StopForeign(db: Db, c: nat, t: nat) {
    t in db.trips && db.trips[t].companyId != c
  }

  /** Arriving: the stop is ARRIVED at `arrived`, the trip started at `started` unless it had been before, the
    * order taken along to IN_TRANSIT as far as it was under way. */
  lemma ArriveExactly(db: Db, c: nat, t: nat, s: nat, began: int, started: int, arrived: int)
    ensures var r := ArriveAtStop(db, c, t, s, began, started, arrived);
            if StopMissing(db, c, t, s) then r == Failure(NotFound)
            else if StopForeign(db, c, t) then r == Failure(Forbidden)
            else if db.stops[s].status != StopStatus.Pending then r == Failure(BadRequest)
            else if db.stops[s].orderId !in db.orders then r == Failure(NotFound)
            else if db.orders[db.stops[s].orderId].companyId != c then r == Failure(Forbidden)
            else
              var (stop, trip) := (db.stops[s], db.trips[t]);
              var o := stop.orderId;
              && r.Success? && Rewrites(db, r.value, t, s, o)
              && r.value.stops[s] == Stop(t, o, stop.sequence, Arrived, Some(arrived), stop.completedAt, began)
              && r.value.trips[t] == Trip(c, trip.driver, trip.createdAt,
                                          if trip.startedAt.Some? then trip.startedAt else Some(started))
              && Moved(db.orders[o], r.value.orders[o], Route(db.orders[o].status))
  {
    hide AdvancedTo, Moved;
    if s in db.stops && db.stops[s].orderId in db.orders {
      AdvancedAlongRoute(db.orders[db.stops[s].orderId]);
    }
  }

  /** Completing: the stop is COMPLETED at `completed` and keeps its arrival, the order is taken to DELIVERED. */
  lemma CompleteExactly(db: Db, c: nat, t: nat, s: nat, began: int, completed: int)
    ensures var r := CompleteStop(db, c, t, s, began, completed);
            if StopMissing(db, c, t, s) then r == Failure(NotFound)
            else if StopForeign(db, c, t) then r == Failure(Forbidden)
            else if db.stops[s].status != Arrived then r == Failure(BadRequest)
            else if db.stops[s].orderId !in db.orders then r == Failure(NotFound)
            else if db.orders[db.stops[s].orderId].companyId != c then r == Failure(Forbidden)
            else if db.orders[db.stops[s].orderId].status
                    !in {OrderStatus.Assigned, OrderStatus.PickedUp, OrderStatus.InTransit} then
              r == Failure(InvalidTransition)
            else
              var (stop, o) := (db.stops[s], db.stops[s].orderId);
              && r.Success? && Rewrites(db, r.value, t, s, o)
              && r.value.stops[s] == Stop(t, o, stop.sequence, Completed, stop.arrivedAt, Some(completed), began)
              && r.value.trips[t] == db.trips[t]
              && Moved(db.orders[o], r.value.orders[o], Route(db.orders[o].status) + [OrderStatus.Delivered])
  {
    hide AdvancedTo, Moved, WithStatus, AllowedTransitions;
    if s in db.stops && db.stops[s].orderId in db.orders {
      var row := db.orders[db.stops[s].orderId];
      AdvancedRow(row);
      ClosedAlongRoute(row, OrderStatus.Delivered);
    }
  }

  lemma AdvancedRow(row: Order)
    ensures AdvancedTo(row, InTransit).companyId == row.companyId
  {
    hide AdvancedTo;
    AdvancedAlongRoute(row);
  }

  /** Skipping: the stop is SKIPPED and keeps its times, the order is taken to FAILED. */
  lemma SkipExactly(db: Db, c: nat, t: nat, s: nat, began: int)
    ensures var r := SkipStop(db, c, t, s, began);
            if StopMissing(db, c, t, s) then r == Failure(NotFound)
            else if StopForeign(db, c, t) then r == Failure(Forbidden)
            else if db.stops[s].status in {Completed, Skipped} then r == Failure(BadRequest)
            else if db.stops[s].orderId !in db.orders then r == Failure(NotFound)
            else if db.orders[db.stops[s].orderId].companyId != c then r == Failure(Forbidden)
            else if db.orders[db.stops[s].orderId].status
                    !in {OrderStatus.Assigned, OrderStatus.PickedUp, OrderStatus.InTransit} then
              r == Failure(InvalidTransition)
            else
              var (stop, o) := (db.stops[s], db.stops[s].orderId);
              && r.Success? && Rewrites(db, r.value, t, s, o)
              && r.value.stops[s] == Stop(t, o, stop.sequence, Skipped, stop.arrivedAt, stop.completedAt, began)
              && r.value.trips[t] == db.trips[t]
              && Moved(db.orders[o], r.value.orders[o], Route(db.orders[o].status) + [OrderStatus.Failed])
  {
    hide AdvancedTo, Moved, WithStatus, AllowedTransitions;
    if s in db.stops && db.stops[s].orderId in db.orders {
      var row := db.orders[db.stops[s].orderId];
      AdvancedRow(row);
      ClosedAlongRoute(row, OrderStatus.Failed);
    }
  }

  // ---- Team ----

  /** Who may manage, drive, be busy, and which emails and users are taken, read off the member rows. */
  lemma GuardsReadRows(db: Db, c: nat, user: nat, email: string, k: nat)
    requires k in db.members
    ensures IsManager(db, c, user) <==>
            exists m :: m in db.members && db.members[m].companyId == c && db.members[m].userId == Some(user)
                        && (db.members[m].role == Owner || db.members[m].role == Admin)
    ensures HasMember(db, c, user) <==>
            exists m :: m in db.members && db.members[m].companyId == c && db.members[m].userId == Some(user)
    ensures HasDriver(db, c, user) <==>
            exists m :: m in db.members && db.members[m].companyId == c && db.members[m].userId == Some(user)
                        && db.members[m].role == Role.Driver
    ensures EmailTaken(db, email) <==> exists m :: m in db.members && db.members[m].email == email
    ensures UserTaken(db, user) <==> exists m :: m in db.members && db.members[m].userId == Some(user)
    ensures BusyDriver(db, k) <==>
            db.members[k].role == Role.Driver
            && exists s ::
                 s in db.stops && (db.stops[s].status == StopStatus.Pending || db.stops[s].status == Arrived)
                 && db.stops[s].tripId in db.trips
                 && db.trips[db.stops[s].tripId].companyId == db.members[k].companyId
                 && Some(db.trips[db.stops[s].tripId].driver) == db.members[k].userId
  {
    assert HasDriver(db, c, user) <==> exists m :: m in db.members && IsDriver(db.members[m], c, user);
    var row := db.members[k];
    if row.role == Role.Driver && row.userId.Some? {
      assert IsDriverAssignedToTrip(db, row.companyId, row.userId.value) <==>
             exists s ::
               s in db.stops && ActiveStop(db.stops[s]) && IsStopOf(db, db.stops[s], row.companyId, row.userId.value);
    }
  }

  lemma InviteExactly(db: Db, c: nat, acting: nat, m: nat, email: string, role: Role, token: nat, now: int)
    ensures var r := InviteMember(db, c, acting, m, email, role, token, now);
            if role == Owner then r == Failure(BadRequest)
            else if !IsManager(db, c, acting) then r == Failure(InsufficientPermissions)
            else if EmailTaken(db, email) then r == Failure(Conflict)
            else if c !in db.usages || c !in db.plans then r == Failure(NotFound)
            else if !RoomForMember(db, c) then r == Failure(PlanLimitExceeded)
            else if m in db.members then r == Failure(Conflict)
            else
              var u := db.usages[c];
              var row := Member(c, None, email, role, Invited, Some(Invite(token, now + 604_800_000)));
              r == Success(db.(members := db.members[m := row],
                               usages := db.usages[c := Usage(u.ordersThisPeriod, u.teamMembersCount + 1)]))
  {
    hide IsManager, EmailTaken;
    MemberIsCounted(db, c);
  }

  /** A row's removal, with one off the count. */
  ghost predicate Removed(db: Db, r: Result<Db>, c: nat, m: nat) {
    if c !in db.usages then r == Failure(NotFound)
    else
      var Usage(n, k) := db.usages[c];
      r == Success(db.(members := db.members - {m}, usages := db.usages[c := Usage(n, if k > 0 then k - 1 else 0)]))
  }

  lemma CancelExactly(db: Db, c: nat, acting: nat, m: nat)
    ensures var r := CancelInvite(db, c, acting, m);
            if !IsManager(db, c, acting) then r == Failure(InsufficientPermissions)
            else if m !in db.members then r == Failure(NotFound)
            else if db.members[m].companyId != c || db.members[m].status != Invited then r == Failure(Forbidden)
            else Removed(db, r, c, m)
  {
    hide IsManager;
  }

  lemma RemoveExactly(db: Db, c: nat, acting: nat, m: nat)
    ensures var r := RemoveMember(db, c, acting, m);
            if !IsManager(db, c, acting) then r == Failure(InsufficientPermissions)
            else if m !in db.members then r == Failure(NotFound)
            else if db.members[m].companyId != c || db.members[m].role == Owner || BusyDriver(db, m) then
              r == Failure(Forbidden)
            else Removed(db, r, c, m)
  {
    hide IsManager, BusyDriver;
  }

  /** The token and its expiry are checked against the row, and both are spent. */
  lemma AcceptExactly(db: Db, m: nat, token: nat, user: nat, now: int)
    ensures var r := AcceptInvite(db, m, token, user, now);
            if m !in db.members || db.members[m].status != Invited then r == Failure(NotFound)
            else
              var row := db.members[m];
              if row.invite.None? || row.invite.value.token != token || row.invite.value.expiresAt < now then
                r == Failure(NotFound)
              else if UserTaken(db, user) then r == Failure(Conflict)
              else
                r == Success(db.(members := db.members[m :=
                             Member(row.companyId, Some(user), row.email, row.role, MemberStatus.Active, None)]))
  {
    hide UserTaken;
  }

  lemma ChangeRoleExactly(db: Db, c: nat, acting: nat, m: nat, role: Role)
    ensures var r := ChangeMemberRole(db, c, acting, m, role);
            if role == Owner then r == Failure(BadRequest)
            else if !IsManager(db, c, acting) then r == Failure(InsufficientPermissions)
            else if m !in db.members then r == Failure(NotFound)
            else if db.members[m].companyId != c || db.members[m].role == Owner
                    || (role != Role.Driver && BusyDriver(db, m)) then r == Failure(Forbidden)
            else
              var row := db.members[m];
              r == Success(db.(members := db.members[m :=
                           Member(c, row.userId, row.email, role, row.status, row.invite)]))
  {
    hide IsManager, BusyDriver;
  }

  lemma SuspendExactly(db: Db, c: nat, acting: nat, m: nat)
    ensures var r := SuspendMember(db, c, acting, m);
            if !IsManager(db, c, acting) then r == Failure(InsufficientPermissions)
            else if m !in db.members then r == Failure(NotFound)
            else if db.members[m].companyId != c || db.members[m].role == Owner
                    || db.members[m].status == Suspended || BusyDriver(db, m) then r == Failure(Forbidden)
            else
              var row := db.members[m];
              r == Success(db.(members := db.members[m :=
                           Member(c, row.userId, row.email, row.role, Suspended, row.invite)]))
  {
    hide IsManager, BusyDriver;
  }

  lemma ActivateExactly(db: Db, c: nat, acting: nat, m: nat)
    ensures var r := ActivateMember(db, c, acting, m);
            if !IsManager(db, c, acting) then r == Failure(InsufficientPermissions)
            else if m !in db.members then r == Failure(NotFound)
            else if db.members[m].companyId != c || db.members[m].status == MemberStatus.Active then
              r == Failure(Forbidden)
            else
              var row := db.members[m];
              r == Success(db.(members := db.members[m :=
                           Member(c, row.userId, row.email, row.role, MemberStatus.Active, row.invite)]))
  {
    hide IsManager;
  }

  // ---- Companies ----

  lemma OpenCompanyExactly(db: Db, c: nat, m: nat, user: nat, email: string)
    ensures var r := CreateCompany(db, c, m, user, email);
            if c in db.usages || c in db.plans || m in db.members || UserTaken(db, user) || EmailTaken(db, email) then
              r == Failure(Conflict)
            else
              var row := Member(c, Some(user), email, Owner, MemberStatus.Active, None);
              r == Success(db.(plans := db.plans[c := Free], usages := db.usages[c := Usage(0, 1)],
                               members := db.members[m := row]))
  {
    hide UserTaken, EmailTaken;
  }

  lemma SetPlanExactly(db: Db, c: nat, plan: Plan)
    ensures SetPlan(db, c, plan)
            == if c in db.plans then Success(db.(plans := db.plans[c := plan])) else Failure(NotFound)
  {
  }
}
