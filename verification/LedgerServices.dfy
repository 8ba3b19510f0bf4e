/**
 * The services as they run: objects that read and rewrite the tables row by row inside transactions.
 * Each method is proved to do to the tables exactly what the matching function of module Ledger says.
 */
module LedgerServices {
  import opened Common
  import opened OrderLifecycle
  import opened TripStatus
  import L = Ledger

  class Database {
    var orders: map<nat, Order>
    var trips: map<nat, L.Trip>
    var stops: map<nat, L.Stop>
    var members: map<nat, L.Member>
    var usages: map<nat, L.Usage>
    var plans: map<nat, L.Plan>

    constructor ()
      ensures View() == L.EMPTY
    {
      orders, trips, stops, members, usages, plans := map[], map[], map[], map[], map[], map[];
    }

    function View(): L.Db
      reads this
    {
      L.Db(orders, trips, stops, members, usages, plans)
    }

    /** Rolls the tables back to an earlier view. */
    method Restore(view: L.Db)
      modifies this
      ensures View() == view
    {
      orders, trips, stops := view.orders, view.trips, view.stops;
      members, usages, plans := view.members, view.usages, view.plans;
    }
  }

  /** What a caller sees of a specified step. */
  function Report(spec: Result<L.Db>): Outcome {
    if spec.Success? then Pass else Fail(spec.error)
  }

  /** What a specified step leaves behind: its result when it commits, the old tables when it throws. */
  function Left(spec: Result<L.Db>, before: L.Db): L.Db {
    if spec.Success? then spec.value else before
  }

  class UsageService {
    const db: Database

    constructor (db: Database)
      ensures this.db == db
    {
      this.db := db;
    }

    method IncrementOrderCount(c: nat) returns (r: Outcome)
      modifies db
      ensures r == Report(L.IncrementOrderCount(old(db.View()), c))
      ensures db.View() == Left(L.IncrementOrderCount(old(db.View()), c), old(db.View()))
    {
      if c !in db.usages || c !in db.plans {
        return Fail(NotFound);
      }
      var usage := db.usages[c];
      var limit := L.OrderLimit(db.plans[c]);
      if limit.Some? && usage.ordersThisPeriod + 1 > limit.value {
        return Fail(PlanLimitExceeded);
      }
      usage := usage.(ordersThisPeriod := usage.ordersThisPeriod + 1);
      db.usages := db.usages[c := usage];
      return Pass;
    }

    method DecrementOrderCount(c: nat) returns (r: Outcome)
      modifies db
      ensures r == Report(L.DecrementOrderCount(old(db.View()), c))
      ensures db.View() == Left(L.DecrementOrderCount(old(db.View()), c), old(db.View()))
    {
      if c !in db.usages {
        return Fail(NotFound);
      }
      var usage := db.usages[c];
      usage := usage.(ordersThisPeriod := Max(0, usage.ordersThisPeriod - 1));
      db.usages := db.usages[c := usage];
      return Pass;
    }

    method IncrementTeamMemberCount(c: nat) returns (r: Outcome)
      modifies db
      ensures r == Report(L.IncrementTeamMemberCount(old(db.View()), c))
      ensures db.View() == Left(L.IncrementTeamMemberCount(old(db.View()), c), old(db.View()))
    {
      if c !in db.usages || c !in db.plans {
        return Fail(NotFound);
      }
      var usage := db.usages[c];
      var limit := L.TeamMemberLimit(db.plans[c]);
      if limit.Some? && usage.teamMembersCount + 1 > limit.value {
        return Fail(PlanLimitExceeded);
      }
      usage := usage.(teamMembersCount := usage.teamMembersCount + 1);
      db.usages := db.usages[c := usage];
      return Pass;
    }

    method DecrementTeamMemberCount(c: nat) returns (r: Outcome)
      modifies db
      ensures r == Report(L.DecrementTeamMemberCount(old(db.View()), c))
      ensures db.View() == Left(L.DecrementTeamMemberCount(old(db.View()), c), old(db.View()))
    {
      if c !in db.usages {
        return Fail(NotFound);
      }
      var usage := db.usages[c];
      usage := usage.(teamMembersCount := Max(0, usage.teamMembersCount - 1));
      db.usages := db.usages[c := usage];
      return Pass;
    }
  }

  class OrdersService {
    const db: Database
    const usage: UsageService

    ghost predicate Valid() {
      usage.db == db
    }

    constructor (usage: UsageService)
      ensures Valid() && this.usage == usage
    {
      this.db := usage.db;
      this.usage := usage;
    }

    /** The counter moves first; a failure afterwards undoes it with the rest of the transaction. */
    method CreateOrder(c: nat, o: nat, details: Details, referencesFound: bool) returns (r: Outcome)
      requires Valid()
      modifies db
      ensures r == Report(L.CreateOrder(old(db.View()), c, o, details, referencesFound))
      ensures db.View() == Left(L.CreateOrder(old(db.View()), c, o, details, referencesFound), old(db.View()))
    {
      var savepoint := db.View();
      r := usage.IncrementOrderCount(c);
      if r.Fail? {
        return;
      }
      if !referencesFound || o in db.orders {
        db.Restore(savepoint);
        return Fail(Conflict);
      }
      db.orders := db.orders[o := NewOrder(c, details)];
    }

    method UpdateOrderStatus(c: nat, o: nat, status: OrderStatus) returns (r: Outcome)
      modifies db
      ensures r == Report(L.UpdateOrderStatus(old(db.View()), c, o, status))
      ensures db.View() == Left(L.UpdateOrderStatus(old(db.View()), c, o, status), old(db.View()))
    {
      if o !in db.orders {
        return Fail(NotFound);
      }
      var order := db.orders[o];
      if order.companyId != c {
        return Fail(Forbidden);
      }
      if status !in AllowedTransitions(order.status) {
        return Fail(InvalidTransition);
      }
      order := WithStatus(order, status);
      db.orders := db.orders[o := order];
      return Pass;
    }

    method AssignDriver(c: nat, o: nat, driver: nat) returns (r: Outcome)
      modifies db
      ensures r == Report(L.AssignDriver(old(db.View()), c, o, driver))
      ensures db.View() == Left(L.AssignDriver(old(db.View()), c, o, driver), old(db.View()))
    {
      if o !in db.orders {
        return Fail(NotFound);
      }
      var order := db.orders[o];
      if order.companyId != c {
        return Fail(Forbidden);
      }
      if OrderStatus.Assigned !in AllowedTransitions(order.status) {
        return Fail(InvalidTransition);
      }
      order := order.(driver := Some(driver));
      order := WithStatus(order, OrderStatus.Assigned);
      db.orders := db.orders[o := order];
      return Pass;
    }

    static method ApplyEdit(details: Details, dto: EditDto) returns (d: Details)
      ensures d == Edited(details, dto)
    {
      d := details;
      if dto.customerName.Some? { d := d.(customerName := dto.customerName.value); }
      if dto.customerPhone.Some? { d := d.(customerPhone := dto.customerPhone.value); }
      var pickup := d.pickup;
      if dto.pickupLocation.Some? { pickup := pickup.(location := dto.pickupLocation.value); }
      if dto.pickupSavedLocationId.Some? { pickup := pickup.(savedLocationId := dto.pickupSavedLocationId.value); }
      if dto.dropoffLocation.Some? { d := d.(dropoffLocation := dto.dropoffLocation.value); }
      if dto.priority.Some? { d := d.(priority := dto.priority.value); }
      if dto.scheduledFor.Some? { d := d.(scheduledFor := dto.scheduledFor.value); }
      if dto.notes.Some? { d := d.(notes := dto.notes.value); }
      if dto.items.Some? { pickup := pickup.(items := dto.items.value); }
      d := d.(pickup := pickup);
    }

    method UpdateOrder(c: nat, o: nat, dto: EditDto) returns (r: Outcome)
      modifies db
      ensures r == Report(L.UpdateOrder(old(db.View()), c, o, dto))
      ensures db.View() == Left(L.UpdateOrder(old(db.View()), c, o, dto), old(db.View()))
    {
      if o !in db.orders {
        return Fail(NotFound);
      }
      var order := db.orders[o];
      if order.companyId != c {
        return Fail(Forbidden);
      }
      if order.status in LOCKED_ORDER_STATUSES {
        return Fail(BadRequest);
      }
      if DisallowedFieldsInDto(dto, EditableFieldsForStatus(order.status)) != {} {
        return Fail(BadRequest);
      }
      var d := ApplyEdit(order.details, dto);
      db.orders := db.orders[o := order.(details := d)];
      return Pass;
    }

    method DeleteOrder(c: nat, o: nat) returns (r: Outcome)
      requires Valid()
      modifies db
      ensures r == Report(L.DeleteOrder(old(db.View()), c, o))
      ensures db.View() == Left(L.DeleteOrder(old(db.View()), c, o), old(db.View()))
    {
      var savepoint := db.View();
      if o !in db.orders {
        return Fail(NotFound);
      }
      if db.orders[o].companyId != c {
        return Fail(Forbidden);
      }
      if db.orders[o].status !in DELETABLE_ORDER_STATUSES {
        return Fail(BadRequest);
      }
      db.stops := map s | s in db.stops && db.stops[s].orderId != o :: db.stops[s];
      db.orders := db.orders - {o};
      r := usage.DecrementOrderCount(c);
      if r.Fail? {
        db.Restore(savepoint);
      }
    }
  }

  class DispatchService {
    const db: Database
    const orders: OrdersService

    ghost predicate Valid() {
      orders.db == db
    }

    constructor (orders: OrdersService)
      ensures Valid() && this.orders == orders
    {
      this.db := orders.db;
      this.orders := orders;
    }

    /** Puts orders on a new trip one by one; each sees the writes of those before it. */
    method DispatchOrders(d: L.Dispatch, now: int) returns (r: Outcome)
      requires Valid() && d.Valid()
      modifies db
      ensures r == Report(L.DispatchOrders(old(db.View()), d, now))
      ensures db.View() == Left(L.DispatchOrders(old(db.View()), d, now), old(db.View()))
    {
      var savepoint := db.View();
      if !L.HasMember(savepoint, d.companyId, d.driver) {
        return Fail(NotFound);
      }
      if !L.HasDriver(savepoint, d.companyId, d.driver) {
        return Fail(BadRequest);
      }
      if !d.referenceFound || d.tripId in db.trips {
        return Fail(Conflict);
      }
      db.trips := db.trips[d.tripId := L.Trip(d.companyId, d.driver, now, None)];
      L.DispatchedNone(savepoint, d, now);
      r := DispatchAll(savepoint, d, now);
      if r.Fail? {
        db.Restore(savepoint);
      }
    }

    /** The dispatch loop: each order sees the writes of those before it. */
    method DispatchAll(ghost before: L.Db, d: L.Dispatch, now: int) returns (r: Outcome)
      requires Valid() && d.Valid()
      requires db.View() == L.Dispatched(before, d, 0, now)
      modifies db
      ensures r == L.FirstRefusal(before, d, 0)
      ensures r.Pass? ==> db.View() == L.Dispatched(before, d, |d.orderIds|, now)
    {
      hide L.Dispatched, L.OrderRefusal, L.NewStops;
      var i := 0;
      while i < |d.orderIds|
        invariant 0 <= i <= |d.orderIds|
        invariant db.View() == L.Dispatched(before, d, i, now)
        invariant L.FirstRefusal(before, d, 0) == L.FirstRefusal(before, d, i)
      {
        r := DispatchOne(before, d, i, now);
        if r.Fail? {
          return;
        }
        i := i + 1;
      }
      return Pass;
    }

    /** One turn of the dispatch loop. */
    method DispatchOne(ghost before: L.Db, d: L.Dispatch, i: nat, now: int) returns (r: Outcome)
      requires Valid() && d.Valid() && i < |d.orderIds|
      requires db.View() == L.Dispatched(before, d, i, now)
      modifies db
      ensures r == L.OrderRefusal(before, d, i)
      ensures r.Pass? ==> db.View() == L.Dispatched(before, d, i + 1, now)
    {
      hide L.AssignedTo, L.NewStops, L.NewStop;
      var o := d.orderIds[i];
      StatusMidway(before, d, i, now);
      if o !in db.orders {
        return Fail(NotFound);
      }
      if db.orders[o].companyId != d.companyId {
        return Fail(Forbidden);
      }
      if db.orders[o].status != OrderStatus.Pending {
        return Fail(BadRequest);
      }
      if db.orders[o].details.scheduledFor.Some? {
        return Fail(BadRequest);
      }
      r := orders.AssignDriver(d.companyId, o, d.driver);
      if d.stopIds[i] in db.stops {
        return Fail(Conflict);
      }
      db.stops := db.stops[d.stopIds[i] := L.NewStop(d, i, now)];
      L.DispatchedOneMore(before, d, i, now);
    }

    /** What the i-th turn finds, in terms of the tables before the call: duplicates show as already assigned. */
    static lemma StatusMidway(before: L.Db, d: L.Dispatch, i: nat, now: int)
      requires d.Valid() && i < |d.orderIds|
      ensures var (midway, o) := (L.Dispatched(before, d, i, now), d.orderIds[i]);
              && midway.orders.Keys == before.orders.Keys
              && (o in before.orders ==>
                    && midway.orders[o].companyId == before.orders[o].companyId
                    && midway.orders[o].details == before.orders[o].details
                    && (midway.orders[o].status == OrderStatus.Pending
                        <==> before.orders[o].status == OrderStatus.Pending && o !in d.orderIds[..i]))
              && (d.stopIds[i] in midway.stops <==> d.stopIds[i] in before.stops || d.stopIds[i] in d.stopIds[..i])
    {
      L.NewStopsKeys(d, i, now);
    }

    method GetStop(c: nat, t: nat, s: nat) returns (r: Outcome)
      ensures r == L.StopAccess(db.View(), c, t, s)
    {
      if t !in db.trips {
        return Fail(NotFound);
      }
      if db.trips[t].companyId != c {
        return Fail(Forbidden);
      }
      if s !in db.stops || db.stops[s].tripId != t {
        return Fail(NotFound);
      }
      return Pass;
    }

    /** Takes the order along the progression, one status update per step; elsewhere it does nothing. */
    method AdvanceOrderTo(c: nat, o: nat, target: OrderStatus) returns (r: Outcome)
      requires Valid()
      modifies db
      ensures r == L.OrderAccess(old(db.View()), c, o)
      ensures r.Pass? ==> db.View() == L.SetOrder(old(db.View()), o, AdvancedTo(old(db.orders)[o], target))
      ensures r.Fail? ==> db.View() == old(db.View())
    {
      if o !in db.orders {
        return Fail(NotFound);
      }
      if db.orders[o].companyId != c {
        return Fail(Forbidden);
      }
      ghost var first := db.orders[o];
      ghost var before := db.View();
      var currentIndex := IndexIn(ORDER_PROGRESSION, db.orders[o].status);
      var targetIndex := IndexIn(ORDER_PROGRESSION, target);
      if currentIndex == -1 || targetIndex == -1 || currentIndex >= targetIndex {
        assert db.orders == db.orders[o := first];
        return Pass;
      }
      r := StepThrough(c, o, currentIndex, targetIndex);
    }

    /** The advancing loop, from one position of the progression to a later one. */
    method StepThrough(c: nat, o: nat, currentIndex: nat, targetIndex: nat) returns (r: Outcome)
      requires Valid()
      requires currentIndex < targetIndex < |ORDER_PROGRESSION|
      requires o in db.orders && db.orders[o].companyId == c && db.orders[o].status == ORDER_PROGRESSION[currentIndex]
      modifies db
      ensures r == Pass
      ensures db.View() == L.SetOrder(old(db.View()), o,
                                      Walk(old(db.orders)[o], ORDER_PROGRESSION[currentIndex + 1..targetIndex + 1]))
    {
      hide AllowedTransitions, WithStatus, IndexIn;
      ghost var first := db.orders[o];
      var i := currentIndex + 1;
      while i <= targetIndex
        invariant currentIndex < i <= targetIndex + 1
        invariant o in db.orders && db.View() == L.SetOrder(old(db.View()), o, db.orders[o])
        invariant db.orders[o].companyId == c && db.orders[o].status == ORDER_PROGRESSION[i - 1]
        invariant Walk(first, ORDER_PROGRESSION[currentIndex + 1..targetIndex + 1])
                  == Walk(db.orders[o], ORDER_PROGRESSION[i..targetIndex + 1])
      {
        ProgressionIsAllowed(i);
        WalkOne(db.orders[o], ORDER_PROGRESSION[i..targetIndex + 1]);
        r := orders.UpdateOrderStatus(c, o, ORDER_PROGRESSION[i]);
        assert ORDER_PROGRESSION[i..targetIndex + 1][1..] == ORDER_PROGRESSION[i + 1..targetIndex + 1];
        i := i + 1;
      }
      return Pass;
    }

    method ArriveAtStop(c: nat, t: nat, s: nat, began: int, started: int, arrived: int) returns (r: Outcome)
      requires Valid()
      modifies db
      ensures r == Report(L.ArriveAtStop(old(db.View()), c, t, s, began, started, arrived))
      ensures db.View() == Left(L.ArriveAtStop(old(db.View()), c, t, s, began, started, arrived), old(db.View()))
    {
      hide AdvancedTo;
      r := GetStop(c, t, s);
      if r.Fail? {
        return;
      }
      var stop := db.stops[s];
      if stop.status != StopStatus.Pending {
        return Fail(BadRequest);
      }
      r := AdvanceOrderTo(c, stop.orderId, InTransit);
      if r.Fail? {
        return;
      }
      var trip := db.trips[t];
      if trip.startedAt.None? {
        trip := trip.(startedAt := Some(started));
      }
      db.trips := db.trips[t := trip];
      stop := stop.(status := Arrived, arrivedAt := Some(arrived), updatedAt := began);
      db.stops := db.stops[s := stop];
    }

    method CompleteStop(c: nat, t: nat, s: nat, began: int, completed: int) returns (r: Outcome)
      requires Valid()
      modifies db
      ensures r == Report(L.CompleteStop(old(db.View()), c, t, s, began, completed))
      ensures db.View() == Left(L.CompleteStop(old(db.View()), c, t, s, began, completed), old(db.View()))
    {
      hide AdvancedTo, AllowedTransitions, WithStatus;
      var savepoint := db.View();
      r := GetStop(c, t, s);
      if r.Fail? {
        return;
      }
      var stop := db.stops[s];
      if stop.status != Arrived {
        return Fail(BadRequest);
      }
      r := AdvanceOrderTo(c, stop.orderId, InTransit);
      if r.Fail? {
        return;
      }
      r := orders.UpdateOrderStatus(c, stop.orderId, Delivered);
      if r.Fail? {
        db.Restore(savepoint);
        return;
      }
      stop := stop.(status := Completed, completedAt := Some(completed), updatedAt := began);
      db.stops := db.stops[s := stop];
    }

    method SkipStop(c: nat, t: nat, s: nat, began: int) returns (r: Outcome)
      requires Valid()
      modifies db
      ensures r == Report(L.SkipStop(old(db.View()), c, t, s, began))
      ensures db.View() == Left(L.SkipStop(old(db.View()), c, t, s, began), old(db.View()))
    {
      hide AdvancedTo, AllowedTransitions, WithStatus;
      var savepoint := db.View();
      r := GetStop(c, t, s);
      if r.Fail? {
        return;
      }
      var stop := db.stops[s];
      if stop.status == Completed || stop.status == Skipped {
        return Fail(BadRequest);
      }
      r := AdvanceOrderTo(c, stop.orderId, InTransit);
      if r.Fail? {
        return;
      }
      r := orders.UpdateOrderStatus(c, stop.orderId, OrderStatus.Failed);
      if r.Fail? {
        db.Restore(savepoint);
        return;
      }
      stop := stop.(status := Skipped, updatedAt := began);
      db.stops := db.stops[s := stop];
    }
  }

  class TeamService {
    const db: Database
    const usage: UsageService

    ghost predicate Valid() {
      usage.db == db
    }

    constructor (usage: UsageService)
      ensures Valid() && this.usage == usage
    {
      this.db := usage.db;
      this.usage := usage;
    }

    method InviteMember(c: nat, acting: nat, m: nat, email: string, role: L.Role, token: nat, now: int)
      returns (r: Outcome)
      requires Valid()
      modifies db
      ensures r == Report(L.InviteMember(old(db.View()), c, acting, m, email, role, token, now))
      ensures db.View() == Left(L.InviteMember(old(db.View()), c, acting, m, email, role, token, now), old(db.View()))
    {
      hide L.IsManager, L.EmailTaken;
      var savepoint := db.View();
      if role == L.Owner {
        return Fail(BadRequest);
      }
      if !L.IsManager(savepoint, c, acting) {
        return Fail(InsufficientPermissions);
      }
      if L.EmailTaken(savepoint, email) {
        return Fail(Conflict);
      }
      r := usage.IncrementTeamMemberCount(c);
      if r.Fail? {
        return;
      }
      if m in db.members {
        db.Restore(savepoint);
        return Fail(Conflict);
      }
      var invite := L.Invite(token, now + L.INVITE_TOKEN_TTL_MS);
      db.members := db.members[m := L.Member(c, None, email, role, L.Invited, Some(invite))];
    }

    method GetMember(c: nat, m: nat) returns (r: Outcome)
      ensures r == L.MemberAccess(db.View(), c, m)
    {
      if m !in db.members {
        return Fail(NotFound);
      }
      if db.members[m].companyId != c {
        return Fail(Forbidden);
      }
      return Pass;
    }

    method RemoveRow(c: nat, m: nat) returns (r: Outcome)
      requires Valid()
      modifies db
      ensures r == Report(L.RemoveRow(old(db.View()), c, m))
      ensures db.View() == Left(L.RemoveRow(old(db.View()), c, m), old(db.View()))
    {
      var savepoint := db.View();
      db.members := db.members - {m};
      r := usage.DecrementTeamMemberCount(c);
      if r.Fail? {
        db.Restore(savepoint);
      }
    }

    method CancelInvite(c: nat, acting: nat, m: nat) returns (r: Outcome)
      requires Valid()
      modifies db
      ensures r == Report(L.CancelInvite(old(db.View()), c, acting, m))
      ensures db.View() == Left(L.CancelInvite(old(db.View()), c, acting, m), old(db.View()))
    {
      hide L.IsManager, L.RemoveRow;
      if !L.IsManager(db.View(), c, acting) {
        return Fail(InsufficientPermissions);
      }
      r := GetMember(c, m);
      if r.Fail? {
        return;
      }
      if db.members[m].status != L.Invited {
        return Fail(Forbidden);
      }
      r := RemoveRow(c, m);
    }

    method AcceptInvite(m: nat, token: nat, user: nat, now: int) returns (r: Outcome)
      modifies db
      ensures r == Report(L.AcceptInvite(old(db.View()), m, token, user, now))
      ensures db.View() == Left(L.AcceptInvite(old(db.View()), m, token, user, now), old(db.View()))
    {
      hide L.UserTaken;
      if m !in db.members || db.members[m].status != L.Invited {
        return Fail(NotFound);
      }
      var invite := db.members[m];
      if invite.invite.None? || invite.invite.value.token != token || invite.invite.value.expiresAt < now {
        return Fail(NotFound);
      }
      if L.UserTaken(db.View(), user) {
        return Fail(Conflict);
      }
      invite := invite.(userId := Some(user), status := L.Active, invite := None);
      db.members := db.members[m := invite];
      return Pass;
    }

    method ChangeMemberRole(c: nat, acting: nat, m: nat, role: L.Role) returns (r: Outcome)
      modifies db
      ensures r == Report(L.ChangeMemberRole(old(db.View()), c, acting, m, role))
      ensures db.View() == Left(L.ChangeMemberRole(old(db.View()), c, acting, m, role), old(db.View()))
    {
      hide L.IsManager, L.IsDriverAssignedToTrip;
      if role == L.Owner {
        return Fail(BadRequest);
      }
      if !L.IsManager(db.View(), c, acting) {
        return Fail(InsufficientPermissions);
      }
      r := GetMember(c, m);
      if r.Fail? {
        return;
      }
      var member := db.members[m];
      if member.role == L.Owner {
        return Fail(Forbidden);
      }
      if member.role == L.Driver && role != L.Driver && member.userId.Some?
         && L.IsDriverAssignedToTrip(db.View(), c, member.userId.value) {
        return Fail(Forbidden);
      }
      member := member.(role := role);
      db.members := db.members[m := member];
    }

    method RemoveMember(c: nat, acting: nat, m: nat) returns (r: Outcome)
      requires Valid()
      modifies db
      ensures r == Report(L.RemoveMember(old(db.View()), c, acting, m))
      ensures db.View() == Left(L.RemoveMember(old(db.View()), c, acting, m), old(db.View()))
    {
      hide L.IsManager, L.IsDriverAssignedToTrip, L.RemoveRow;
      if !L.IsManager(db.View(), c, acting) {
        return Fail(InsufficientPermissions);
      }
      r := GetMember(c, m);
      if r.Fail? {
        return;
      }
      var member := db.members[m];
      if member.role == L.Owner {
        return Fail(Forbidden);
      }
      if member.role == L.Driver && member.userId.Some?
         && L.IsDriverAssignedToTrip(db.View(), c, member.userId.value) {
        return Fail(Forbidden);
      }
      r := RemoveRow(c, m);
    }

    method SuspendMember(c: nat, acting: nat, m: nat) returns (r: Outcome)
      modifies db
      ensures r == Report(L.SuspendMember(old(db.View()), c, acting, m))
      ensures db.View() == Left(L.SuspendMember(old(db.View()), c, acting, m), old(db.View()))
    {
      hide L.IsManager, L.IsDriverAssignedToTrip;
      if !L.IsManager(db.View(), c, acting) {
        return Fail(InsufficientPermissions);
      }
      r := GetMember(c, m);
      if r.Fail? {
        return;
      }
      var member := db.members[m];
      if member.role == L.Owner || member.status == L.Suspended {
        return Fail(Forbidden);
      }
      if member.role == L.Driver && member.userId.Some?
         && L.IsDriverAssignedToTrip(db.View(), c, member.userId.value) {
        return Fail(Forbidden);
      }
      member := member.(status := L.Suspended);
      db.members := db.members[m := member];
    }

    /** Accepts invited members too: they become active without ever having an account. */
    method ActivateMember(c: nat, acting: nat, m: nat) returns (r: Outcome)
      modifies db
      ensures r == Report(L.ActivateMember(old(db.View()), c, acting, m))
      ensures db.View() == Left(L.ActivateMember(old(db.View()), c, acting, m), old(db.View()))
    {
      hide L.IsManager;
      if !L.IsManager(db.View(), c, acting) {
        return Fail(InsufficientPermissions);
      }
      r := GetMember(c, m);
      if r.Fail? {
        return;
      }
      var member := db.members[m];
      if member.status == L.Active {
        return Fail(Forbidden);
      }
      member := member.(status := L.Active);
      db.members := db.members[m := member];
    }
  }
}
