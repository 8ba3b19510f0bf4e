/** Runs of service calls, one transaction at a time, and what holds in every state they reach. */
module LedgerRuns {
  import opened Common
  import opened OrderLifecycle
  import opened TripStatus
  import opened Ledger
  import opened LedgerInvariants

  /** One call. Natural-number waits say how far the server clock moves between the readings a call takes. */
  datatype Command =
    | OpenCompany(companyId: nat, member: nat, user: nat, email: string)
    | ChoosePlan(companyId: nat, plan: Plan)
    | PlaceOrder(companyId: nat, order: nat, details: Details, referencesFound: bool)
    | PatchStatus(companyId: nat, order: nat, status: OrderStatus)
    | EditOrder(companyId: nat, order: nat, dto: EditDto)
    | EraseOrder(companyId: nat, order: nat)
    | Send(dispatch: Dispatch)
    | Arrive(companyId: nat, trip: nat, stop: nat, wait: nat, moreWait: nat)
    | Complete(companyId: nat, trip: nat, stop: nat, wait: nat)
    | Skip(companyId: nat, trip: nat, stop: nat)
    | InviteTo(companyId: nat, acting: nat, member: nat, email: string, role: Role, token: nat)
    | Cancel(companyId: nat, acting: nat, member: nat)
    | Accept(member: nat, token: nat, user: nat)
    | ChangeRole(companyId: nat, acting: nat, member: nat, role: Role)
    | Remove(companyId: nat, acting: nat, member: nat)
    | Suspend(companyId: nat, acting: nat, member: nat)
    | Activate(companyId: nat, acting: nat, member: nat)
    | Wait(duration: nat)

  datatype World = World(db: Db, clock: int)

  function Perform(w: World, cmd: Command): Result<Db> {
    var (db, now) := (w.db, w.clock);
    match cmd
    case OpenCompany(c, m, user, email) => CreateCompany(db, c, m, user, email)
    case ChoosePlan(c, plan) => SetPlan(db, c, plan)
    case PlaceOrder(c, o, details, found) => CreateOrder(db, c, o, details, found)
    case PatchStatus(c, o, status) => UpdateOrderStatus(db, c, o, status)
    case EditOrder(c, o, dto) => UpdateOrder(db, c, o, dto)
    case EraseOrder(c, o) => DeleteOrder(db, c, o)
    case Send(d) => if d.Valid() then DispatchOrders(db, d, now) else Failure(Conflict)
    case Arrive(c, t, s, w1, w2) => ArriveAtStop(db, c, t, s, now, now + w1, now + w1 + w2)
    case Complete(c, t, s, w1) => CompleteStop(db, c, t, s, now, now + w1)
    case Skip(c, t, s) => SkipStop(db, c, t, s, now)
    case InviteTo(c, acting, m, email, role, token) => InviteMember(db, c, acting, m, email, role, token, now)
    case Cancel(c, acting, m) => CancelInvite(db, c, acting, m)
    case Accept(m, token, user) => AcceptInvite(db, m, token, user, now)
    case ChangeRole(c, acting, m, role) => ChangeMemberRole(db, c, acting, m, role)
    case Remove(c, acting, m) => RemoveMember(db, c, acting, m)
    case Suspend(c, acting, m) => SuspendMember(db, c, acting, m)
    case Activate(c, acting, m) => ActivateMember(db, c, acting, m)
    case Wait(_) => Success(db)
  }

  function Duration(cmd: Command): nat {
    match cmd
    case Arrive(_, _, _, w1, w2) => w1 + w2
    case Complete(_, _, _, w1) => w1
    case Wait(duration) => duration
    case _ => 0
  }

  /** A call that throws is rolled back: it leaves the tables as they were, only later. */
  function Next(w: World, cmd: Command): World {
    World(if Perform(w, cmd).Success? then Perform(w, cmd).value else w.db, w.clock + Duration(cmd))
  }

  function Run(w: World, cmds: seq<Command>): World
    decreases |cmds|
  {
    if cmds == [] then w else Run(Next(w, cmds[0]), cmds[1..])
  }

  const START := World(EMPTY, 0)

  ghost predicate OrdersInv(orders: map<nat, Order>) {
    forall o :: o in orders ==> OrderRowOk(orders[o])
  }

  ghost predicate Inv(w: World) {
    && OrdersInv(w.db.orders)
    && StopsInv(w.db.orders, w.db.trips, w.db.stops)
    && TimesInv(w.db.trips, w.db.stops, w.clock)
    && DriversInv(w.db.members, w.db.trips, w.db.stops)
    && CountersInv(w.db.orders, w.db.members, w.db.usages)
    && OwnersInv(w.db.members, w.db.usages)
  }

  // ---- Every step keeps the invariant, call by call ----

  lemma NewCompanyKeepsCounters(orders: map<nat, Order>, members: map<nat, Member>, usages: map<nat, Usage>, c: nat)
    requires CountersInv(orders, members, usages) && c !in usages
    ensures CountersInv(orders, members, usages[c := Usage(0, 0)])
  {
    assert OrdersOf(orders, c) == {};
    assert MembersOf(members, c) == {};
  }

  lemma OpenCompanyKeepsOwners(members: map<nat, Member>, usages: map<nat, Usage>, c: nat, m: nat, row: Member)
    requires OwnersInv(members, usages) && m !in members
    requires forall k :: k in members ==> members[k].companyId != c
    requires row.companyId == c && row.role == Owner && row.status == Active
    ensures OwnersInv(members[m := row], usages[c := Usage(0, 1)])
  {
    var after := members[m := row];
    forall c' | c' == c || c' in usages ensures HasSoleOwner(after, c') {
      if c' == c {
        assert SoleOwner(after, c, m);
      } else {
        assert HasSoleOwner(members, c');
        var k :| SoleOwner(members, c', k);
        assert SoleOwner(after, c', k);
      }
    }
  }

  lemma CompaniesOfMembers(w: World)
    requires Inv(w)
    ensures forall m :: m in w.db.members ==> w.db.members[m].companyId in w.db.usages
  {
  }

  lemma OpenCompanyKeepsInv(w: World, c: nat, m: nat, user: nat, email: string)
    requires Inv(w) && CreateCompany(w.db, c, m, user, email).Success?
    ensures Inv(World(CreateCompany(w.db, c, m, user, email).value, w.clock))
  {
    hide StopsInv, TimesInv, CountersInv, OwnersInv, OrdersInv;
    var row := Member(c, Some(user), email, Owner, Active, None);
    var zeroed := w.db.usages[c := Usage(0, 0)];
    NewCompanyKeepsCounters(w.db.orders, w.db.members, w.db.usages, c);
    CountersInvAddMember(w.db.orders, w.db.members, zeroed, m, row);
    assert Bumped(zeroed, c, 0, 1) == w.db.usages[c := Usage(0, 1)];
    CompaniesOfMembers(w);
    OpenCompanyKeepsOwners(w.db.members, w.db.usages, c, m, row);
    DriversInvSetMember(w.db, m, row);
  }

  lemma PlaceOrderKeepsInv(w: World, c: nat, o: nat, details: Details, found: bool)
    requires Inv(w) && CreateOrder(w.db, c, o, details, found).Success?
    ensures Inv(World(CreateOrder(w.db, c, o, details, found).value, w.clock))
  {
    hide StopsInv, TimesInv, DriversInv, CountersInv, OwnersInv;
    var row := NewOrder(c, details);
    var usages := Bumped(w.db.usages, c, 1, 0);
    NewOrderRowOk(c, details);
    StopsInvSetOrder(w.db.orders, w.db.trips, w.db.stops, o, row);
    CountersInvAddOrder(w.db.orders, w.db.members, w.db.usages, o, row);
    OwnersInvUsages(w.db.members, w.db.usages, usages);
    assert CreateOrder(w.db, c, o, details, found).value.usages == usages;
  }

  /** Replacing one order row, as patches and edits do. */
  lemma SetOrderKeepsInv(w: World, o: nat, row: Order)
    requires Inv(w) && o in w.db.orders && Succeeds(w.db.orders[o], row) && OrderRowOk(row)
    ensures Inv(World(SetOrder(w.db, o, row), w.clock))
  {
    hide StopsInv, TimesInv, DriversInv, CountersInv, OwnersInv;
    StopsInvSetOrder(w.db.orders, w.db.trips, w.db.stops, o, row);
    CountersInvSetOrder(w.db.orders, w.db.members, w.db.usages, o, row);
  }

  lemma PatchStatusKeepsInv(w: World, c: nat, o: nat, status: OrderStatus)
    requires Inv(w) && UpdateOrderStatus(w.db, c, o, status).Success?
    ensures Inv(World(UpdateOrderStatus(w.db, c, o, status).value, w.clock))
  {
    hide StopsInv, TimesInv, DriversInv, CountersInv, OwnersInv;
    WithStatusRowOk(w.db.orders[o], status);
    SetOrderKeepsInv(w, o, WithStatus(w.db.orders[o], status));
  }

  lemma EditOrderKeepsInv(w: World, c: nat, o: nat, dto: EditDto)
    requires Inv(w) && UpdateOrder(w.db, c, o, dto).Success?
    ensures Inv(World(UpdateOrder(w.db, c, o, dto).value, w.clock))
  {
    hide StopsInv, TimesInv, DriversInv, CountersInv, OwnersInv;
    var row := w.db.orders[o];
    EditedRowOk(row, dto);
    SetOrderKeepsInv(w, o, row.(details := Edited(row.details, dto)));
  }

  lemma EraseOrderKeepsInv(w: World, c: nat, o: nat)
    requires Inv(w) && DeleteOrder(w.db, c, o).Success?
    ensures Inv(World(DeleteOrder(w.db, c, o).value, w.clock))
  {
    hide StopsInv, CountersInv, OwnersInv;
    StopsInvDelete(w.db, o);
    CountersInvRemoveOrder(w.db.orders, w.db.members, w.db.usages, o);
    var usages := Bumped(w.db.usages, c, -1, 0);
    OwnersInvUsages(w.db.members, w.db.usages, usages);
    assert DeleteOrder(w.db, c, o).value.usages == usages;
  }

  lemma AssignKeepsRowsOk(orders: map<nat, Order>, d: Dispatch)
    requires OrdersInv(orders)
    ensures forall o :: o in orders && orders[o].status == OrderStatus.Pending ==>
              OrderRowOk(AssignedTo(orders[o], d.driver))
  {
    forall o | o in orders && orders[o].status == OrderStatus.Pending
      ensures OrderRowOk(AssignedTo(orders[o], d.driver))
    {
      WithStatusRowOk(orders[o].(driver := Some(d.driver)), OrderStatus.Assigned);
    }
  }

  lemma SendKeepsInv(w: World, d: Dispatch)
    requires Inv(w) && d.Valid() && DispatchOrders(w.db, d, w.clock).Success?
    ensures Inv(World(DispatchOrders(w.db, d, w.clock).value, w.clock))
  {
    hide StopsInv, TimesInv, DriversInv, CountersInv, OwnersInv, OrderRowOk, DispatchOrders, NewStops;
    DispatchCommitsExactly(w.db, d, w.clock);
    StopsInvDispatch(w.db, d, w.clock);
    TimesInvDispatch(w.db, d, w.clock);
    DriversInvDispatch(w.db, d, w.clock);
    CountersInvDispatch(w.db, d, w.clock);
    AssignKeepsRowsOk(w.db.orders, d);
  }

  /** Moving the order of an open stop along, as arrive, complete and skip begin by doing. */
  lemma AdvanceKeepsInv(w: World, o: nat)
    requires Inv(w) && o in w.db.orders
    ensures Inv(World(SetOrder(w.db, o, AdvancedTo(w.db.orders[o], InTransit)), w.clock))
  {
    hide StopsInv, TimesInv, DriversInv, CountersInv, OwnersInv, AdvancedTo;
    AdvanceIsConnected(w.db.orders[o]);
    SetOrderKeepsInv(w, o, AdvancedTo(w.db.orders[o], InTransit));
  }

  lemma SetStopKeepsTimes(trips: map<nat, Trip>, stops: map<nat, Stop>, clock: int, s: nat, row: Stop)
    requires TimesInv(trips, stops, clock) && row.tripId in trips && StopTimesOk(trips[row.tripId], row, clock)
    ensures TimesInv(trips, stops[s := row], clock)
  {
  }

  lemma SetStopKeepsDrivers(members: map<nat, Member>, trips: map<nat, Trip>, stops: map<nat, Stop>, s: nat, row: Stop)
    requires DriversInv(members, trips, stops) && s in stops
    requires row.tripId == stops[s].tripId && (ActiveStop(row) ==> ActiveStop(stops[s]))
    ensures DriversInv(members, trips, stops[s := row])
  {
  }

  /** Closing in on a stop: its status moves on, its readings follow the clock, its place stays. */
  lemma SetStopKeepsInv(w: World, s: nat, row: Stop)
    requires Inv(w) && s in w.db.stops
    requires row.tripId == w.db.stops[s].tripId && row.orderId == w.db.stops[s].orderId
    requires row.sequence == w.db.stops[s].sequence
    requires row.status != StopStatus.Failed
    requires row.status == Completed ==> row.orderId in w.db.orders && w.db.orders[row.orderId].status == Delivered
    requires ActiveStop(row) ==> ActiveStop(w.db.stops[s])
    requires row.tripId in w.db.trips && StopTimesOk(w.db.trips[row.tripId], row, w.clock)
    ensures Inv(World(SetStop(w.db, s, row), w.clock))
  {
    hide StopsInv, TimesInv, DriversInv, CountersInv, OwnersInv, OrdersInv, StopTimesOk, ActiveStop;
    StopsInvSetStop(w.db.orders, w.db.trips, w.db.stops, s, row);
    SetStopKeepsTimes(w.db.trips, w.db.stops, w.clock, s, row);
    SetStopKeepsDrivers(w.db.members, w.db.trips, w.db.stops, s, row);
  }

  lemma WaitKeepsInv(w: World, duration: nat)
    requires Inv(w)
    ensures Inv(World(w.db, w.clock + duration))
  {
    hide OrdersInv, StopsInv, TimesInv, DriversInv, CountersInv, OwnersInv;
    TimesInvLater(w.db.trips, w.db.stops, w.clock, w.clock + duration);
  }

  lemma StartKeepsDrivers(members: map<nat, Member>, trips: map<nat, Trip>, stops: map<nat, Stop>, t: nat, at: int)
    requires DriversInv(members, trips, stops) && t in trips
    ensures DriversInv(members, trips[t := StartedTrip(trips[t], at)], stops)
  {
    var after := trips[t := StartedTrip(trips[t], at)];
    forall s | s in stops && ActiveStop(stops[s]) ensures DriverPresent(members, after[stops[s].tripId]) {
      assert DriverPresent(members, trips[stops[s].tripId]);
    }
  }

  lemma StartKeepsInv(w: World, t: nat, at: int)
    requires Inv(w) && t in w.db.trips && w.clock <= at
    ensures Inv(World(w.db.(trips := w.db.trips[t := StartedTrip(w.db.trips[t], at)]), at))
  {
    hide StopsInv, TimesInv, DriversInv, CountersInv, OwnersInv, OrdersInv;
    StopsInvStartTrip(w.db.orders, w.db.trips, w.db.stops, t, at);
    TimesInvStartTrip(w.db.trips, w.db.stops, t, w.clock, at);
    StartKeepsDrivers(w.db.members, w.db.trips, w.db.stops, t, at);
  }

  /** What a reachable state says about the readings of one stop. */
  lemma StopTimesAt(w: World, s: nat)
    requires Inv(w) && s in w.db.stops
    ensures w.db.stops[s].tripId in w.db.trips && TripTimesOk(w.db.trips[w.db.stops[s].tripId], w.clock)
    ensures StopTimesOk(w.db.trips[w.db.stops[s].tripId], w.db.stops[s], w.clock)
  {
  }

  lemma ArriveKeepsInv(w: World, c: nat, t: nat, s: nat, w1: nat, w2: nat)
    requires Inv(w) && ArriveAtStop(w.db, c, t, s, w.clock, w.clock + w1, w.clock + w1 + w2).Success?
    ensures Inv(World(ArriveAtStop(w.db, c, t, s, w.clock, w.clock + w1, w.clock + w1 + w2).value, w.clock + w1 + w2))
  {
    hide Inv, AdvancedTo;
    var stop := w.db.stops[s];
    var started := w.clock + w1;
    var moved := SetOrder(w.db, stop.orderId, AdvancedTo(w.db.orders[stop.orderId], InTransit));
    StopTimesAt(w, s);
    AdvanceKeepsInv(w, stop.orderId);
    StartKeepsInv(World(moved, w.clock), t, started);
    var begun := moved.(trips := w.db.trips[t := StartedTrip(w.db.trips[t], started)]);
    WaitKeepsInv(World(begun, started), w2);
    SetStopKeepsInv(World(begun, started + w2), s,
                    stop.(status := Arrived, arrivedAt := Some(started + w2), updatedAt := w.clock));
  }

  lemma CompleteKeepsInv(w: World, c: nat, t: nat, s: nat, w1: nat)
    requires Inv(w) && CompleteStop(w.db, c, t, s, w.clock, w.clock + w1).Success?
    ensures Inv(World(CompleteStop(w.db, c, t, s, w.clock, w.clock + w1).value, w.clock + w1))
  {
    hide Inv, AdvancedTo;
    var stop := w.db.stops[s];
    var moved := SetOrder(w.db, stop.orderId, AdvancedTo(w.db.orders[stop.orderId], InTransit));
    StopTimesAt(w, s);
    AdvanceKeepsInv(w, stop.orderId);
    PatchStatusKeepsInv(World(moved, w.clock), c, stop.orderId, Delivered);
    var delivered := UpdateOrderStatus(moved, c, stop.orderId, Delivered).value;
    WaitKeepsInv(World(delivered, w.clock), w1);
    SetStopKeepsInv(World(delivered, w.clock + w1), s,
                    stop.(status := Completed, completedAt := Some(w.clock + w1), updatedAt := w.clock));
  }

  lemma SkipKeepsInv(w: World, c: nat, t: nat, s: nat)
    requires Inv(w) && SkipStop(w.db, c, t, s, w.clock).Success?
    ensures Inv(World(SkipStop(w.db, c, t, s, w.clock).value, w.clock))
  {
    hide Inv, AdvancedTo;
    var stop := w.db.stops[s];
    var moved := SetOrder(w.db, stop.orderId, AdvancedTo(w.db.orders[stop.orderId], InTransit));
    StopTimesAt(w, s);
    AdvanceKeepsInv(w, stop.orderId);
    PatchStatusKeepsInv(World(moved, w.clock), c, stop.orderId, OrderStatus.Failed);
    var failed := UpdateOrderStatus(moved, c, stop.orderId, OrderStatus.Failed).value;
    SetStopKeepsInv(World(failed, w.clock), s, stop.(status := Skipped, updatedAt := w.clock));
  }

  lemma InviteKeepsInv(w: World, c: nat, acting: nat, m: nat, email: string, role: Role, token: nat)
    requires Inv(w) && InviteMember(w.db, c, acting, m, email, role, token, w.clock).Success?
    ensures Inv(World(InviteMember(w.db, c, acting, m, email, role, token, w.clock).value, w.clock))
  {
    hide StopsInv, TimesInv, CountersInv, OwnersInv, OrdersInv, IsManager, EmailTaken;
    var row := Member(c, None, email, role, Invited, Some(Invite(token, w.clock + INVITE_TOKEN_TTL_MS)));
    var usages := Bumped(w.db.usages, c, 0, 1);
    DriversInvSetMember(w.db, m, row);
    CountersInvAddMember(w.db.orders, w.db.members, w.db.usages, m, row);
    OwnersInvSetMember(w.db.members, w.db.usages, m, row);
    OwnersInvUsages(w.db.members[m := row], w.db.usages, usages);
    assert InviteMember(w.db, c, acting, m, email, role, token, w.clock).value.usages == usages;
  }

  /** Removing a row that is no owner and no busy driver, together with its share of the counter. */
  lemma RemoveRowKeepsInv(w: World, c: nat, m: nat)
    requires Inv(w) && RemoveRow(w.db, c, m).Success?
    requires m in w.db.members && w.db.members[m].companyId == c
    requires w.db.members[m].role != Owner && !BusyDriver(w.db, m)
    ensures Inv(World(RemoveRow(w.db, c, m).value, w.clock))
  {
    hide StopsInv, TimesInv, DriversInv, CountersInv, OwnersInv, OrdersInv, BusyDriver;
    var usages := Bumped(w.db.usages, c, 0, -1);
    DriversInvRemoveMember(w.db, m);
    CountersInvRemoveMember(w.db.orders, w.db.members, w.db.usages, m);
    OwnersInvRemoveMember(w.db.members, w.db.usages, m);
    OwnersInvUsages(w.db.members - {m}, w.db.usages, usages);
    assert RemoveRow(w.db, c, m).value.usages == usages;
  }

  /** An outstanding invite is never the owner's row, and has no user who could be driving. */
  lemma InvitedRowIsIdle(w: World, m: nat)
    requires Inv(w) && m in w.db.members && w.db.members[m].status == Invited
    ensures w.db.members[m].role != Owner && !BusyDriver(w.db, m)
  {
    assert HasSoleOwner(w.db.members, w.db.members[m].companyId);
  }

  /** Rewriting a row that is no owner, keeping its company and its user. */
  lemma SetMemberKeepsInv(w: World, m: nat, row: Member)
    requires Inv(w) && m in w.db.members
    requires w.db.members[m].role != Owner && row.role != Owner
    requires row.companyId == w.db.members[m].companyId
    requires w.db.members[m].userId.Some? ==> row.userId == w.db.members[m].userId
    requires MemberRowsOk(w.db.members[m := row])
    requires BusyDriver(w.db, m) ==> row.role == Driver
    ensures Inv(World(SetMember(w.db, m, row), w.clock))
  {
    hide StopsInv, TimesInv, DriversInv, CountersInv, OwnersInv, OrdersInv, BusyDriver, MemberRowsOk;
    DriversInvSetMember(w.db, m, row);
    CountersInvSetMember(w.db.orders, w.db.members, w.db.usages, m, row);
    OwnersInvSetMember(w.db.members, w.db.usages, m, row);
  }

  lemma AcceptKeepsInv(w: World, m: nat, token: nat, user: nat)
    requires Inv(w) && AcceptInvite(w.db, m, token, user, w.clock).Success?
    ensures Inv(World(AcceptInvite(w.db, m, token, user, w.clock).value, w.clock))
  {
    hide StopsInv, TimesInv, CountersInv, OwnersInv, OrdersInv;
    InvitedRowIsIdle(w, m);
    SetMemberKeepsInv(w, m, w.db.members[m].(userId := Some(user), status := Active, invite := None));
  }

  /** An owner's row is already active, so activating a member never touches it. */
  lemma ActivatedRowIsNoOwner(w: World, m: nat)
    requires Inv(w) && m in w.db.members && w.db.members[m].status != Active
    ensures w.db.members[m].role != Owner
  {
    assert HasSoleOwner(w.db.members, w.db.members[m].companyId);
  }

  lemma CancelKeepsInv(w: World, c: nat, acting: nat, m: nat)
    requires Inv(w) && CancelInvite(w.db, c, acting, m).Success?
    ensures Inv(World(CancelInvite(w.db, c, acting, m).value, w.clock))
  {
    hide Inv, IsManager, RemoveRow, BusyDriver;
    InvitedRowIsIdle(w, m);
    RemoveRowKeepsInv(w, c, m);
  }

  lemma RemoveKeepsInv(w: World, c: nat, acting: nat, m: nat)
    requires Inv(w) && RemoveMember(w.db, c, acting, m).Success?
    ensures Inv(World(RemoveMember(w.db, c, acting, m).value, w.clock))
  {
    hide Inv, IsManager, RemoveRow, BusyDriver;
    RemoveRowKeepsInv(w, c, m);
  }

  lemma ChangeRoleKeepsInv(w: World, c: nat, acting: nat, m: nat, role: Role)
    requires Inv(w) && ChangeMemberRole(w.db, c, acting, m, role).Success?
    ensures Inv(World(ChangeMemberRole(w.db, c, acting, m, role).value, w.clock))
  {
    hide StopsInv, TimesInv, CountersInv, OwnersInv, OrdersInv, IsManager, BusyDriver;
    SetMemberKeepsInv(w, m, w.db.members[m].(role := role));
  }

  lemma SuspendKeepsInv(w: World, c: nat, acting: nat, m: nat)
    requires Inv(w) && SuspendMember(w.db, c, acting, m).Success?
    ensures Inv(World(SuspendMember(w.db, c, acting, m).value, w.clock))
  {
    hide StopsInv, TimesInv, CountersInv, OwnersInv, OrdersInv, IsManager, BusyDriver;
    SetMemberKeepsInv(w, m, w.db.members[m].(status := Suspended));
  }

  lemma ActivateKeepsInv(w: World, c: nat, acting: nat, m: nat)
    requires Inv(w) && ActivateMember(w.db, c, acting, m).Success?
    ensures Inv(World(ActivateMember(w.db, c, acting, m).value, w.clock))
  {
    hide StopsInv, TimesInv, CountersInv, OwnersInv, OrdersInv, IsManager;
    ActivatedRowIsNoOwner(w, m);
    SetMemberKeepsInv(w, m, w.db.members[m].(status := Active));
  }

  lemma StepKeepsInv(w: World, cmd: Command)
    requires Inv(w)
    ensures Inv(Next(w, cmd))
  {
    hide Inv, CreateCompany, SetPlan, CreateOrder, UpdateOrderStatus, UpdateOrder, DeleteOrder, DispatchOrders,
      ArriveAtStop, CompleteStop, SkipStop, InviteMember, CancelInvite, AcceptInvite, ChangeMemberRole, RemoveMember,
      SuspendMember, ActivateMember;
    WaitKeepsInv(w, Duration(cmd));
    if Perform(w, cmd).Success? {
      match cmd
      case OpenCompany(c, m, user, email) => OpenCompanyKeepsInv(w, c, m, user, email);
      case ChoosePlan(c, plan) => ChoosePlanKeepsInv(w, c, plan);
      case PlaceOrder(c, o, details, found) => PlaceOrderKeepsInv(w, c, o, details, found);
      case PatchStatus(c, o, status) => PatchStatusKeepsInv(w, c, o, status);
      case EditOrder(c, o, dto) => EditOrderKeepsInv(w, c, o, dto);
      case EraseOrder(c, o) => EraseOrderKeepsInv(w, c, o);
      case Send(d) => SendKeepsInv(w, d);
      case Arrive(c, t, s, w1, w2) => ArriveKeepsInv(w, c, t, s, w1, w2);
      case Complete(c, t, s, w1) => CompleteKeepsInv(w, c, t, s, w1);
      case Skip(c, t, s) => SkipKeepsInv(w, c, t, s);
      case InviteTo(c, acting, m, email, role, token) => InviteKeepsInv(w, c, acting, m, email, role, token);
      case Accept(m, token, user) => AcceptKeepsInv(w, m, token, user);
      case Cancel(c, acting, m) => CancelKeepsInv(w, c, acting, m);
      case ChangeRole(c, acting, m, role) => ChangeRoleKeepsInv(w, c, acting, m, role);
      case Remove(c, acting, m) => RemoveKeepsInv(w, c, acting, m);
      case Suspend(c, acting, m) => SuspendKeepsInv(w, c, acting, m);
      case Activate(c, acting, m) => ActivateKeepsInv(w, c, acting, m);
      case Wait(_) =>
    }
  }

  lemma ChoosePlanKeepsInv(w: World, c: nat, plan: Plan)
    requires Inv(w) && SetPlan(w.db, c, plan).Success?
    ensures Inv(World(SetPlan(w.db, c, plan).value, w.clock))
  {
  }

  lemma {:induction false} RunKeepsInv(w: World, cmds: seq<Command>)
    requires Inv(w)
    ensures Inv(Run(w, cmds))
    decreases |cmds|
  {
    hide Inv, Next;
    if cmds != [] {
      StepKeepsInv(w, cmds[0]);
      RunKeepsInv(Next(w, cmds[0]), cmds[1..]);
    }
  }
}
