/** What every ledger step keeps. Each invariant names only the tables it reads. */
module LedgerInvariants {
  import opened Common
  import opened OrderLifecycle
  import opened TripStatus
  import opened Ledger

  // ---- Stops and the orders they serve ----

  ghost predicate StopRowOk(orders: map<nat, Order>, trips: map<nat, Trip>, stop: Stop) {
    && stop.tripId in trips
    && stop.orderId in orders
    && orders[stop.orderId].status != OrderStatus.Pending
    && orders[stop.orderId].companyId == trips[stop.tripId].companyId
    && orders[stop.orderId].driver == Some(trips[stop.tripId].driver)
    && stop.status != StopStatus.Failed
    && (stop.status == Completed ==> orders[stop.orderId].status == Delivered)
  }

  ghost predicate OneStopPerOrder(stops: map<nat, Stop>) {
    forall s, s' :: s in stops && s' in stops && s != s' ==> stops[s].orderId != stops[s'].orderId
  }

  ghost predicate DistinctSequences(stops: map<nat, Stop>) {
    forall s, s' :: s in stops && s' in stops && s != s' && stops[s].tripId == stops[s'].tripId ==>
      stops[s].sequence != stops[s'].sequence
  }

  ghost predicate StopsInv(orders: map<nat, Order>, trips: map<nat, Trip>, stops: map<nat, Stop>) {
    && (forall s :: s in stops ==> StopRowOk(orders, trips, stops[s]))
    && OneStopPerOrder(stops)
    && DistinctSequences(stops)
  }

  /** A change of one order row that stops do not notice. */
  ghost predicate Succeeds(before: Order, after: Order) {
    && after.companyId == before.companyId
    && after.driver == before.driver
    && (before.status != OrderStatus.Pending ==> after.status != OrderStatus.Pending)
    && (before.status == Delivered ==> after.status == Delivered)
  }

  lemma StopsInvSetOrder(orders: map<nat, Order>, trips: map<nat, Trip>, stops: map<nat, Stop>, o: nat, row: Order)
    requires StopsInv(orders, trips, stops)
    requires o in orders ==> Succeeds(orders[o], row)
    ensures StopsInv(orders[o := row], trips, stops)
  {
    forall s | s in stops ensures StopRowOk(orders[o := row], trips, stops[s]) {
      assert StopRowOk(orders, trips, stops[s]);
    }
  }

  lemma StopsInvSetStop(orders: map<nat, Order>, trips: map<nat, Trip>, stops: map<nat, Stop>, s: nat, row: Stop)
    requires StopsInv(orders, trips, stops) && s in stops
    requires row.tripId == stops[s].tripId && row.orderId == stops[s].orderId && row.sequence == stops[s].sequence
    requires row.status != StopStatus.Failed
    requires row.status == Completed ==> orders[row.orderId].status == Delivered
    ensures StopsInv(orders, trips, stops[s := row])
  {
    assert StopRowOk(orders, trips, stops[s]);
  }

  lemma StopsInvStartTrip(orders: map<nat, Order>, trips: map<nat, Trip>, stops: map<nat, Stop>, t: nat, at: int)
    requires StopsInv(orders, trips, stops) && t in trips
    ensures StopsInv(orders, trips[t := StartedTrip(trips[t], at)], stops)
  {
    forall s | s in stops ensures StopRowOk(orders, trips[t := StartedTrip(trips[t], at)], stops[s]) {
      assert StopRowOk(orders, trips, stops[s]);
    }
  }

  lemma StopsInvDelete(db: Db, o: nat)
    requires StopsInv(db.orders, db.trips, db.stops)
    ensures StopsInv(WithoutOrder(db, o).orders, db.trips, WithoutOrder(db, o).stops)
  {
    var after := WithoutOrder(db, o);
    forall s | s in after.stops ensures StopRowOk(after.orders, db.trips, after.stops[s]) {
      assert StopRowOk(db.orders, db.trips, db.stops[s]);
    }
  }

  /** The rows a dispatch adds, by position. */
  lemma {:induction false} NewStopsContents(d: Dispatch, n: nat, now: int)
    requires d.Valid() && n <= |d.orderIds| && Distinct(d.stopIds)
    ensures forall k :: 0 <= k < n ==>
              d.stopIds[k] in NewStops(d, n, now) && NewStops(d, n, now)[d.stopIds[k]] == NewStop(d, k, now)
  {
    if n > 0 {
      NewStopsContents(d, n - 1, now);
      forall k | 0 <= k < n
        ensures d.stopIds[k] in NewStops(d, n, now) && NewStops(d, n, now)[d.stopIds[k]] == NewStop(d, k, now)
      {
        assert k < n - 1 ==> d.stopIds[k] != d.stopIds[n - 1];
      }
    }
  }

  /** Every stop after a dispatch is an old one, untouched, or the k-th new one. */
  lemma DispatchedStop(db: Db, d: Dispatch, now: int, s: nat) returns (k: int)
    requires d.Valid() && CanDispatch(db, d)
    requires s in Dispatched(db, d, |d.orderIds|, now).stops
    ensures k == -1 ==> s in db.stops && Dispatched(db, d, |d.orderIds|, now).stops[s] == db.stops[s]
    ensures k != -1 ==> 0 <= k < |d.orderIds| && s == d.stopIds[k] && s !in db.stops
                        && Dispatched(db, d, |d.orderIds|, now).stops[s] == NewStop(d, k, now)
  {
    var n := |d.orderIds|;
    NewStopsKeys(d, n, now);
    NewStopsContents(d, n, now);
    if s in NewStops(d, n, now) {
      assert s in d.stopIds[..n];
      k :| 0 <= k < n && d.stopIds[..n][k] == s;
    } else {
      k := -1;
    }
  }

  /** A committed dispatch numbers its stops 1..n in request order on one new trip, and keeps every other stop. */
  lemma DispatchWritesStops(db: Db, d: Dispatch, now: int)
    requires d.Valid() && CanDispatch(db, d)
    ensures var after := Dispatched(db, d, |d.orderIds|, now);
            && after.trips == db.trips[d.tripId := Trip(d.companyId, d.driver, now, None)]
            && (forall k :: 0 <= k < |d.orderIds| ==>
                  && d.stopIds[k] in after.stops
                  && after.stops[d.stopIds[k]]
                     == Stop(d.tripId, d.orderIds[k], k + 1, StopStatus.Pending, None, None, now))
            && (forall s :: s in after.stops <==> s in db.stops || s in d.stopIds)
            && (forall s :: s in db.stops ==> after.stops[s] == db.stops[s])
  {
    hide AssignedTo, HasDriver;
    assert d.stopIds[..|d.orderIds|] == d.stopIds;
    NewStopsKeys(d, |d.orderIds|, now);
    NewStopsContents(d, |d.orderIds|, now);
  }

  /** It assigns exactly the requested orders to the driver, and writes nothing else. */
  lemma DispatchWritesOrders(db: Db, d: Dispatch, now: int)
    requires d.Valid() && CanDispatch(db, d)
    ensures var after := Dispatched(db, d, |d.orderIds|, now);
            && after.orders.Keys == db.orders.Keys
            && (forall o :: o in d.orderIds ==>
                  && o in db.orders
                  && after.orders[o].status == OrderStatus.Assigned
                  && after.orders[o].driver == Some(d.driver)
                  && after.orders[o].companyId == db.orders[o].companyId
                  && after.orders[o].details == db.orders[o].details)
            && (forall o :: o in db.orders && o !in d.orderIds ==> after.orders[o] == db.orders[o])
            && after.members == db.members && after.usages == db.usages && after.plans == db.plans
  {
    hide HasDriver, NewStops;
    assert d.orderIds[..|d.orderIds|] == d.orderIds;
    forall o | o in d.orderIds ensures o in db.orders {
      var k :| 0 <= k < |d.orderIds| && d.orderIds[k] == o;
    }
  }

  /** Dispatch asks for the role only: suspending a driver never makes a dispatch fail. */
  lemma SuspensionDoesNotStopDispatch(db: Db, d: Dispatch, m: nat)
    requires d.Valid() && m in db.members
    ensures CanDispatch(SetMember(db, m, db.members[m].(status := Suspended)), d) <==> CanDispatch(db, d)
  {
    var after := SetMember(db, m, db.members[m].(status := Suspended));
    assert forall k :: k in db.members ==>
        (IsDriver(db.members[k], d.companyId, d.driver) <==> IsDriver(after.members[k], d.companyId, d.driver));
    assert HasDriver(db, d.companyId, d.driver) <==> HasDriver(after, d.companyId, d.driver);
  }

  lemma StopsInvDispatch(db: Db, d: Dispatch, now: int)
    requires d.Valid() && CanDispatch(db, d) && StopsInv(db.orders, db.trips, db.stops)
    ensures var after := Dispatched(db, d, |d.orderIds|, now); StopsInv(after.orders, after.trips, after.stops)
  {
    var after := Dispatched(db, d, |d.orderIds|, now);
    forall s | s in after.stops ensures StopRowOk(after.orders, after.trips, after.stops[s]) {
      var k := DispatchedStop(db, d, now, s);
      if k == -1 {
        assert StopRowOk(db.orders, db.trips, db.stops[s]);
      } else {
        assert d.orderIds[k] in d.orderIds[..|d.orderIds|];
      }
    }
    forall s, s' | s in after.stops && s' in after.stops && s != s'
      ensures after.stops[s].orderId != after.stops[s'].orderId
      ensures after.stops[s].tripId == after.stops[s'].tripId ==> after.stops[s].sequence != after.stops[s'].sequence
    {
      var k := DispatchedStop(db, d, now, s);
      var k' := DispatchedStop(db, d, now, s');
      assert k == -1 ==> StopRowOk(db.orders, db.trips, db.stops[s]);
      assert k' == -1 ==> StopRowOk(db.orders, db.trips, db.stops[s']);
    }
  }

  // ---- Clock readings on trips and stops ----

  ghost predicate TripTimesOk(trip: Trip, clock: int) {
    && trip.createdAt <= clock
    && (trip.startedAt.Some? ==> trip.createdAt <= trip.startedAt.value <= clock)
  }

  ghost predicate StopTimesOk(trip: Trip, stop: Stop, clock: int) {
    && trip.createdAt <= stop.updatedAt <= clock
    && (stop.status == StopStatus.Pending ==> stop.arrivedAt.None?)
    && (stop.status in {Arrived, Completed} ==> stop.arrivedAt.Some?)
    && (stop.arrivedAt.Some? ==> trip.startedAt.Some? && trip.startedAt.value <= stop.arrivedAt.value <= clock)
    && (stop.status == Completed <==> stop.completedAt.Some?)
    && (stop.completedAt.Some? ==> stop.arrivedAt.Some? && stop.arrivedAt.value <= stop.completedAt.value <= clock)
    && (stop.status == Skipped && stop.arrivedAt.Some? ==> stop.arrivedAt.value <= stop.updatedAt)
  }

  ghost predicate TimesInv(trips: map<nat, Trip>, stops: map<nat, Stop>, clock: int) {
    && (forall t :: t in trips ==> TripTimesOk(trips[t], clock))
    && (forall s :: s in stops ==> stops[s].tripId in trips && StopTimesOk(trips[stops[s].tripId], stops[s], clock))
  }

  lemma TimesInvLater(trips: map<nat, Trip>, stops: map<nat, Stop>, clock: int, later: int)
    requires TimesInv(trips, stops, clock) && clock <= later
    ensures TimesInv(trips, stops, later)
  {
  }

  lemma TimesInvStartTrip(trips: map<nat, Trip>, stops: map<nat, Stop>, t: nat, clock: int, at: int)
    requires TimesInv(trips, stops, clock) && t in trips && clock <= at
    ensures TimesInv(trips[t := StartedTrip(trips[t], at)], stops, at)
  {
    var after := trips[t := StartedTrip(trips[t], at)];
    forall s | s in stops ensures stops[s].tripId in after && StopTimesOk(after[stops[s].tripId], stops[s], at) {
      assert StopTimesOk(trips[stops[s].tripId], stops[s], clock);
    }
  }

  lemma TimesInvDispatch(db: Db, d: Dispatch, now: int)
    requires d.Valid() && CanDispatch(db, d) && TimesInv(db.trips, db.stops, now)
    ensures var after := Dispatched(db, d, |d.orderIds|, now); TimesInv(after.trips, after.stops, now)
  {
    var after := Dispatched(db, d, |d.orderIds|, now);
    forall s | s in after.stops
      ensures after.stops[s].tripId in after.trips
              && StopTimesOk(after.trips[after.stops[s].tripId], after.stops[s], now)
    {
      var k := DispatchedStop(db, d, now, s);
      if k == -1 {
        assert StopTimesOk(db.trips[db.stops[s].tripId], db.stops[s], now);
      }
    }
  }

  // ---- Drivers stay members ----

  ghost predicate MemberRowsOk(members: map<nat, Member>) {
    && (forall m :: m in members && members[m].status == Invited ==> members[m].userId.None?)
    && (forall m, m' :: m in members && m' in members && m != m' && members[m].userId.Some? ==>
          members[m].userId != members[m'].userId)
  }

  ghost predicate DriverPresent(members: map<nat, Member>, trip: Trip) {
    exists m :: m in members && IsDriver(members[m], trip.companyId, trip.driver)
  }

  ghost predicate DriversInv(members: map<nat, Member>, trips: map<nat, Trip>, stops: map<nat, Stop>) {
    && MemberRowsOk(members)
    && (forall s :: s in stops && ActiveStop(stops[s]) ==>
          stops[s].tripId in trips && DriverPresent(members, trips[stops[s].tripId]))
  }

  /** Rewriting one member row keeps every busy driver in place, provided that row stays a driver if it is busy. */
  lemma DriversInvSetMember(db: Db, m: nat, row: Member)
    requires DriversInv(db.members, db.trips, db.stops)
    requires MemberRowsOk(db.members[m := row])
    requires m in db.members ==> row.companyId == db.members[m].companyId
    requires m in db.members && db.members[m].userId.Some? ==> row.userId == db.members[m].userId
    requires m in db.members && BusyDriver(db, m) ==> row.role == Driver
    ensures DriversInv(db.members[m := row], db.trips, db.stops)
  {
    var after := db.members[m := row];
    forall s | s in db.stops && ActiveStop(db.stops[s]) ensures DriverPresent(after, db.trips[db.stops[s].tripId]) {
      var trip := db.trips[db.stops[s].tripId];
      assert DriverPresent(db.members, trip);
      var k :| k in db.members && IsDriver(db.members[k], trip.companyId, trip.driver);
      assert k == m ==> IsStopOf(db, db.stops[s], trip.companyId, trip.driver);
      assert IsDriver(after[k], trip.companyId, trip.driver);
    }
  }

  lemma DriversInvRemoveMember(db: Db, m: nat)
    requires DriversInv(db.members, db.trips, db.stops)
    requires m in db.members && !BusyDriver(db, m)
    ensures DriversInv(db.members - {m}, db.trips, db.stops)
  {
    forall s | s in db.stops && ActiveStop(db.stops[s])
      ensures DriverPresent(db.members - {m}, db.trips[db.stops[s].tripId])
    {
      var trip := db.trips[db.stops[s].tripId];
      assert DriverPresent(db.members, trip);
      var k :| k in db.members && IsDriver(db.members[k], trip.companyId, trip.driver);
      assert k == m ==> IsStopOf(db, db.stops[s], trip.companyId, trip.driver);
      assert k in db.members - {m} && IsDriver((db.members - {m})[k], trip.companyId, trip.driver);
    }
  }

  lemma DriversInvDispatch(db: Db, d: Dispatch, now: int)
    requires d.Valid() && CanDispatch(db, d) && DriversInv(db.members, db.trips, db.stops)
    ensures var after := Dispatched(db, d, |d.orderIds|, now); DriversInv(db.members, after.trips, after.stops)
  {
    var after := Dispatched(db, d, |d.orderIds|, now);
    forall s | s in after.stops && ActiveStop(after.stops[s])
      ensures after.stops[s].tripId in after.trips
              && DriverPresent(db.members, after.trips[after.stops[s].tripId])
    {
      var k := DispatchedStop(db, d, now, s);
    }
  }

  // ---- Counters, owners, companies ----

  ghost function OrdersOf(orders: map<nat, Order>, c: nat): set<nat> {
    set o | o in orders && orders[o].companyId == c
  }

  ghost function MembersOf(members: map<nat, Member>, c: nat): set<nat> {
    set m | m in members && members[m].companyId == c
  }

  ghost predicate CountersInv(orders: map<nat, Order>, members: map<nat, Member>, usages: map<nat, Usage>) {
    && (forall o :: o in orders ==> orders[o].companyId in usages)
    && (forall m :: m in members ==> members[m].companyId in usages)
    && (forall c :: c in usages ==> usages[c].ordersThisPeriod == |OrdersOf(orders, c)|)
    && (forall c :: c in usages ==> usages[c].teamMembersCount == |MembersOf(members, c)|)
  }

  ghost predicate SoleOwner(members: map<nat, Member>, c: nat, m: nat) {
    && m in members && members[m].companyId == c && members[m].role == Owner && members[m].status == Active
    && forall m' :: m' in members && members[m'].companyId == c && members[m'].role == Owner ==> m' == m
  }

  ghost predicate HasSoleOwner(members: map<nat, Member>, c: nat) {
    exists m :: SoleOwner(members, c, m)
  }

  ghost predicate OwnersInv(members: map<nat, Member>, usages: map<nat, Usage>) {
    forall c :: c in usages ==> HasSoleOwner(members, c)
  }

  lemma OrdersOfSet(orders: map<nat, Order>, o: nat, row: Order, c: nat)
    requires o in orders ==> row.companyId == orders[o].companyId
    ensures OrdersOf(orders[o := row], c) == OrdersOf(orders, c) + if row.companyId == c then {o} else {}
  {
  }

  lemma OrdersOfRemove(orders: map<nat, Order>, o: nat, c: nat)
    requires o in orders
    ensures |OrdersOf(orders - {o}, c)| == |OrdersOf(orders, c)| - if orders[o].companyId == c then 1 else 0
  {
    assert OrdersOf(orders - {o}, c) == OrdersOf(orders, c) - {o};
    assert o in OrdersOf(orders, c) <==> orders[o].companyId == c;
  }

  lemma MembersOfSet(members: map<nat, Member>, m: nat, row: Member, c: nat)
    requires m in members ==> row.companyId == members[m].companyId
    ensures MembersOf(members[m := row], c) == MembersOf(members, c) + if row.companyId == c then {m} else {}
  {
  }

  lemma MembersOfRemove(members: map<nat, Member>, m: nat, c: nat)
    requires m in members
    ensures |MembersOf(members - {m}, c)| == |MembersOf(members, c)| - if members[m].companyId == c then 1 else 0
  {
    assert MembersOf(members - {m}, c) == MembersOf(members, c) - {m};
    assert m in MembersOf(members, c) <==> members[m].companyId == c;
  }

  lemma CountersInvSetOrder(
    orders: map<nat, Order>, members: map<nat, Member>, usages: map<nat, Usage>,
    o: nat, row: Order)
    requires CountersInv(orders, members, usages)
    requires o in orders && row.companyId == orders[o].companyId
    ensures CountersInv(orders[o := row], members, usages)
  {
    forall c | c in usages ensures OrdersOf(orders[o := row], c) == OrdersOf(orders, c) {
      OrdersOfSet(orders, o, row, c);
    }
  }

  lemma CountersInvSetMember(
    orders: map<nat, Order>, members: map<nat, Member>, usages: map<nat, Usage>,
    m: nat, row: Member)
    requires CountersInv(orders, members, usages)
    requires m in members && row.companyId == members[m].companyId
    ensures CountersInv(orders, members[m := row], usages)
  {
    forall c | c in usages ensures MembersOf(members[m := row], c) == MembersOf(members, c) {
      MembersOfSet(members, m, row, c);
    }
  }

  function Bumped(usages: map<nat, Usage>, c: nat, orders: int, members: int): map<nat, Usage>
    requires c in usages
  {
    usages[c := Usage(usages[c].ordersThisPeriod + orders, usages[c].teamMembersCount + members)]
  }

  lemma CountersInvAddOrder(
    orders: map<nat, Order>, members: map<nat, Member>, usages: map<nat, Usage>,
    o: nat, row: Order)
    requires CountersInv(orders, members, usages)
    requires o !in orders && row.companyId in usages
    ensures CountersInv(orders[o := row], members, Bumped(usages, row.companyId, 1, 0))
  {
    forall c | c in usages
      ensures |OrdersOf(orders[o := row], c)| == |OrdersOf(orders, c)| + if row.companyId == c then 1 else 0
    {
      OrdersOfSet(orders, o, row, c);
    }
  }

  lemma CountersInvRemoveOrder(orders: map<nat, Order>, members: map<nat, Member>, usages: map<nat, Usage>, o: nat)
    requires CountersInv(orders, members, usages) && o in orders
    ensures CountersInv(orders - {o}, members, Bumped(usages, orders[o].companyId, -1, 0))
    ensures usages[orders[o].companyId].ordersThisPeriod > 0
  {
    forall c | c in usages
      ensures |OrdersOf(orders - {o}, c)| == |OrdersOf(orders, c)| - if orders[o].companyId == c then 1 else 0
    {
      OrdersOfRemove(orders, o, c);
    }
    OrdersOfRemove(orders, o, orders[o].companyId);
  }

  lemma CountersInvAddMember(
    orders: map<nat, Order>, members: map<nat, Member>, usages: map<nat, Usage>,
    m: nat, row: Member)
    requires CountersInv(orders, members, usages)
    requires m !in members && row.companyId in usages
    ensures CountersInv(orders, members[m := row], Bumped(usages, row.companyId, 0, 1))
  {
    forall c | c in usages
      ensures |MembersOf(members[m := row], c)| == |MembersOf(members, c)| + if row.companyId == c then 1 else 0
    {
      MembersOfSet(members, m, row, c);
    }
  }

  lemma CountersInvRemoveMember(orders: map<nat, Order>, members: map<nat, Member>, usages: map<nat, Usage>, m: nat)
    requires CountersInv(orders, members, usages) && m in members
    ensures CountersInv(orders, members - {m}, Bumped(usages, members[m].companyId, 0, -1))
    ensures usages[members[m].companyId].teamMembersCount > 0
  {
    forall c | c in usages
      ensures |MembersOf(members - {m}, c)| == |MembersOf(members, c)| - if members[m].companyId == c then 1 else 0
    {
      MembersOfRemove(members, m, c);
    }
    MembersOfRemove(members, m, members[m].companyId);
  }

  lemma CountersInvDispatch(db: Db, d: Dispatch, now: int)
    requires d.Valid() && CanDispatch(db, d) && CountersInv(db.orders, db.members, db.usages)
    ensures CountersInv(Dispatched(db, d, |d.orderIds|, now).orders, db.members, db.usages)
  {
    var after := Dispatched(db, d, |d.orderIds|, now);
    forall c | c in db.usages ensures OrdersOf(after.orders, c) == OrdersOf(db.orders, c) {
    }
  }

  lemma OwnersInvUsages(members: map<nat, Member>, usages: map<nat, Usage>, counted: map<nat, Usage>)
    requires OwnersInv(members, usages) && counted.Keys == usages.Keys
    ensures OwnersInv(members, counted)
  {
  }

  /** Rewriting or adding a row that is not, and does not become, an owner. */
  lemma OwnersInvSetMember(members: map<nat, Member>, usages: map<nat, Usage>, m: nat, row: Member)
    requires OwnersInv(members, usages)
    requires row.role != Owner
    requires m in members ==> members[m].role != Owner
    ensures OwnersInv(members[m := row], usages)
  {
    forall c | c in usages ensures HasSoleOwner(members[m := row], c) {
      assert HasSoleOwner(members, c);
      var k :| SoleOwner(members, c, k);
      assert SoleOwner(members[m := row], c, k);
    }
  }

  lemma OwnersInvRemoveMember(members: map<nat, Member>, usages: map<nat, Usage>, m: nat)
    requires OwnersInv(members, usages)
    requires m in members && members[m].role != Owner
    ensures OwnersInv(members - {m}, usages)
  {
    forall c | c in usages ensures HasSoleOwner(members - {m}, c) {
      assert HasSoleOwner(members, c);
      var k :| SoleOwner(members, c, k);
      assert SoleOwner(members - {m}, c, k);
    }
  }
}
