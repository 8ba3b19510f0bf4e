/** The life of one order: statuses, the transition table, editable fields, and the row itself. */
module OrderLifecycle {
  import opened Common

  datatype OrderStatus = Pending | Assigned | PickedUp | InTransit | Delivered | Cancelled | Failed

  function AllowedTransitions(status: OrderStatus): set<OrderStatus> {
    match status
    case Pending => {Assigned, Cancelled}
    case Assigned => {PickedUp, Cancelled}
    case PickedUp => {InTransit, Cancelled}
    case InTransit => {Delivered, Failed}
    case Delivered => {}
    case Cancelled => {}
    case Failed => {Assigned}
  }

  /** The stretch of statuses that dispatch walks an order through. */
  const ORDER_PROGRESSION: seq<OrderStatus> := [Assigned, PickedUp, InTransit]

  datatype EditableField =
    | CustomerName | CustomerPhone | PickupLocation | PickupSavedLocationId | DropoffLocation
    | Items | PriorityField | ScheduledFor | Notes

  const ALL_FIELDS: set<EditableField> :=
    {CustomerName, CustomerPhone, PickupLocation, PickupSavedLocationId, DropoffLocation,
     Items, PriorityField, ScheduledFor, Notes}

  lemma EveryFieldListed(f: EditableField)
    ensures f in ALL_FIELDS
  {
    match f case _ =>
  }

  const LOCKED_AFTER_PICKUP: set<EditableField> := {PickupLocation, PickupSavedLocationId, Items}

  const DELETABLE_ORDER_STATUSES: set<OrderStatus> := {Pending, Cancelled}

  const LOCKED_ORDER_STATUSES: set<OrderStatus> := {Delivered, Cancelled, Failed}

  function EditableFieldsForStatus(status: OrderStatus): set<EditableField> {
    match status
    case Pending => ALL_FIELDS
    case Assigned => ALL_FIELDS
    case PickedUp => ALL_FIELDS - LOCKED_AFTER_PICKUP
    case InTransit => ALL_FIELDS - LOCKED_AFTER_PICKUP
    case _ => {}
  }

  datatype Priority = Low | Normal | High | Urgent
  datatype Location = Location(name: string, address: string, lat: real, lng: real)
  datatype Item = Item(name: string, quantity: int)

  /** What was collected, and where: the facts a pickup makes historical. */
  datatype Pickup = Pickup(location: Location, savedLocationId: Option<nat>, items: seq<Item>)

  datatype Details = Details(
    customerName: string,
    customerPhone: string,
    pickup: Pickup,
    dropoffLocation: Location,
    priority: Priority,
    scheduledFor: Option<int>,
    notes: Option<string>)

  /** A partial edit: `None` is a key the caller left undefined. */
  datatype EditDto = EditDto(
    customerName: Option<string>,
    customerPhone: Option<string>,
    pickupLocation: Option<Location>,
    pickupSavedLocationId: Option<Option<nat>>,
    dropoffLocation: Option<Location>,
    items: Option<seq<Item>>,
    priority: Option<Priority>,
    scheduledFor: Option<Option<int>>,
    notes: Option<Option<string>>)

  predicate Mentions(dto: EditDto, field: EditableField) {
    match field
    case CustomerName => dto.customerName.Some?
    case CustomerPhone => dto.customerPhone.Some?
    case PickupLocation => dto.pickupLocation.Some?
    case PickupSavedLocationId => dto.pickupSavedLocationId.Some?
    case DropoffLocation => dto.dropoffLocation.Some?
    case Items => dto.items.Some?
    case PriorityField => dto.priority.Some?
    case ScheduledFor => dto.scheduledFor.Some?
    case Notes => dto.notes.Some?
  }

  function DisallowedFieldsInDto(dto: EditDto, editable: set<EditableField>): (rejected: set<EditableField>)
    ensures forall f :: f in rejected <==> Mentions(dto, f) && f !in editable
    ensures rejected == {} <==> forall f :: Mentions(dto, f) ==> f in editable
  {
    var rejected := set f | f in ALL_FIELDS && Mentions(dto, f) && f !in editable;
    assert forall f :: Mentions(dto, f) && f !in editable ==> f in rejected by {
      forall f | Mentions(dto, f) && f !in editable ensures f in rejected {
        EveryFieldListed(f);
      }
    }
    rejected
  }

  function GetOr<T>(o: Option<T>, otherwise: T): T {
    if o.Some? then o.value else otherwise
  }

  function Edited(d: Details, dto: EditDto): Details {
    Details(
      GetOr(dto.customerName, d.customerName),
      GetOr(dto.customerPhone, d.customerPhone),
      Pickup(
        GetOr(dto.pickupLocation, d.pickup.location),
        GetOr(dto.pickupSavedLocationId, d.pickup.savedLocationId),
        GetOr(dto.items, d.pickup.items)),
      GetOr(dto.dropoffLocation, d.dropoffLocation),
      GetOr(dto.priority, d.priority),
      GetOr(dto.scheduledFor, d.scheduledFor),
      GetOr(dto.notes, d.notes))
  }

  predicate SameIn(a: Details, b: Details, field: EditableField) {
    match field
    case CustomerName => a.customerName == b.customerName
    case CustomerPhone => a.customerPhone == b.customerPhone
    case PickupLocation => a.pickup.location == b.pickup.location
    case PickupSavedLocationId => a.pickup.savedLocationId == b.pickup.savedLocationId
    case DropoffLocation => a.dropoffLocation == b.dropoffLocation
    case Items => a.pickup.items == b.pickup.items
    case PriorityField => a.priority == b.priority
    case ScheduledFor => a.scheduledFor == b.scheduledFor
    case Notes => a.notes == b.notes
  }

  /** The edit asks for just the value the details have in that field. */
  predicate AsksFor(dto: EditDto, d: Details, field: EditableField) {
    match field
    case CustomerName => dto.customerName == Some(d.customerName)
    case CustomerPhone => dto.customerPhone == Some(d.customerPhone)
    case PickupLocation => dto.pickupLocation == Some(d.pickup.location)
    case PickupSavedLocationId => dto.pickupSavedLocationId == Some(d.pickup.savedLocationId)
    case DropoffLocation => dto.dropoffLocation == Some(d.dropoffLocation)
    case Items => dto.items == Some(d.pickup.items)
    case PriorityField => dto.priority == Some(d.priority)
    case ScheduledFor => dto.scheduledFor == Some(d.scheduledFor)
    case Notes => dto.notes == Some(d.notes)
  }

  /** An accepted edit gives every field it mentions the value it asks for, and keeps every other field, those the
    * status protects among them; nothing else determines the result. */
  lemma EditRespectsStatus(status: OrderStatus, d: Details, dto: EditDto, after: Details)
    requires DisallowedFieldsInDto(dto, EditableFieldsForStatus(status)) == {}
    ensures after == Edited(d, dto) <==>
            forall f: EditableField :: if Mentions(dto, f) then AsksFor(dto, after, f) else SameIn(d, after, f)
    ensures forall f: EditableField :: f !in EditableFieldsForStatus(status) ==> SameIn(d, Edited(d, dto), f)
  {
    if forall f: EditableField :: if Mentions(dto, f) then AsksFor(dto, after, f) else SameIn(d, after, f) {
      forall f: EditableField ensures SameIn(Edited(d, dto), after, f) {
        assert if Mentions(dto, f) then AsksFor(dto, after, f) else SameIn(d, after, f);
      }
      SameEverywhere(Edited(d, dto), after);
    }
  }

  lemma SameEverywhere(a: Details, b: Details)
    requires forall f: EditableField :: SameIn(a, b, f)
    ensures a == b
  {
    assert SameIn(a, b, CustomerName) && SameIn(a, b, CustomerPhone) && SameIn(a, b, PickupLocation);
    assert SameIn(a, b, PickupSavedLocationId) && SameIn(a, b, DropoffLocation) && SameIn(a, b, Items);
    assert SameIn(a, b, PriorityField) && SameIn(a, b, ScheduledFor) && SameIn(a, b, Notes);
  }

  /** One status the row has been saved with, and the pickup facts it held at that save. */
  datatype Mark = Mark(status: OrderStatus, pickup: Pickup)

  /** An orders row. `trail` is a history variable: every status the row was saved with, oldest first. */
  datatype Order = Order(
    companyId: nat,
    status: OrderStatus,
    driver: Option<nat>,
    details: Details,
    trail: seq<Mark>)

  function NewOrder(companyId: nat, details: Details): Order {
    Order(companyId, Pending, None, details, [Mark(Pending, details.pickup)])
  }

  function WithStatus(o: Order, status: OrderStatus): Order {
    o.(status := status, trail := o.trail + [Mark(status, o.details.pickup)])
  }

  /** The row after it has been saved with each status of `path` in turn. */
  function Walk(o: Order, path: seq<OrderStatus>): Order
    decreases |path|
  {
    if path == [] then o else Walk(WithStatus(o, path[0]), path[1..])
  }

  lemma WalkOne(o: Order, path: seq<OrderStatus>)
    requires path != []
    ensures Walk(o, path) == Walk(WithStatus(o, path[0]), path[1..])
    ensures WithStatus(o, path[0]).companyId == o.companyId && WithStatus(o, path[0]).status == path[0]
  {
  }

  function IndexIn(s: seq<OrderStatus>, x: OrderStatus): (i: int)
    ensures -1 <= i < |s|
    ensures i == -1 <==> x !in s
    ensures i >= 0 ==> s[i] == x && x !in s[..i]
  {
    if s == [] then -1
    else if s[0] == x then 0
    else
      var j := IndexIn(s[1..], x);
      if j == -1 then -1 else j + 1
  }

  /** The statuses strictly after `status` up to and including `target`, when both lie on the progression so. */
  function PathTo(status: OrderStatus, target: OrderStatus): seq<OrderStatus> {
    var from := IndexIn(ORDER_PROGRESSION, status);
    var to := IndexIn(ORDER_PROGRESSION, target);
    if from == -1 || to == -1 || from >= to then [] else ORDER_PROGRESSION[from + 1..to + 1]
  }

  function AdvancedTo(o: Order, target: OrderStatus): Order {
    Walk(o, PathTo(o.status, target))
  }

  lemma ProgressionIsAllowed(i: nat)
    requires 0 < i < |ORDER_PROGRESSION|
    ensures ORDER_PROGRESSION[i] in AllowedTransitions(ORDER_PROGRESSION[i - 1])
  {
  }

  predicate UnderWay(status: OrderStatus) {
    status in {Assigned, PickedUp, InTransit}
  }

  // ---- What the trail of a row says ----

  ghost predicate ConnectedTrail(trail: seq<Mark>) {
    && |trail| > 0
    && trail[0].status == Pending
    && forall i :: 0 < i < |trail| ==> trail[i].status in AllowedTransitions(trail[i - 1].status)
  }

  /** The pickup facts at the most recent save with status PickedUp. */
  ghost function LastPickup(trail: seq<Mark>): Option<Pickup> {
    if trail == [] then None
    else if trail[|trail| - 1].status == PickedUp then Some(trail[|trail| - 1].pickup)
    else LastPickup(trail[..|trail| - 1])
  }

  ghost predicate CollectedAlready(status: OrderStatus) {
    status in {PickedUp, InTransit, Delivered, Failed}
  }

  ghost predicate OrderRowOk(o: Order) {
    && ConnectedTrail(o.trail)
    && o.trail[|o.trail| - 1].status == o.status
    && (CollectedAlready(o.status) ==> LastPickup(o.trail) == Some(o.details.pickup))
  }

  ghost function Failures(trail: seq<Mark>): nat {
    if trail == [] then 0
    else Failures(trail[..|trail| - 1]) + if trail[|trail| - 1].status == Failed then 1 else 0
  }

  lemma NewOrderRowOk(companyId: nat, details: Details)
    ensures OrderRowOk(NewOrder(companyId, details))
  {
  }

  lemma WithStatusRowOk(o: Order, status: OrderStatus)
    requires OrderRowOk(o) && status in AllowedTransitions(o.status)
    ensures OrderRowOk(WithStatus(o, status))
  {
    var t := WithStatus(o, status).trail;
    assert t[..|t| - 1] == o.trail;
  }

  lemma EditedRowOk(o: Order, dto: EditDto)
    requires OrderRowOk(o)
    requires o.status !in LOCKED_ORDER_STATUSES
    requires DisallowedFieldsInDto(dto, EditableFieldsForStatus(o.status)) == {}
    ensures OrderRowOk(o.(details := Edited(o.details, dto)))
    ensures o.status in {PickedUp, InTransit} ==> Edited(o.details, dto).pickup == o.details.pickup
  {
    if o.status in {PickedUp, InTransit} {
      assert !Mentions(dto, PickupLocation) && !Mentions(dto, PickupSavedLocationId) && !Mentions(dto, Items);
    }
  }

  lemma PathToInTransit(status: OrderStatus)
    ensures PathTo(status, InTransit)
            == match status case Assigned => [PickedUp, InTransit] case PickedUp => [InTransit] case _ => []
  {
    match status
    case Assigned => assert PathTo(Assigned, InTransit) == [PickedUp, InTransit];
    case PickedUp => assert PathTo(PickedUp, InTransit) == [InTransit];
    case InTransit => assert PathTo(InTransit, InTransit) == [];
    case _ => assert status !in ORDER_PROGRESSION;
  }

  lemma WalkTwo(o: Order, first: OrderStatus, second: OrderStatus)
    ensures Walk(o, [first]) == WithStatus(o, first)
    ensures Walk(o, [first, second]) == WithStatus(WithStatus(o, first), second)
  {
    assert [first, second][1..] == [second] && [second][1..] == [] && [first][1..] == [];
    assert Walk(WithStatus(o, first), [second]) == WithStatus(WithStatus(o, first), second);
  }

  /** Advancing only ever takes edges of the transition table, and lands on InTransit from anywhere under way. */
  lemma AdvanceIsConnected(o: Order)
    requires OrderRowOk(o)
    ensures OrderRowOk(AdvancedTo(o, InTransit))
    ensures AdvancedTo(o, InTransit).status == if UnderWay(o.status) then InTransit else o.status
    ensures AdvancedTo(o, InTransit).(status := o.status, trail := o.trail) == o
    ensures o.trail <= AdvancedTo(o, InTransit).trail
    ensures !UnderWay(o.status) ==> AdvancedTo(o, InTransit) == o
  {
    hide PathTo, IndexIn, ConnectedTrail, LastPickup, OrderRowOk;
    PathToInTransit(o.status);
    match o.status
    case Assigned =>
      WithStatusRowOk(o, PickedUp);
      WithStatusRowOk(WithStatus(o, PickedUp), InTransit);
      WalkTwo(o, PickedUp, InTransit);
    case PickedUp =>
      WithStatusRowOk(o, InTransit);
      WalkTwo(o, InTransit, InTransit);
    case _ =>
  }

  /** How many edges a trail may still have taken since its last failure, by where it stands. */
  ghost function Headway(status: OrderStatus): nat {
    match status
    case Pending => 0
    case Assigned => 1
    case PickedUp => 2
    case InTransit => 3
    case Delivered => 4
    case Cancelled => 4
    case Failed => 0
  }

  lemma {:induction false} HeadwayBound(trail: seq<Mark>)
    requires ConnectedTrail(trail)
    ensures |trail| - 1 <= 4 * Failures(trail) + Headway(trail[|trail| - 1].status)
    decreases |trail|
  {
    if |trail| > 1 {
      var shorter := trail[..|trail| - 1];
      HeadwayBound(shorter);
      assert trail[|trail| - 1].status in AllowedTransitions(shorter[|shorter| - 1].status);
    }
  }

  /** A history of n status changes that enters Failed f times has n <= 4 * (f + 1). */
  lemma HistoryIsShort(o: Order)
    requires OrderRowOk(o)
    ensures |o.trail| - 1 <= 4 * (Failures(o.trail) + 1)
  {
    HeadwayBound(o.trail);
  }
}
