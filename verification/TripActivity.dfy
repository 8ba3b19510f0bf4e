/** The activity timeline of a trip, derived from the facts on its rows and ordered by a stable sort. */
module TripActivity {
  import opened Common
  import opened TripStatus

  datatype Kind = TripCreated | TripStarted | ArrivedAt | DeliveredAt | SkippedAt

  /** One line of the timeline; `subject` is the trip's or the stop's id. */
  datatype Entry = Entry(kind: Kind, subject: nat, timestamp: int)

  datatype StopFacts = StopFacts(
    id: nat,
    status: StopStatus,
    arrivedAt: Option<int>,
    completedAt: Option<int>,
    updatedAt: int)

  datatype TripFacts = TripFacts(id: nat, createdAt: int, startedAt: Option<int>, stops: seq<StopFacts>)

  function TripEntries(trip: TripFacts): seq<Entry> {
    [Entry(TripCreated, trip.id, trip.createdAt)]
    + if trip.startedAt.Some? then [Entry(TripStarted, trip.id, trip.startedAt.value)] else []
  }

  /** A skip has no timestamp of its own; the row's last update stands in for it. */
  function StopEntries(stop: StopFacts): seq<Entry> {
    (if stop.arrivedAt.Some? then [Entry(ArrivedAt, stop.id, stop.arrivedAt.value)] else [])
    + (if stop.status == Completed && stop.completedAt.Some?
       then [Entry(DeliveredAt, stop.id, stop.completedAt.value)] else [])
    + if stop.status == Skipped then [Entry(SkippedAt, stop.id, stop.updatedAt)] else []
  }

  function AllStopEntries(stops: seq<StopFacts>): seq<Entry> {
    if stops == [] then [] else AllStopEntries(stops[..|stops| - 1]) + StopEntries(stops[|stops| - 1])
  }

  function Facts(trip: TripFacts): seq<Entry> {
    TripEntries(trip) + AllStopEntries(trip.stops)
  }

  /** What an entry may say of a stop: its arrival, its delivery with the time of completion, or its skip with the
    * time of the row's last update, whether or not the driver had arrived. */
  predicate SaysOf(stop: StopFacts, e: Entry) {
    || (stop.arrivedAt.Some? && e == Entry(ArrivedAt, stop.id, stop.arrivedAt.value))
    || (stop.status == Completed && stop.completedAt.Some? && e == Entry(DeliveredAt, stop.id, stop.completedAt.value))
    || (stop.status == Skipped && e == Entry(SkippedAt, stop.id, stop.updatedAt))
  }

  lemma StopEntriesExactly(stop: StopFacts, e: Entry)
    ensures e in StopEntries(stop) <==> SaysOf(stop, e)
  {
  }

  /** One of the stops has that to say. */
  ghost predicate Said(stops: seq<StopFacts>, e: Entry) {
    exists k :: 0 <= k < |stops| && SaysOf(stops[k], e)
  }

  lemma SaidWithLast(stops: seq<StopFacts>, e: Entry)
    requires stops != []
    ensures Said(stops, e) <==> Said(stops[..|stops| - 1], e) || SaysOf(stops[|stops| - 1], e)
  {
    hide SaysOf;
    var front := stops[..|stops| - 1];
    if Said(front, e) {
      var k :| 0 <= k < |front| && SaysOf(front[k], e);
      assert SaysOf(stops[k], e);
    }
    if k :| 0 <= k < |stops| && SaysOf(stops[k], e) {
      assert k < |front| ==> SaysOf(front[k], e);
    }
  }

  lemma {:induction false} StopFactsExactly(stops: seq<StopFacts>, e: Entry)
    ensures e in AllStopEntries(stops) <==> Said(stops, e)
    decreases |stops|
  {
    if stops != [] {
      hide Said, SaysOf, StopEntries;
      StopFactsExactly(stops[..|stops| - 1], e);
      SaidWithLast(stops, e);
      StopEntriesExactly(stops[|stops| - 1], e);
    }
  }

  /** The entries are the trip's creation, its start if it has one, and what there is to say of each stop. */
  lemma FactsExactly(trip: TripFacts, e: Entry)
    ensures e in Facts(trip) <==>
            || e == Entry(TripCreated, trip.id, trip.createdAt)
            || (trip.startedAt.Some? && e == Entry(TripStarted, trip.id, trip.startedAt.value))
            || exists k :: 0 <= k < |trip.stops| && SaysOf(trip.stops[k], e)
  {
    hide SaysOf, StopEntries;
    StopFactsExactly(trip.stops, e);
  }

  // ---- The stable sort of the standard library ----

  predicate Sorted(s: seq<Entry>) {
    forall i, j :: 0 <= i < j < |s| ==> s[i].timestamp <= s[j].timestamp
  }

  /** Where a new entry goes: behind everything that is not later than it. */
  function Place(s: seq<Entry>, e: Entry): (k: nat)
    ensures k <= |s|
    ensures forall i :: k <= i < |s| ==> e.timestamp < s[i].timestamp
    ensures k > 0 ==> s[k - 1].timestamp <= e.timestamp
  {
    if s == [] || s[|s| - 1].timestamp <= e.timestamp then |s| else Place(s[..|s| - 1], e)
  }

  function Inserted(s: seq<Entry>, e: Entry): seq<Entry> {
    s[..Place(s, e)] + [e] + s[Place(s, e)..]
  }

  function StableSort(s: seq<Entry>): seq<Entry> {
    if s == [] then [] else Inserted(StableSort(s[..|s| - 1]), s[|s| - 1])
  }

  lemma InsertedContents(s: seq<Entry>, e: Entry)
    ensures multiset(Inserted(s, e)) == multiset(s) + multiset{e}
  {
    assert s == s[..Place(s, e)] + s[Place(s, e)..];
  }

  lemma InsertedSorted(s: seq<Entry>, e: Entry)
    requires Sorted(s)
    ensures Sorted(Inserted(s, e))
  {
    var (k, r) := (Place(s, e), Inserted(s, e));
    forall i, j | 0 <= i < j < |r| ensures r[i].timestamp <= r[j].timestamp {
      assert i < k ==> s[i].timestamp <= s[k - 1].timestamp;
    }
  }

  lemma {:induction false} SortIsSortedPermutation(s: seq<Entry>)
    ensures Sorted(StableSort(s)) && multiset(StableSort(s)) == multiset(s)
    decreases |s|
  {
    if s != [] {
      var (shorter, e) := (s[..|s| - 1], s[|s| - 1]);
      SortIsSortedPermutation(shorter);
      InsertedSorted(StableSort(shorter), e);
      InsertedContents(StableSort(shorter), e);
      assert s == shorter + [e];
    }
  }

  /** `a` stands somewhere before `b`. */
  ghost predicate Before(s: seq<Entry>, a: Entry, b: Entry) {
    exists i, j :: 0 <= i < j < |s| && s[i] == a && s[j] == b
  }

  lemma BeforeInConcat(x: seq<Entry>, y: seq<Entry>, a: Entry, b: Entry)
    requires Before(x, a, b) || Before(y, a, b) || (a in x && b in y)
    ensures Before(x + y, a, b)
  {
    var s := x + y;
    if Before(x, a, b) {
      var i, j :| 0 <= i < j < |x| && x[i] == a && x[j] == b;
      assert s[i] == a && s[j] == b;
    } else if Before(y, a, b) {
      var i, j :| 0 <= i < j < |y| && y[i] == a && y[j] == b;
      assert s[|x| + i] == a && s[|x| + j] == b;
    } else {
      var i :| 0 <= i < |x| && x[i] == a;
      var j :| 0 <= j < |y| && y[j] == b;
      assert s[i] == a && s[|x| + j] == b;
    }
  }

  lemma InsertKeepsBefore(s: seq<Entry>, e: Entry, a: Entry, b: Entry)
    requires Before(s, a, b)
    ensures Before(Inserted(s, e), a, b)
  {
    var i, j :| 0 <= i < j < |s| && s[i] == a && s[j] == b;
    var (k, r) := (Place(s, e), Inserted(s, e));
    assert r[if i < k then i else i + 1] == a && r[if j < k then j else j + 1] == b;
  }

  lemma InsertGoesBehind(s: seq<Entry>, e: Entry, a: Entry)
    requires a in s && a.timestamp <= e.timestamp
    ensures Before(Inserted(s, e), a, e)
  {
    var p :| 0 <= p < |s| && s[p] == a;
    var (k, r) := (Place(s, e), Inserted(s, e));
    assert p < k && r[p] == a && r[k] == e;
  }

  /** Entries that are already in time order keep their order, ties included. */
  lemma {:induction false} SortKeepsOrder(s: seq<Entry>, a: Entry, b: Entry)
    requires Before(s, a, b) && a.timestamp <= b.timestamp
    ensures Before(StableSort(s), a, b)
    decreases |s|
  {
    hide Inserted;
    var i, j :| 0 <= i < j < |s| && s[i] == a && s[j] == b;
    var (shorter, e) := (s[..|s| - 1], s[|s| - 1]);
    if j < |s| - 1 {
      assert shorter[i] == a && shorter[j] == b;
      SortKeepsOrder(shorter, a, b);
      InsertKeepsBefore(StableSort(shorter), e, a, b);
    } else {
      SortIsSortedPermutation(shorter);
      assert shorter[i] == a;
      assert a in multiset(shorter);
      InsertGoesBehind(StableSort(shorter), e, a);
    }
  }

  // ---- Deriving the timeline ----

  method PushStop(events: seq<Entry>, stop: StopFacts) returns (pushed: seq<Entry>)
    ensures pushed == events + StopEntries(stop)
  {
    pushed := events;
    if stop.arrivedAt.Some? {
      pushed := pushed + [Entry(ArrivedAt, stop.id, stop.arrivedAt.value)];
    }
    if stop.status == Completed && stop.completedAt.Some? {
      pushed := pushed + [Entry(DeliveredAt, stop.id, stop.completedAt.value)];
    }
    if stop.status == Skipped {
      pushed := pushed + [Entry(SkippedAt, stop.id, stop.updatedAt)];
    }
  }

  /** Pushes one entry per fact, stop by stop, then sorts the list by timestamp. */
  method DeriveTripActivity(trip: TripFacts) returns (events: seq<Entry>)
    ensures events == StableSort(Facts(trip))
    ensures Sorted(events) && multiset(events) == multiset(Facts(trip))
  {
    hide StopEntries;
    events := [Entry(TripCreated, trip.id, trip.createdAt)];
    if trip.startedAt.Some? {
      events := events + [Entry(TripStarted, trip.id, trip.startedAt.value)];
    }
    for i := 0 to |trip.stops|
      invariant events == TripEntries(trip) + AllStopEntries(trip.stops[..i])
    {
      assert trip.stops[..i + 1][..i] == trip.stops[..i];
      events := PushStop(events, trip.stops[i]);
    }
    assert trip.stops[..|trip.stops|] == trip.stops;
    events := StableSort(events);
    SortIsSortedPermutation(Facts(trip));
  }

  /** The readings a trip's rows can hold: each fact is dated after the facts that led to it. */
  ghost predicate Causal(trip: TripFacts) {
    && (trip.startedAt.Some? ==> trip.createdAt <= trip.startedAt.value)
    && (forall k :: 0 <= k < |trip.stops| ==> CausalStop(trip, trip.stops[k]))
  }

  ghost predicate CausalStop(trip: TripFacts, stop: StopFacts) {
    && trip.createdAt <= stop.updatedAt
    && (stop.arrivedAt.Some? ==> trip.startedAt.Some? && trip.startedAt.value <= stop.arrivedAt.value)
    && (stop.status == Completed && stop.completedAt.Some? ==>
          stop.arrivedAt.Some? && stop.arrivedAt.value <= stop.completedAt.value)
    && (stop.status == Skipped && stop.arrivedAt.Some? ==> stop.arrivedAt.value <= stop.updatedAt)
  }

  lemma {:induction false} EntryOfStop(stops: seq<StopFacts>, e: Entry) returns (k: nat)
    requires e in AllStopEntries(stops)
    ensures k < |stops| && e in StopEntries(stops[k])
    decreases |stops|
  {
    var front := stops[..|stops| - 1];
    if e in StopEntries(stops[|stops| - 1]) {
      k := |stops| - 1;
    } else {
      k := EntryOfStop(front, e);
    }
  }

  lemma {:induction false} StopEntriesInOrder(stops: seq<StopFacts>, k: nat, a: Entry, b: Entry)
    requires k < |stops| && Before(StopEntries(stops[k]), a, b)
    ensures Before(AllStopEntries(stops), a, b)
    decreases |stops|
  {
    var front := stops[..|stops| - 1];
    if k < |front| {
      StopEntriesInOrder(front, k, a, b);
    }
    BeforeInConcat(AllStopEntries(front), StopEntries(stops[|stops| - 1]), a, b);
  }

  /** The timeline opens with the trip's creation. */
  lemma CreatedFirst(trip: TripFacts, e: Entry)
    requires Causal(trip) && e in Facts(trip) && e.kind != TripCreated
    ensures Before(StableSort(Facts(trip)), Entry(TripCreated, trip.id, trip.createdAt), e)
  {
    var created := Entry(TripCreated, trip.id, trip.createdAt);
    if e in TripEntries(trip) {
      assert Before(TripEntries(trip), created, e) by {
        assert TripEntries(trip)[0] == created && TripEntries(trip)[1] == e;
      }
    } else {
      var k := EntryOfStop(trip.stops, e);
      assert CausalStop(trip, trip.stops[k]);
      assert created in TripEntries(trip) by { assert TripEntries(trip)[0] == created; }
    }
    BeforeInConcat(TripEntries(trip), AllStopEntries(trip.stops), created, e);
    SortKeepsOrder(Facts(trip), created, e);
  }

  /** Every arrival comes after the driver's start, and there is one. */
  lemma StartedBeforeArrivals(trip: TripFacts, e: Entry)
    requires Causal(trip) && e in Facts(trip) && e.kind == ArrivedAt
    ensures trip.startedAt.Some?
    ensures Before(StableSort(Facts(trip)), Entry(TripStarted, trip.id, trip.startedAt.value), e)
  {
    assert e in AllStopEntries(trip.stops);
    var k := EntryOfStop(trip.stops, e);
    assert CausalStop(trip, trip.stops[k]);
    var started := Entry(TripStarted, trip.id, trip.startedAt.value);
    assert started in TripEntries(trip) by { assert TripEntries(trip)[1] == started; }
    BeforeInConcat(TripEntries(trip), AllStopEntries(trip.stops), started, e);
    SortKeepsOrder(Facts(trip), started, e);
  }

  /** A stop's arrival comes before its own delivery, and before its own skip, even at the same instant. */
  lemma ArrivalBeforeOutcome(trip: TripFacts, k: nat)
    requires Causal(trip) && k < |trip.stops| && trip.stops[k].arrivedAt.Some?
    ensures var (stop, timeline) := (trip.stops[k], StableSort(Facts(trip)));
            var arrival := Entry(ArrivedAt, stop.id, stop.arrivedAt.value);
            && (stop.status == Completed && stop.completedAt.Some? ==>
                  Before(timeline, arrival, Entry(DeliveredAt, stop.id, stop.completedAt.value)))
            && (stop.status == Skipped ==> Before(timeline, arrival, Entry(SkippedAt, stop.id, stop.updatedAt)))
  {
    var stop := trip.stops[k];
    assert CausalStop(trip, stop);
    var arrival := Entry(ArrivedAt, stop.id, stop.arrivedAt.value);
    if (stop.status == Completed && stop.completedAt.Some?) || stop.status == Skipped {
      var outcome := StopEntries(stop)[1];
      assert StopEntries(stop)[0] == arrival;
      StopEntriesInOrder(trip.stops, k, arrival, outcome);
      BeforeInConcat(TripEntries(trip), AllStopEntries(trip.stops), arrival, outcome);
      SortKeepsOrder(Facts(trip), arrival, outcome);
    }
  }

  ghost predicate SameIds(stops: seq<StopFacts>, i: int, j: int)
    requires 0 <= i < |stops| && 0 <= j < |stops|
  {
    stops[i].id == stops[j].id
  }

  lemma {:induction false} StopEntriesDistinct(stops: seq<StopFacts>)
    requires forall i, j :: 0 <= i < j < |stops| ==> !SameIds(stops, i, j)
    ensures Distinct(AllStopEntries(stops))
    decreases |stops|
  {
    if stops != [] {
      var (front, last) := (stops[..|stops| - 1], stops[|stops| - 1]);
      forall i, j | 0 <= i < j < |front| ensures !SameIds(front, i, j) {
        assert !SameIds(stops, i, j);
      }
      StopEntriesDistinct(front);
      forall e | e in AllStopEntries(front) ensures e.subject != last.id {
        var k := EntryOfStop(front, e);
        assert !SameIds(stops, k, |stops| - 1);
      }
    }
  }

  /** Stops with different ids yield different entries, so an entry's place on the timeline is unambiguous. */
  lemma FactsDistinct(trip: TripFacts)
    requires forall i, j :: 0 <= i < j < |trip.stops| ==> !SameIds(trip.stops, i, j)
    ensures Distinct(Facts(trip))
  {
    StopEntriesDistinct(trip.stops);
    forall e | e in AllStopEntries(trip.stops) ensures e.kind != TripCreated && e.kind != TripStarted {
      var k := EntryOfStop(trip.stops, e);
    }
  }

  lemma {:induction false} DistinctByCount(s: seq<Entry>)
    ensures Distinct(s) <==> forall e :: multiset(s)[e] <= 1
    decreases |s|
  {
    if s != [] {
      var (shorter, last) := (s[..|s| - 1], s[|s| - 1]);
      DistinctByCount(shorter);
      assert s == shorter + [last];
      assert forall e :: multiset(s)[e] == multiset(shorter)[e] + if e == last then 1 else 0;
      assert last in shorter <==> multiset(shorter)[last] > 0;
      assert Distinct(s) <==> Distinct(shorter) && last !in shorter;
      if Distinct(shorter) && last in shorter {
        assert multiset(s)[last] > 1;
      }
      if forall e :: multiset(s)[e] <= 1 {
        forall e ensures multiset(shorter)[e] <= 1 {
          assert multiset(s)[e] <= 1;
        }
      }
    }
  }

  /** The sort neither repeats nor loses an entry. */
  lemma SortKeepsDistinct(s: seq<Entry>)
    requires Distinct(s)
    ensures Distinct(StableSort(s))
  {
    SortIsSortedPermutation(s);
    DistinctByCount(s);
    DistinctByCount(StableSort(s));
  }
}
