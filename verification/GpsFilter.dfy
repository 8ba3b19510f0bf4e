/** The filter between a driver's GPS fixes and a trip's published position. Distances are in metres, times in
  * milliseconds. */
module GpsFilter {
  import opened Common

  const MAX_ACCEPTABLE_ACCURACY_METERS := 100.0
  const MAX_PLAUSIBLE_SPEED_KPH := 140.0
  const LARGE_GAP_THRESHOLD_SECONDS := 300.0
  const CONFIRM_RADIUS_METERS := 50.0
  const MIN_MOVEMENT_METERS := 15.0
  const HEARTBEAT_INTERVAL_MS := 60_000

  datatype Point = Point(lat: real, lng: real)

  /** Great-circle distance and bearing, known only by the laws of a metric. */
  datatype Geo = Geo(dist: (Point, Point) -> real, bearing: (Point, Point) -> real)

  ghost predicate IsMetric(dist: (Point, Point) -> real) {
    && (forall p, q :: dist(p, q) >= 0.0)
    && (forall p :: dist(p, p) == 0.0)
    && (forall p, q :: dist(p, q) == dist(q, p))
    && (forall p, q, r :: dist(p, r) <= dist(p, q) + dist(q, r))
  }

  datatype Fix = Fix(point: Point, accuracy: Option<real>, clientTimestamp: Option<int>)

  /** The three readings of the server clock one call may take, in order. */
  datatype Clock = Clock(received: int, compared: int, stored: int)

  /** The location columns of a trip row. */
  datatype Track = Track(
    location: Option<Point>,
    accuracy: Option<real>,
    clientTimestamp: Option<int>,
    updatedAt: Option<int>,
    speedKph: Option<real>,
    heading: Option<real>,
    candidate: Option<Point>,
    candidateAt: Option<int>)

  const UNTRACKED := Track(None, None, None, None, None, None, None, None)

  datatype Verdict = Accepted | LowAccuracy | StaleTimestamp | Quarantined | NoChange

  /** A position is never stored without the time it was stored at. */
  predicate Consistent(t: Track) {
    t.location.Some? ==> t.updatedAt.Some?
  }

  function Stamp(fix: Fix, clock: Clock): int {
    if fix.clientTimestamp.Some? then fix.clientTimestamp.value else clock.received
  }

  /** Seconds since the published position was taken, and never less than one. */
  function Elapsed(t: Track, stamp: int): (s: real)
    requires t.location.Some? && Consistent(t)
    ensures s >= 1.0
  {
    var last := if t.clientTimestamp.Some? then t.clientTimestamp.value else t.updatedAt.value;
    var seconds := (stamp - last) as real / 1000.0;
    if seconds < 1.0 then 1.0 else seconds
  }

  function ImpliedKph(geo: Geo, t: Track, fix: Fix, stamp: int): real
    requires t.location.Some? && Consistent(t)
  {
    geo.dist(t.location.value, fix.point) / 1000.0 / (Elapsed(t, stamp) / 3600.0)
  }

  predicate Implausible(geo: Geo, t: Track, fix: Fix, stamp: int)
    requires t.location.Some? && Consistent(t)
  {
    && ImpliedKph(geo, t, fix, stamp) > MAX_PLAUSIBLE_SPEED_KPH
    && Elapsed(t, stamp) < LARGE_GAP_THRESHOLD_SECONDS
  }

  /** A fix that, having passed the filter, would contradict the published position. */
  predicate IsJump(geo: Geo, t: Track, fix: Fix, clock: Clock)
    requires Consistent(t)
  {
    t.location.Some? && Implausible(geo, t, fix, Stamp(fix, clock))
  }

  predicate Confirmed(geo: Geo, t: Track, fix: Fix) {
    t.candidate.Some? && geo.dist(t.candidate.value, fix.point) <= CONFIRM_RADIUS_METERS
  }

  predicate WorthStoring(geo: Geo, t: Track, fix: Fix, clock: Clock)
    requires t.location.Some?
  {
    || geo.dist(t.location.value, fix.point) >= MIN_MOVEMENT_METERS
    || t.updatedAt.None?
    || clock.compared - t.updatedAt.value >= HEARTBEAT_INTERVAL_MS
  }

  function Judge(geo: Geo, t: Track, fix: Fix, clock: Clock): Verdict
    requires Consistent(t)
  {
    if fix.accuracy.Some? && fix.accuracy.value > MAX_ACCEPTABLE_ACCURACY_METERS then LowAccuracy
    else if t.clientTimestamp.Some? && Stamp(fix, clock) <= t.clientTimestamp.value then StaleTimestamp
    else if t.location.None? then Accepted
    else if Implausible(geo, t, fix, Stamp(fix, clock)) then
      if Confirmed(geo, t, fix) then Accepted else Quarantined
    else if WorthStoring(geo, t, fix, clock) then Accepted
    else NoChange
  }

  function RoundedToTenth(x: real): real {
    (x * 10.0 + 0.5).Floor as real / 10.0
  }

  function Published(geo: Geo, t: Track, fix: Fix, clock: Clock): Track
    requires Consistent(t)
  {
    Track(
      Some(fix.point),
      fix.accuracy,
      Some(Stamp(fix, clock)),
      Some(clock.stored),
      Some(if t.location.Some? then RoundedToTenth(ImpliedKph(geo, t, fix, Stamp(fix, clock))) else 0.0),
      if t.location.Some? then Some(geo.bearing(t.location.value, fix.point)) else None,
      None,
      None)
  }

  function Step(geo: Geo, t: Track, fix: Fix, clock: Clock): (t': Track)
    requires Consistent(t)
    ensures Consistent(t')
  {
    match Judge(geo, t, fix, clock)
    case Accepted => Published(geo, t, fix, clock)
    case Quarantined => t.(candidate := Some(fix.point), candidateAt := Some(Stamp(fix, clock)))
    case _ => t
  }

  // ---- The verdicts on row and fix ----

  /** When the published position was taken: by the driver's clock, or failing that by when it was stored. */
  predicate TakenAt(t: Track, when: int) {
    t.clientTimestamp == Some(when) || (t.clientTimestamp.None? && t.updatedAt == Some(when))
  }

  /** Further than a vehicle gets at 140 km/h since then, counting at least a second, and not five minutes later. */
  predicate TooFast(geo: Geo, p: Point, when: int, q: Point, stamp: int) {
    var seconds := if stamp - when < 1000 then 1.0 else (stamp - when) as real / 1000.0;
    geo.dist(p, q) > 140.0 / 3.6 * seconds && seconds < 300.0
  }

  lemma TooFastExactly(geo: Geo, t: Track, fix: Fix, stamp: int, when: int)
    requires t.location.Some? && Consistent(t) && TakenAt(t, when)
    ensures Implausible(geo, t, fix, stamp) <==> TooFast(geo, t.location.value, when, fix.point, stamp)
  {
    SpeedLimit(geo.dist(t.location.value, fix.point), Elapsed(t, stamp));
  }

  /** Whatever the row, a fix is dropped for its accuracy if and only if that is given and worse than 100 m; a precise
    * one for its time if and only if it is not newer than the published position. */
  lemma DroppedFirstExactly(geo: Geo, t: Track, fix: Fix, clock: Clock)
    requires Consistent(t)
    ensures var stamp := if fix.clientTimestamp.Some? then fix.clientTimestamp.value else clock.received;
            var v := Judge(geo, t, fix, clock);
            var vague := fix.accuracy.Some? && fix.accuracy.value > 100.0;
            && (v == LowAccuracy <==> vague)
            && (v == StaleTimestamp <==> !vague && t.clientTimestamp.Some? && stamp <= t.clientTimestamp.value)
            && (t.location.None? && v !in {LowAccuracy, StaleTimestamp} ==> v == Accepted)
  {
  }

  /** A precise newer fix against a published position: quarantined if and only if it is too fast and further than 50 m
    * from the candidate, if there is one; of no change if and only if it is not too fast, within 15 m, and the position
    * was stored less than a minute ago; accepted otherwise. */
  lemma JudgedAgainstPositionExactly(geo: Geo, t: Track, fix: Fix, clock: Clock, p: Point, when: int, stored: int)
    requires t.location == Some(p) && t.updatedAt == Some(stored) && TakenAt(t, when)
    requires fix.accuracy.None? || fix.accuracy.value <= 100.0
    requires t.clientTimestamp.Some? ==> t.clientTimestamp.value < Stamp(fix, clock)
    ensures var stamp := if fix.clientTimestamp.Some? then fix.clientTimestamp.value else clock.received;
            var (v, fast) := (Judge(geo, t, fix, clock), TooFast(geo, p, when, fix.point, stamp));
            var confirmed := t.candidate.Some? && geo.dist(t.candidate.value, fix.point) <= 50.0;
            var still := geo.dist(p, fix.point) < 15.0 && clock.compared - stored < 60_000;
            && (v == Quarantined <==> fast && !confirmed)
            && (v == NoChange <==> !fast && still)
            && (v == Accepted <==> (fast && confirmed) || (!fast && !still))
  {
    TooFastExactly(geo, t, fix, Stamp(fix, clock), when);
    hide Implausible;
  }

  /** The row an accepted fix leaves: its own point, accuracy and times, no candidate, and the speed from the last
    * point, to a twentieth of a kilometre per hour, with the bearing; nought and none for the first. */
  lemma AcceptedRowExactly(geo: Geo, t: Track, fix: Fix, clock: Clock)
    requires Consistent(t) && Judge(geo, t, fix, clock) == Accepted
    ensures var stamp := if fix.clientTimestamp.Some? then fix.clientTimestamp.value else clock.received;
            var after := Step(geo, t, fix, clock);
            && after.location == Some(fix.point) && after.accuracy == fix.accuracy
            && after.clientTimestamp == Some(stamp) && after.updatedAt == Some(clock.stored)
            && after.candidate == None && after.candidateAt == None
            && (t.location.None? ==> after.speedKph == Some(0.0) && after.heading == None)
            && (t.location.Some? ==> after.heading == Some(geo.bearing(t.location.value, fix.point)))
  {
  }

  predicate IsTenth(x: real) {
    (x * 10.0).Floor as real == x * 10.0
  }

  lemma RoundedIsClose(x: real)
    ensures x - 0.05 < RoundedToTenth(x) <= x + 0.05
    ensures IsTenth(RoundedToTenth(x))
  {
    var y := x * 10.0 + 0.5;
    assert y.Floor as real <= y < y.Floor as real + 1.0;
    assert RoundedToTenth(x) == y.Floor as real / 10.0;
  }

  lemma AcceptedSpeedExactly(geo: Geo, t: Track, fix: Fix, clock: Clock, p: Point, when: int)
    requires Consistent(t) && Judge(geo, t, fix, clock) == Accepted && t.location == Some(p) && TakenAt(t, when)
    ensures var stamp := if fix.clientTimestamp.Some? then fix.clientTimestamp.value else clock.received;
            var seconds := if stamp - when < 1000 then 1.0 else (stamp - when) as real / 1000.0;
            var kph := geo.dist(p, fix.point) / seconds * 3.6;
            var speed := Step(geo, t, fix, clock).speedKph;
            && speed.Some? && kph - 0.05 < speed.value <= kph + 0.05
            && IsTenth(speed.value)
  {
    var stamp := Stamp(fix, clock);
    RoundedIsClose(ImpliedKph(geo, t, fix, stamp));
    SameSpeed(geo.dist(p, fix.point), Elapsed(t, stamp));
  }

  lemma SameSpeed(d: real, e: real)
    requires e >= 1.0
    ensures d / 1000.0 / (e / 3600.0) == d / e * 3.6
  {
    var (x, q) := (d / 1000.0 / (e / 3600.0), d / e);
    assert x * (e / 3600.0) == d / 1000.0;
    assert q * e == d;
    assert (x - q * 3.6) * e == 0.0;
  }

  lemma RejectedRowExactly(geo: Geo, t: Track, fix: Fix, clock: Clock)
    requires Consistent(t) && Judge(geo, t, fix, clock) != Accepted
    ensures var stamp := if fix.clientTimestamp.Some? then fix.clientTimestamp.value else clock.received;
            Step(geo, t, fix, clock)
            == if Judge(geo, t, fix, clock) == Quarantined then
                 Track(t.location, t.accuracy, t.clientTimestamp, t.updatedAt, t.speedKph, t.heading,
                       Some(fix.point), Some(stamp))
               else t
  {
  }

  /** Speed in kilometres per hour against metres and seconds. */
  lemma SpeedLimit(d: real, e: real)
    requires e >= 1.0
    ensures d / 1000.0 / (e / 3600.0) <= MAX_PLAUSIBLE_SPEED_KPH <==> d <= 140.0 / 3.6 * e
  {
    var (x, y) := (d / 1000.0, e / 3600.0);
    var q := x / y;
    assert q * y == x;
    if q <= 140.0 {
      assert q * y <= 140.0 * y;
    } else {
      assert q * y > 140.0 * y;
    }
  }

  // ---- The service ----

  datatype Trip = Trip(driver: nat, track: Track)

  class TrackingService {
    const geo: Geo
    var trips: map<nat, Trip>

    ghost predicate Valid()
      reads this
    {
      forall id <- trips :: Consistent(trips[id].track)
    }

    constructor (geo: Geo, trips: map<nat, Trip>)
      requires forall id <- trips :: Consistent(trips[id].track)
      ensures Valid() && this.geo == geo && this.trips == trips
    {
      this.geo := geo;
      this.trips := trips;
    }

    method UpdateDriverLocation(tripId: nat, driver: nat, fix: Fix, clock: Clock) returns (r: Result<Verdict>)
      requires Valid()
      modifies this`trips
      ensures Valid()
      ensures tripId !in old(trips) ==> r == Failure(NotFound) && trips == old(trips)
      ensures tripId in old(trips) && old(trips)[tripId].driver != driver ==>
                r == Failure(Forbidden) && trips == old(trips)
      ensures tripId in old(trips) && old(trips)[tripId].driver == driver ==>
                var t := old(trips)[tripId].track;
                && r == Success(Judge(geo, t, fix, clock))
                && trips == old(trips)[tripId := Trip(driver, Step(geo, t, fix, clock))]
    {
      if tripId !in trips {
        return Failure(NotFound);
      }
      var trip := trips[tripId];
      if trip.driver != driver {
        return Failure(Forbidden);
      }
      assert trips == trips[tripId := trip];
      if fix.accuracy.Some? && fix.accuracy.value > MAX_ACCEPTABLE_ACCURACY_METERS {
        return Success(LowAccuracy);
      }
      var t := trip.track;
      var newTimestamp := if fix.clientTimestamp.Some? then fix.clientTimestamp.value else clock.received;
      if t.clientTimestamp.Some? && newTimestamp <= t.clientTimestamp.value {
        return Success(StaleTimestamp);
      }
      var speedKph := 0.0;
      var heading: Option<real> := None;
      if t.location.Some? {
        var lastPoint := t.location.value;
        var lastTimestamp := if t.clientTimestamp.Some? then t.clientTimestamp.value else t.updatedAt.value;
        var elapsedSeconds := (newTimestamp - lastTimestamp) as real / 1000.0;
        if elapsedSeconds < 1.0 {
          elapsedSeconds := 1.0;
        }
        var distanceMeters := geo.dist(lastPoint, fix.point);
        var impliedSpeedKph := distanceMeters / 1000.0 / (elapsedSeconds / 3600.0);
        speedKph := RoundedToTenth(impliedSpeedKph);
        heading := Some(geo.bearing(lastPoint, fix.point));
        if impliedSpeedKph > MAX_PLAUSIBLE_SPEED_KPH && elapsedSeconds < LARGE_GAP_THRESHOLD_SECONDS {
          if t.candidate.Some? {
            if geo.dist(t.candidate.value, fix.point) <= CONFIRM_RADIUS_METERS {
              PersistAcceptedLocation(
                tripId, fix.point, fix.accuracy, newTimestamp, true, heading, speedKph, clock.stored);
              return Success(Accepted);
            }
          }
          trips := trips[tripId := Trip(driver, t.(candidate := Some(fix.point), candidateAt := Some(newTimestamp)))];
          return Success(Quarantined);
        }
        var staleEnough := t.updatedAt.None? || clock.compared - t.updatedAt.value >= HEARTBEAT_INTERVAL_MS;
        if distanceMeters < MIN_MOVEMENT_METERS && !staleEnough {
          return Success(NoChange);
        }
      }
      PersistAcceptedLocation(tripId, fix.point, fix.accuracy, newTimestamp, true, heading, speedKph, clock.stored);
      return Success(Accepted);
    }

    method PersistAcceptedLocation(
      tripId: nat, point: Point, accuracy: Option<real>, clientTimestamp: int, clearCandidate: bool,
      heading: Option<real>, speedKph: real, now: int)
      requires tripId in trips && Valid()
      modifies this`trips
      ensures Valid()
      ensures var t := old(trips)[tripId].track;
              trips == old(trips)[tripId := old(trips)[tripId].(track := Track(
                Some(point), accuracy, Some(clientTimestamp), Some(now), Some(speedKph), heading,
                if clearCandidate then None else t.candidate, if clearCandidate then None else t.candidateAt))]
    {
      var t := trips[tripId].track;
      t := t.(location := Some(point), accuracy := accuracy, clientTimestamp := Some(clientTimestamp),
              updatedAt := Some(now), speedKph := Some(speedKph), heading := heading);
      if clearCandidate {
        t := t.(candidate := None, candidateAt := None);
      }
      trips := trips[tripId := trips[tripId].(track := t)];
    }
  }

  // ---- Runs of fixes for one trip ----

  datatype Event = Event(fix: Fix, clock: Clock)

  /** The row after the first n fixes. */
  function TrackAt(geo: Geo, t: Track, events: seq<Event>, n: nat): (t': Track)
    requires Consistent(t) && n <= |events|
    ensures Consistent(t')
  {
    if n == 0 then t else Step(geo, TrackAt(geo, t, events, n - 1), events[n - 1].fix, events[n - 1].clock)
  }

  function VerdictAt(geo: Geo, t: Track, events: seq<Event>, i: nat): Verdict
    requires Consistent(t) && i < |events|
  {
    Judge(geo, TrackAt(geo, t, events, i), events[i].fix, events[i].clock)
  }

  function StampAt(events: seq<Event>, i: nat): int
    requires i < |events|
  {
    Stamp(events[i].fix, events[i].clock)
  }

  predicate JumpAt(geo: Geo, t: Track, events: seq<Event>, i: nat)
    requires Consistent(t) && i < |events|
  {
    IsJump(geo, TrackAt(geo, t, events, i), events[i].fix, events[i].clock)
  }

  /** Only acceptance moves the published position, only quarantine besides it touches the row. */
  lemma OnlyAcceptancePublishes(geo: Geo, t: Track, fix: Fix, clock: Clock)
    requires Consistent(t)
    ensures var (v, t') := (Judge(geo, t, fix, clock), Step(geo, t, fix, clock));
            && (v == Accepted ==>
                  && t'.location == Some(fix.point) && t'.candidate == None
                  && t'.clientTimestamp == Some(Stamp(fix, clock)) && t'.updatedAt == Some(clock.stored))
            && (v != Accepted ==> t'.(candidate := t.candidate, candidateAt := t.candidateAt) == t)
            && (v != Accepted && v != Quarantined ==> t' == t)
            && (v == Quarantined ==> IsJump(geo, t, fix, clock) && t'.candidate == Some(fix.point))
  {
  }

  ghost predicate NoneAccepted(geo: Geo, t: Track, events: seq<Event>, lo: nat, hi: nat)
    requires Consistent(t) && hi <= |events|
  {
    forall k :: lo <= k < hi ==> VerdictAt(geo, t, events, k) != Accepted
  }

  /** A stretch without acceptance leaves the published position alone, whatever was rejected or quarantined in it. */
  lemma {:induction false} RejectionsDoNotPublish(geo: Geo, t: Track, events: seq<Event>, lo: nat, hi: nat)
    requires Consistent(t) && lo <= hi <= |events| && NoneAccepted(geo, t, events, lo, hi)
    ensures var (a, b) := (TrackAt(geo, t, events, lo), TrackAt(geo, t, events, hi));
            b.(candidate := a.candidate, candidateAt := a.candidateAt) == a
    decreases hi - lo
  {
    if lo < hi {
      RejectionsDoNotPublish(geo, t, events, lo, hi - 1);
      assert VerdictAt(geo, t, events, hi - 1) != Accepted;
      OnlyAcceptancePublishes(geo, TrackAt(geo, t, events, hi - 1), events[hi - 1].fix, events[hi - 1].clock);
    }
  }

  /** Between two acceptances the published position, with its accuracy and times, is the one the first of them
    * stored. */
  lemma PublishedIsLatestAccepted(geo: Geo, t: Track, events: seq<Event>, i: nat, n: nat)
    requires Consistent(t) && i < n <= |events|
    requires VerdictAt(geo, t, events, i) == Accepted && NoneAccepted(geo, t, events, i + 1, n)
    ensures var p := TrackAt(geo, t, events, n);
            && p.location == Some(events[i].fix.point)
            && p.accuracy == events[i].fix.accuracy
            && (p.accuracy.Some? ==> p.accuracy.value <= 100.0)
            && p.clientTimestamp == Some(StampAt(events, i))
            && p.updatedAt == Some(events[i].clock.stored)
  {
    OnlyAcceptancePublishes(geo, TrackAt(geo, t, events, i), events[i].fix, events[i].clock);
    AcceptedRowExactly(geo, TrackAt(geo, t, events, i), events[i].fix, events[i].clock);
    DroppedFirstExactly(geo, TrackAt(geo, t, events, i), events[i].fix, events[i].clock);
    RejectionsDoNotPublish(geo, t, events, i + 1, n);
  }

  // ---- Speed ----

  /** Seconds, at least one each, spent on the accepted moves among the first n fixes. */
  function TravelTime(geo: Geo, t: Track, events: seq<Event>, n: nat): real
    requires Consistent(t) && n <= |events|
  {
    if n == 0 then 0.0 else
      var before := TrackAt(geo, t, events, n - 1);
      TravelTime(geo, t, events, n - 1)
      + if VerdictAt(geo, t, events, n - 1) == Accepted && before.location.Some?
        then Elapsed(before, StampAt(events, n - 1)) else 0.0
  }

  function AcceptedCount(geo: Geo, t: Track, events: seq<Event>, n: nat): nat
    requires Consistent(t) && n <= |events|
  {
    if n == 0 then 0
    else AcceptedCount(geo, t, events, n - 1) + if VerdictAt(geo, t, events, n - 1) == Accepted then 1 else 0
  }

  /** None of the first n fixes was accepted as a confirmed jump, or after a gap of 300 seconds. */
  ghost predicate SteadyTravel(geo: Geo, t: Track, events: seq<Event>, n: nat)
    requires Consistent(t) && n <= |events|
  {
    forall i :: 0 <= i < n && VerdictAt(geo, t, events, i) == Accepted ==>
      var before := TrackAt(geo, t, events, i);
      before.location.Some? ==>
        !JumpAt(geo, t, events, i) && Elapsed(before, StampAt(events, i)) < 300.0
  }

  /** From a row with a timestamp on, n acceptances later the row's timestamp is at least n milliseconds later. */
  lemma {:induction false} TimestampsIncrease(geo: Geo, t: Track, events: seq<Event>, n: nat)
    requires Consistent(t) && n <= |events| && t.clientTimestamp.Some?
    ensures TrackAt(geo, t, events, n).clientTimestamp.Some?
    ensures TrackAt(geo, t, events, n).clientTimestamp.value
            >= t.clientTimestamp.value + AcceptedCount(geo, t, events, n)
  {
    if n > 0 {
      TimestampsIncrease(geo, t, events, n - 1);
      OnlyAcceptancePublishes(geo, TrackAt(geo, t, events, n - 1), events[n - 1].fix, events[n - 1].clock);
    }
  }

  lemma {:induction false} ClientTimestampKeepsUp(geo: Geo, t: Track, events: seq<Event>, lo: nat, hi: nat)
    requires Consistent(t) && lo <= hi <= |events| && TrackAt(geo, t, events, lo).clientTimestamp.Some?
    ensures var (a, b) := (TrackAt(geo, t, events, lo), TrackAt(geo, t, events, hi));
            b.clientTimestamp.Some? && a.clientTimestamp.value <= b.clientTimestamp.value
    decreases hi - lo
  {
    if lo < hi {
      ClientTimestampKeepsUp(geo, t, events, lo, hi - 1);
      OnlyAcceptancePublishes(geo, TrackAt(geo, t, events, hi - 1), events[hi - 1].fix, events[hi - 1].clock);
    }
  }

  /** No run, from a row that shows no vaguer position, ever publishes one vaguer than 100 m. */
  lemma {:induction false} PublishedIsPrecise(geo: Geo, t: Track, events: seq<Event>, n: nat)
    requires Consistent(t) && n <= |events| && (t.accuracy.Some? ==> t.accuracy.value <= 100.0)
    ensures var p := TrackAt(geo, t, events, n); p.accuracy.Some? ==> p.accuracy.value <= 100.0
  {
    if n > 0 {
      PublishedIsPrecise(geo, t, events, n - 1);
      var (before, e) := (TrackAt(geo, t, events, n - 1), events[n - 1]);
      DroppedFirstExactly(geo, before, e.fix, e.clock);
      if VerdictAt(geo, t, events, n - 1) == Accepted {
        AcceptedRowExactly(geo, before, e.fix, e.clock);
      } else {
        RejectedRowExactly(geo, before, e.fix, e.clock);
      }
    }
  }

  /** Of any two accepted fixes, whatever row the run starts from, the later one has the later timestamp. */
  lemma AcceptedTimestampsIncrease(geo: Geo, t: Track, events: seq<Event>, i: nat, j: nat)
    requires Consistent(t) && i < j < |events|
    requires VerdictAt(geo, t, events, i) == Accepted && VerdictAt(geo, t, events, j) == Accepted
    ensures StampAt(events, i) < StampAt(events, j)
  {
    OnlyAcceptancePublishes(geo, TrackAt(geo, t, events, i), events[i].fix, events[i].clock);
    ClientTimestampKeepsUp(geo, t, events, i + 1, j);
  }

  lemma MetricLaws(dist: (Point, Point) -> real, p: Point, q: Point, r: Point)
    requires IsMetric(dist)
    ensures dist(p, p) == 0.0 && dist(p, r) <= dist(p, q) + dist(q, r)
  {
  }

  /** One accepted step that is no jump obeys the speed limit. */
  lemma StepWithinSpeedLimit(geo: Geo, t: Track, fix: Fix, stamp: int)
    requires t.location.Some? && Consistent(t)
    requires !Implausible(geo, t, fix, stamp) && Elapsed(t, stamp) < 300.0
    ensures geo.dist(t.location.value, fix.point) <= 140.0 / 3.6 * Elapsed(t, stamp)
  {
    hide Elapsed;
    SpeedLimit(geo.dist(t.location.value, fix.point), Elapsed(t, stamp));
  }

  /** The published position never travels faster than 140 km/h on its accepted timestamps: no sequence of accepted
    * steps, however the fixes in between were judged, carries it further than the speed limit allows in total. */
  lemma {:induction false} SpeedLimitHoldsOverRuns(geo: Geo, t: Track, events: seq<Event>, n: nat)
    requires IsMetric(geo.dist) && Consistent(t) && t.location.Some? && n <= |events|
    requires SteadyTravel(geo, t, events, n)
    ensures TrackAt(geo, t, events, n).location.Some?
    ensures geo.dist(t.location.value, TrackAt(geo, t, events, n).location.value)
            <= 140.0 / 3.6 * TravelTime(geo, t, events, n)
  {
    hide IsMetric, Judge, Step, Elapsed, Implausible;
    var start := t.location.value;
    MetricLaws(geo.dist, start, start, start);
    if n > 0 {
      SpeedLimitHoldsOverRuns(geo, t, events, n - 1);
      var (before, e) := (TrackAt(geo, t, events, n - 1), events[n - 1]);
      OnlyAcceptancePublishes(geo, before, e.fix, e.clock);
      if VerdictAt(geo, t, events, n - 1) == Accepted {
        assert !JumpAt(geo, t, events, n - 1);
        StepWithinSpeedLimit(geo, before, e.fix, StampAt(events, n - 1));
        MetricLaws(geo.dist, start, before.location.value, e.fix.point);
      }
    }
  }

  // ---- Quarantine ----

  /** Fix j was the latest to be quarantined before fix n, and nothing has been accepted since. */
  ghost predicate LatestQuarantined(geo: Geo, t: Track, events: seq<Event>, j: nat, n: nat)
    requires Consistent(t) && n <= |events|
  {
    && j < n
    && VerdictAt(geo, t, events, j) == Quarantined
    && forall k :: j < k < n ==> VerdictAt(geo, t, events, k) !in {Accepted, Quarantined}
  }

  lemma {:induction false} CandidateHasOrigin(geo: Geo, t: Track, events: seq<Event>, n: nat) returns (j: nat)
    requires Consistent(t) && t.candidate == None && n <= |events|
    requires TrackAt(geo, t, events, n).candidate.Some?
    ensures LatestQuarantined(geo, t, events, j, n)
    ensures TrackAt(geo, t, events, n).candidate == Some(events[j].fix.point)
  {
    OnlyAcceptancePublishes(geo, TrackAt(geo, t, events, n - 1), events[n - 1].fix, events[n - 1].clock);
    if VerdictAt(geo, t, events, n - 1) == Quarantined {
      j := n - 1;
    } else {
      j := CandidateHasOrigin(geo, t, events, n - 1);
    }
  }

  lemma {:induction false} QuarantinedFixStaysCandidate(geo: Geo, t: Track, events: seq<Event>, j: nat, n: nat)
    requires Consistent(t) && n <= |events| && LatestQuarantined(geo, t, events, j, n)
    ensures TrackAt(geo, t, events, n).candidate == Some(events[j].fix.point)
    decreases n
  {
    OnlyAcceptancePublishes(geo, TrackAt(geo, t, events, n - 1), events[n - 1].fix, events[n - 1].clock);
    if j < n - 1 {
      assert VerdictAt(geo, t, events, n - 1) !in {Accepted, Quarantined};
      QuarantinedFixStaysCandidate(geo, t, events, j, n - 1);
    }
  }

  /** From a row without a candidate on, there is one exactly while the latest quarantined fix has had no acceptance
    * after it, and it is that fix; readings judged otherwise neither bring a candidate nor take it away. */
  lemma CandidateIsLatestQuarantined(geo: Geo, t: Track, events: seq<Event>, n: nat, p: Point)
    requires Consistent(t) && t.candidate == None && n <= |events|
    ensures TrackAt(geo, t, events, n).candidate == Some(p)
            <==> exists j: nat :: LatestQuarantined(geo, t, events, j, n) && events[j].fix.point == p
  {
    hide LatestQuarantined, TrackAt;
    if TrackAt(geo, t, events, n).candidate.Some? {
      var j := CandidateHasOrigin(geo, t, events, n);
    }
    forall j: nat | LatestQuarantined(geo, t, events, j, n)
      ensures j < n && TrackAt(geo, t, events, n).candidate == Some(events[j].fix.point)
    {
      LatestIsEarlier(geo, t, events, j, n);
      QuarantinedFixStaysCandidate(geo, t, events, j, n);
    }
  }

  lemma LatestIsEarlier(geo: Geo, t: Track, events: seq<Event>, j: nat, n: nat)
    requires Consistent(t) && n <= |events| && LatestQuarantined(geo, t, events, j, n)
    ensures j < n
  {
  }

  /** Every jump that was accepted has a witness: the latest quarantined fix since the previous acceptance, which
    * contradicted the same published position and lies within 50 m. It is the reading just before the jump if and only
    * if that one was quarantined. */
  lemma AcceptedJumpHasWitness(geo: Geo, t: Track, events: seq<Event>, n: nat) returns (j: nat)
    requires Consistent(t) && t.candidate == None && n < |events|
    requires VerdictAt(geo, t, events, n) == Accepted && JumpAt(geo, t, events, n)
    ensures LatestQuarantined(geo, t, events, j, n)
    ensures geo.dist(events[j].fix.point, events[n].fix.point) <= 50.0
    ensures JumpAt(geo, t, events, j) && TrackAt(geo, t, events, j).location == TrackAt(geo, t, events, n).location
    ensures n > 0 && (j == n - 1 <==> VerdictAt(geo, t, events, n - 1) == Quarantined)
  {
    j := CandidateHasOrigin(geo, t, events, n);
    OnlyAcceptancePublishes(geo, TrackAt(geo, t, events, j), events[j].fix, events[j].clock);
    RejectionsDoNotPublish(geo, t, events, j, n);
  }

  /** A plausible reading that passed the first two checks clears a candidate if and only if it is worth storing. */
  lemma PlausibleReadingClearsExactly(geo: Geo, t: Track, fix: Fix, clock: Clock)
    requires Consistent(t) && t.location.Some? && t.candidate.Some? && !IsJump(geo, t, fix, clock)
    requires Judge(geo, t, fix, clock) !in {LowAccuracy, StaleTimestamp}
    ensures Step(geo, t, fix, clock).candidate == None <==> WorthStoring(geo, t, fix, clock)
  {
  }

  /** A driver who really moved is believed at the second agreeing fix, unless it puts them back where they were. */
  lemma SecondFixSettles(geo: Geo, t: Track, events: seq<Event>, j: nat)
    requires Consistent(t) && j + 1 < |events| && VerdictAt(geo, t, events, j) == Quarantined
    requires geo.dist(events[j].fix.point, events[j + 1].fix.point) <= 50.0
    requires VerdictAt(geo, t, events, j + 1) !in {LowAccuracy, StaleTimestamp}
    ensures var v := VerdictAt(geo, t, events, j + 1);
            && v in {Accepted, NoChange}
            && (v == NoChange ==>
                  geo.dist(TrackAt(geo, t, events, j).location.value, events[j + 1].fix.point) < 15.0)
  {
    OnlyAcceptancePublishes(geo, TrackAt(geo, t, events, j), events[j].fix, events[j].clock);
    assert TrackAt(geo, t, events, j + 1) == Step(geo, TrackAt(geo, t, events, j), events[j].fix, events[j].clock);
  }

  /** Two fixes accepted one after the other within a minute of the server's clock are at least 15 m apart, the second
    * one a confirmed jump or not. */
  lemma AcceptedFixesAreApart(geo: Geo, t: Track, events: seq<Event>, i: nat, j: nat)
    requires Consistent(t) && i < j < |events|
    requires VerdictAt(geo, t, events, i) == Accepted && VerdictAt(geo, t, events, j) == Accepted
    requires NoneAccepted(geo, t, events, i + 1, j)
    requires events[j].clock.compared <= events[j].clock.stored
    requires events[j].clock.stored - events[i].clock.stored < 60_000
    ensures geo.dist(events[i].fix.point, events[j].fix.point) >= 15.0
  {
    PublishedIsLatestAccepted(geo, t, events, i, j);
    var before := TrackAt(geo, t, events, j);
    SpeedLimit(geo.dist(before.location.value, events[j].fix.point), Elapsed(before, StampAt(events, j)));
  }

  // ---- The candidate outlives readings that change nothing ----

  /** A reading at the published position, taken again within the minute. */
  lemma StandingStillChangesNothing(geo: Geo, t: Track, fix: Fix, clock: Clock)
    requires IsMetric(geo.dist) && t.location.Some? && t.clientTimestamp.Some? && t.updatedAt.Some?
    requires fix.accuracy.None? && fix.point == t.location.value && t.clientTimestamp.value < Stamp(fix, clock)
    requires clock.compared - t.updatedAt.value < HEARTBEAT_INTERVAL_MS
    ensures Judge(geo, t, fix, clock) == NoChange && Step(geo, t, fix, clock) == t
  {
    MetricLaws(geo.dist, fix.point, fix.point, fix.point);
    SpeedLimit(geo.dist(t.location.value, fix.point), Elapsed(t, Stamp(fix, clock)));
  }

  /** A reading so far off within five minutes that 140 km/h would not have taken the driver there. */
  lemma FarOffIsJump(geo: Geo, t: Track, fix: Fix, clock: Clock, seconds: real)
    requires t.location.Some? && t.clientTimestamp.Some? && t.updatedAt.Some? && 1.0 <= seconds < 300.0
    requires Stamp(fix, clock) > t.clientTimestamp.value && fix.accuracy.None?
    requires (Stamp(fix, clock) - t.clientTimestamp.value) as real / 1000.0 == seconds
    requires geo.dist(t.location.value, fix.point) > 140.0 / 3.6 * seconds
    ensures IsJump(geo, t, fix, clock)
    ensures Judge(geo, t, fix, clock) == if Confirmed(geo, t, fix) then Accepted else Quarantined
  {
    SpeedLimit(geo.dist(t.location.value, fix.point), Elapsed(t, Stamp(fix, clock)));
  }

  function ReadingAt(p: Point, now: int): Event {
    Event(Fix(p, None, Some(now)), Clock(now, now, now))
  }

  /** The two readings that agree need not be consecutive: for any two places far enough apart there is a run in which
    * the reading between them says the driver never moved, and the jump is accepted all the same. */
  lemma AgreeingFixesNeedNotBeConsecutive(geo: Geo, home: Point, away: Point, now: int)
    requires IsMetric(geo.dist) && geo.dist(home, away) > 140.0 / 3.6 * 3.0
    ensures var events := [
              ReadingAt(home, now), ReadingAt(away, now + 1_000), ReadingAt(home, now + 2_000),
              ReadingAt(away, now + 3_000)];
            && VerdictAt(geo, UNTRACKED, events, 1) == Quarantined
            && VerdictAt(geo, UNTRACKED, events, 2) == NoChange
            && VerdictAt(geo, UNTRACKED, events, 3) == Accepted && JumpAt(geo, UNTRACKED, events, 3)
  {
    var events := [
      ReadingAt(home, now), ReadingAt(away, now + 1_000), ReadingAt(home, now + 2_000), ReadingAt(away, now + 3_000)];
    var t1 := Published(geo, UNTRACKED, events[0].fix, events[0].clock);
    assert TrackAt(geo, UNTRACKED, events, 1) == t1;
    hide IsMetric, Implausible, Elapsed, ImpliedKph;
    FarOffIsJump(geo, t1, events[1].fix, events[1].clock, 1.0);
    var t2 := t1.(candidate := Some(away), candidateAt := Some(now + 1_000));
    assert TrackAt(geo, UNTRACKED, events, 2) == t2;
    StandingStillChangesNothing(geo, t2, events[2].fix, events[2].clock);
    assert TrackAt(geo, UNTRACKED, events, 3) == t2;
    FarOffIsJump(geo, t2, events[3].fix, events[3].clock, 3.0);
    MetricLaws(geo.dist, away, away, away);
  }
}
