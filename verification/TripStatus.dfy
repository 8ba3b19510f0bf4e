/** Statuses of a trip's stops, and the trip status that is derived from them. */
module TripStatus {
  import opened Common

  datatype StopStatus = Pending | Arrived | Completed | Skipped | Failed

  datatype DerivedStatus = Scheduled | InProgress | Done

  const RESOLVED_STATUSES: set<StopStatus> := {Completed, Skipped, Failed}

  function DeriveTripStatus(stops: seq<StopStatus>): DerivedStatus {
    var hasStarted := exists s :: s in stops && s != Pending;
    var allResolved := forall s :: s in stops ==> s in RESOLVED_STATUSES;
    if allResolved then Done else if hasStarted then InProgress else Scheduled
  }

  function CountOf(stops: seq<StopStatus>, status: StopStatus): nat {
    if stops == [] then 0
    else (if stops[0] == status then 1 else 0) + CountOf(stops[1..], status)
  }

  /** The `resolved` figure of getTripProgress; its `total` is the length of the list. */
  function ResolvedCount(stops: seq<StopStatus>): nat {
    CountOf(stops, Completed) + CountOf(stops, Skipped) + CountOf(stops, Failed)
  }

  predicate Unresolved(s: StopStatus) {
    s == Pending || s == Arrived
  }

  /** The position of the first unresolved stop. */
  function CurrentStop(stops: seq<StopStatus>): (r: Option<nat>)
    ensures r.Some? ==>
              r.value < |stops| && Unresolved(stops[r.value]) && forall j :: 0 <= j < r.value ==> !Unresolved(stops[j])
    ensures r.None? ==> forall j :: 0 <= j < |stops| ==> !Unresolved(stops[j])
  {
    if stops == [] then None
    else if Unresolved(stops[0]) then Some(0)
    else
      var rest := CurrentStop(stops[1..]);
      if rest.None? then None else Some(rest.value + 1)
  }

  lemma {:induction false} ResolvedCountBound(stops: seq<StopStatus>)
    ensures ResolvedCount(stops) <= |stops|
    ensures ResolvedCount(stops) == |stops| <==> forall s :: s in stops ==> s in RESOLVED_STATUSES
  {
    if stops != [] {
      var rest := stops[1..];
      ResolvedCountBound(rest);
      assert ResolvedCount(stops) == ResolvedCount(rest) + if stops[0] in RESOLVED_STATUSES then 1 else 0;
      assert forall s :: s in stops <==> s == stops[0] || s in rest;
    }
  }

  /** Three readings of "the trip is over" agree, on every list of stops, the empty one included. */
  lemma DoneReadings(stops: seq<StopStatus>)
    ensures DeriveTripStatus(stops) == Done <==> ResolvedCount(stops) == |stops|
    ensures DeriveTripStatus(stops) == Done <==> CurrentStop(stops) == None
  {
    ResolvedCountBound(stops);
    if CurrentStop(stops).Some? {
      assert stops[CurrentStop(stops).value] in stops;
    }
  }

  /** A trip is done when every stop is COMPLETED, SKIPPED or FAILED, one without stops included; not begun while it has
    * stops and all are PENDING; and under way otherwise. */
  lemma DerivedExactly(stops: seq<StopStatus>)
    ensures DeriveTripStatus(stops) == Done <==>
            forall i :: 0 <= i < |stops| ==>
              stops[i] == Completed || stops[i] == Skipped || stops[i] == StopStatus.Failed
    ensures DeriveTripStatus(stops) == Scheduled <==>
            stops != [] && forall i :: 0 <= i < |stops| ==> stops[i] == StopStatus.Pending
    ensures DeriveTripStatus(stops) == InProgress <==>
            && (exists i :: 0 <= i < |stops| && (stops[i] == StopStatus.Pending || stops[i] == Arrived))
            && (exists i :: 0 <= i < |stops| && stops[i] != StopStatus.Pending)
  {
    assert forall i :: 0 <= i < |stops| ==> stops[i] in stops;
    if stops != [] {
      assert stops[0] in stops;
    }
  }

  /** The counts of the progress are counts: so many stops have that status, and so many are resolved. */
  lemma {:induction false} CountsExactly(stops: seq<StopStatus>, status: StopStatus)
    ensures CountOf(stops, status) == multiset(stops)[status]
    ensures ResolvedCount(stops)
            == multiset(stops)[Completed] + multiset(stops)[Skipped] + multiset(stops)[StopStatus.Failed]
  {
    if stops != [] {
      var rest := stops[1..];
      assert stops == [stops[0]] + rest;
      CountsExactly(rest, status);
      CountsExactly(rest, Completed);
      CountsExactly(rest, Skipped);
      CountsExactly(rest, StopStatus.Failed);
    }
  }

  /** The changes that arrive, complete and skip make to one stop. */
  predicate StopMove(from: StopStatus, to: StopStatus) {
    || (from == Pending && to == Arrived)
    || (from == Arrived && to == Completed)
    || (from !in {Completed, Skipped} && to == Skipped)
  }

  function Stage(d: DerivedStatus): nat {
    match d case Scheduled => 0 case InProgress => 1 case Done => 2
  }

  /** A move of one stop never takes the derived status of its trip backwards, and never leaves it SCHEDULED. */
  lemma MovesGoForward(stops: seq<StopStatus>, i: nat, to: StopStatus)
    requires i < |stops| && StopMove(stops[i], to)
    ensures Stage(DeriveTripStatus(stops)) <= Stage(DeriveTripStatus(stops[i := to]))
    ensures DeriveTripStatus(stops[i := to]) != Scheduled
  {
    var after := stops[i := to];
    assert after[i] in after;
    if DeriveTripStatus(stops) == Done {
      forall s | s in after ensures s in RESOLVED_STATUSES {
        var j :| 0 <= j < |after| && after[j] == s;
        assert stops[j] in stops;
      }
    }
  }
}
