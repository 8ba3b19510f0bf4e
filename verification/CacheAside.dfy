/** The cache-aside read of one key: many readers, each of whose commands may be interleaved with the other readers',
  * with writes to the source the cached value is computed from, and with deletions of the key. */
module CacheAside {
  import opened Common

  /** The JSON text a value is stored as. */
  type Value = string

  /** A value of the source and the instant from which the source held it. */
  datatype Version = Version(value: Value, since: int)

  /** What Redis holds under the key. `readAt`, when the source was read for it, is for the statements below only. */
  datatype Entry = Entry(value: Value, readAt: int, filledAt: int)

  /** How far a reader has got; `askedAt` and `readAt` are kept for the statements below only. */
  datatype Phase =
    | Asking
    | Computing(askedAt: int)
    | Filling(value: Value, readAt: int, askedAt: int)
    | Returned(value: Value, askedAt: int)
    | Threw

  datatype State = State(now: int, source: seq<Version>, cache: Option<Entry>, readers: map<nat, Phase>)

  function Start(value: Value, now: int): State {
    State(now, [Version(value, now)], None, map[])
  }

  predicate WellFormed(s: State) {
    s.source != []
  }

  function Current(s: State): Value
    requires WellFormed(s)
  {
    s.source[|s.source| - 1].value
  }

  // ---- One command of one reader; anything not enabled changes nothing ----

  predicate Live(ttl: nat, s: State) {
    s.cache.Some? && s.now <= s.cache.value.filledAt + ttl
  }

  function Get(ttl: nat, s: State, r: nat, failed: bool): State {
    if r !in s.readers || s.readers[r] != Asking then s
    else if !failed && Live(ttl, s) then
      s.(readers := s.readers[r := Returned(s.cache.value.value, s.now)])
    else s.(readers := s.readers[r := Computing(s.now)])
  }

  function Compute(s: State, r: nat, failed: bool): State
    requires WellFormed(s)
  {
    if r !in s.readers || !s.readers[r].Computing? then s
    else if failed then s.(readers := s.readers[r := Threw])
    else s.(readers := s.readers[r := Filling(Current(s), s.now, s.readers[r].askedAt)])
  }

  /** A failed SET is logged only; the computed value is returned all the same. */
  function Fill(s: State, r: nat, failed: bool): State {
    if r !in s.readers || !s.readers[r].Filling? then s
    else
      var p := s.readers[r];
      var s' := s.(readers := s.readers[r := Returned(p.value, p.askedAt)]);
      if failed then s' else s'.(cache := Some(Entry(p.value, p.readAt, s.now)))
  }

  datatype Step =
    | Arrives(r: nat)
    | Gets(r: nat, failed: bool)
    | Computes(r: nat, failed: bool)
    | Fills(r: nat, failed: bool)
    | Writes(value: Value)
    | Deletes
    | Evicts
    | Tick(ms: nat)

  function Next(ttl: nat, s: State, step: Step): (s': State)
    requires WellFormed(s)
    ensures WellFormed(s')
  {
    match step
    case Arrives(r) => if r in s.readers then s else s.(readers := s.readers[r := Asking])
    case Gets(r, failed) => Get(ttl, s, r, failed)
    case Computes(r, failed) => Compute(s, r, failed)
    case Fills(r, failed) => Fill(s, r, failed)
    case Writes(value) => s.(source := s.source + [Version(value, s.now)])
    case Deletes => s.(cache := None)
    case Evicts => s.(cache := None)
    case Tick(ms) => s.(now := s.now + ms)
  }

  function Run(ttl: nat, s: State, steps: seq<Step>): (s': State)
    requires WellFormed(s)
    ensures WellFormed(s')
  {
    if steps == [] then s else Next(ttl, Run(ttl, s, steps[..|steps| - 1]), steps[|steps| - 1])
  }

  // ---- What each command does ----

  /** A reader is served from the cache if and only if the GET works and finds a value stored no longer ago than
    * the ttl; otherwise it goes on to compute. Either way nothing else changes. */
  lemma GetExactly(ttl: nat, s: State, r: nat, failed: bool)
    requires r in s.readers && s.readers[r] == Asking
    ensures Get(ttl, s, r, failed)
            == s.(readers := s.readers[r :=
                  if !failed && s.cache.Some? && s.now <= s.cache.value.filledAt + ttl then
                    Returned(s.cache.value.value, s.now)
                  else Computing(s.now)])
  {
  }

  /** A computation reads what the source holds at that instant, or throws to the caller. */
  lemma ComputeExactly(s: State, r: nat, failed: bool, askedAt: int)
    requires WellFormed(s) && r in s.readers && s.readers[r] == Computing(askedAt)
    ensures Compute(s, r, failed)
            == s.(readers := s.readers[r :=
                  if failed then Threw else Filling(s.source[|s.source| - 1].value, s.now, askedAt)])
  {
  }

  /** The computed value is returned, whether the SET works or not, and stored if it does. */
  lemma FillExactly(s: State, r: nat, failed: bool, value: Value, readAt: int, askedAt: int)
    requires r in s.readers && s.readers[r] == Filling(value, readAt, askedAt)
    ensures Fill(s, r, failed)
            == s.(readers := s.readers[r := Returned(value, askedAt)],
                  cache := if failed then s.cache else Some(Entry(value, readAt, s.now)))
  {
  }

  // ---- The service: one call on its own issues exactly these commands in this order ----

  class RedisCacheService {
    var now: int
    var cache: Option<Entry>

    constructor (now: int)
      ensures this.now == now && cache == None
    {
      this.now, cache := now, None;
    }

    /** The reader's view of what it shares, while the source holds `value`. */
    ghost function Seen(r: nat, p: Phase, value: Value): State
      reads this
    {
      State(now, [Version(value, now)], cache, map[r := p])
    }

    /** Deletion is a command of its own, and in a run anything may come before and after it. */
    method Del(ghost ttl: nat, ghost r: nat, ghost p: Phase, ghost value: Value)
      modifies this`cache
      ensures Seen(r, p, value) == Next(ttl, old(Seen(r, p, value)), Deletes)
    {
      cache := None;
    }

    /** `computed` is what the caller's computation yields, or the exception it throws. */
    method GetOrSet(ttl: nat, computed: Result<Value>, getFails: bool, setFails: bool, ghost r: nat, ghost value: Value)
      returns (result: Result<Value>)
      requires computed.Success? ==> value == computed.value
      modifies this`cache
      ensures var s := Get(ttl, old(Seen(r, Asking, value)), r, getFails);
              var s' := Fill(Compute(s, r, computed.Failure?), r, setFails);
              Seen(r, if result.Success? then Returned(result.value, now) else Threw, value) == s'
      ensures result.Failure? ==> result == computed
    {
      if !getFails {
        if cache.Some? && now <= cache.value.filledAt + ttl {
          return Success(cache.value.value);
        }
      }
      if computed.Failure? {
        return computed;
      }
      if !setFails {
        cache := Some(Entry(computed.value, now, now));
      }
      return computed;
    }
  }

  lemma Then(ttl: nat, s: State, steps: seq<Step>, step: Step) returns (more: seq<Step>)
    requires WellFormed(s)
    ensures more == steps + [step] && Run(ttl, s, more) == Next(ttl, Run(ttl, s, steps), step)
  {
    more := steps + [step];
    assert more[..|more| - 1] == steps;
  }

  // ---- Staleness ----

  ghost predicate HeldAt(source: seq<Version>, value: Value, t: int) {
    exists i :: 0 <= i < |source| && source[i].value == value && source[i].since <= t
      && (i + 1 < |source| ==> t <= source[i + 1].since)
  }

  /** Held by the source at some instant from `earliest` to `latest`. */
  ghost predicate HeldBetween(source: seq<Version>, value: Value, earliest: int, latest: int) {
    exists t :: earliest <= t <= latest && HeldAt(source, value, t)
  }

  /** Every SET comes within `delay` of the reading of the source it stores. */
  ghost predicate FillsWithin(ttl: nat, s: State, steps: seq<Step>, delay: nat)
    requires WellFormed(s)
  {
    steps == []
    || (FillsWithin(ttl, s, steps[..|steps| - 1], delay)
        && var before := Run(ttl, s, steps[..|steps| - 1]);
           match steps[|steps| - 1]
           case Fills(r, _) => r in before.readers && before.readers[r].Filling? ==>
             before.now <= before.readers[r].readAt + delay
           case _ => true)
  }

  ghost predicate PhaseInv(ttl: nat, s: State, delay: nat, p: Phase) {
    match p
    case Computing(askedAt) => askedAt <= s.now
    case Filling(value, readAt, askedAt) => askedAt <= readAt <= s.now && HeldAt(s.source, value, readAt)
    case Returned(value, askedAt) => askedAt <= s.now && HeldBetween(s.source, value, askedAt - ttl - delay, s.now)
    case _ => true
  }

  ghost predicate Inv(ttl: nat, s: State, delay: nat) {
    && WellFormed(s)
    && (forall i :: 0 <= i < |s.source| ==> s.source[i].since <= s.now)
    && (s.cache.Some? ==>
          var e := s.cache.value;
          e.filledAt - delay <= e.readAt <= e.filledAt <= s.now && HeldAt(s.source, e.value, e.readAt))
    && (forall r <- s.readers :: PhaseInv(ttl, s, delay, s.readers[r]))
  }

  lemma WriteKeepsHistory(source: seq<Version>, next: Version, value: Value, t: int)
    requires HeldAt(source, value, t) && t <= next.since
    ensures HeldAt(source + [next], value, t)
  {
    var i :| 0 <= i < |source| && source[i].value == value && source[i].since <= t
             && (i + 1 < |source| ==> t <= source[i + 1].since);
    var after := source + [next];
    assert after[i] == source[i] && (if i + 1 < |source| then after[i + 1] == source[i + 1] else after[i + 1] == next);
  }

  lemma WriteKeepsPhase(ttl: nat, s: State, s': State, delay: nat, value: Value, p: Phase)
    requires PhaseInv(ttl, s, delay, p) && s'.now == s.now && s'.source == s.source + [Version(value, s.now)]
    ensures PhaseInv(ttl, s', delay, p)
  {
    match p
    case Filling(v, readAt, _) => WriteKeepsHistory(s.source, Version(value, s.now), v, readAt);
    case Returned(v, askedAt) =>
      var t :| askedAt - ttl - delay <= t <= s.now && HeldAt(s.source, v, t);
      WriteKeepsHistory(s.source, Version(value, s.now), v, t);
    case _ =>
  }

  lemma TickKeepsPhase(ttl: nat, s: State, s': State, delay: nat, p: Phase)
    requires PhaseInv(ttl, s, delay, p) && s'.now >= s.now && s'.source == s.source
    ensures PhaseInv(ttl, s', delay, p)
  {
    hide HeldAt;
  }

  lemma HeldNow(s: State)
    requires WellFormed(s) && s.source[|s.source| - 1].since <= s.now
    ensures HeldAt(s.source, Current(s), s.now)
  {
  }

  lemma NextKeepsInv(ttl: nat, s: State, step: Step, delay: nat)
    requires Inv(ttl, s, delay)
    requires step.Fills? && step.r in s.readers && s.readers[step.r].Filling? ==>
               s.now <= s.readers[step.r].readAt + delay
    ensures Inv(ttl, Next(ttl, s, step), delay)
  {
    hide HeldAt;
    var s' := Next(ttl, s, step);
    HeldNow(s);
    if step.Writes? {
      forall r | r in s.readers ensures PhaseInv(ttl, s', delay, s.readers[r]) {
        WriteKeepsPhase(ttl, s, s', delay, step.value, s.readers[r]);
      }
      if s.cache.Some? {
        WriteKeepsHistory(s.source, Version(step.value, s.now), s.cache.value.value, s.cache.value.readAt);
      }
    } else {
      forall r | r in s.readers ensures PhaseInv(ttl, s', delay, s.readers[r]) {
        TickKeepsPhase(ttl, s, s', delay, s.readers[r]);
      }
    }
  }

  lemma {:induction false} RunKeepsInv(ttl: nat, value: Value, now: int, steps: seq<Step>, delay: nat)
    requires FillsWithin(ttl, Start(value, now), steps, delay)
    ensures Inv(ttl, Run(ttl, Start(value, now), steps), delay)
  {
    hide Inv, Next;
    if steps == [] {
      StartInv(ttl, value, now, delay);
    } else {
      var before := steps[..|steps| - 1];
      RunKeepsInv(ttl, value, now, before, delay);
      NextKeepsInv(ttl, Run(ttl, Start(value, now), before), steps[|steps| - 1], delay);
    }
  }

  lemma StartInv(ttl: nat, value: Value, now: int, delay: nat)
    ensures Inv(ttl, Start(value, now), delay)
  {
  }

  /** In any interleaving every value returned was held by the source at some instant no earlier than the time to live
    * plus the fill latency before the reader asked. */
  lemma StalenessIsBounded(ttl: nat, value: Value, now: int, steps: seq<Step>, delay: nat, r: nat)
    requires FillsWithin(ttl, Start(value, now), steps, delay)
    requires var s := Run(ttl, Start(value, now), steps); r in s.readers && s.readers[r].Returned?
    ensures var s := Run(ttl, Start(value, now), steps);
            HeldBetween(s.source, s.readers[r].value, s.readers[r].askedAt - ttl - delay, s.now)
  {
    RunKeepsInv(ttl, value, now, steps, delay);
  }

  // ---- What a fill is for ----

  /** Steps that leave the stored value in place. */
  predicate Leaves(step: Step) {
    match step
    case Fills(_, failed) => failed
    case Deletes => false
    case Evicts => false
    case _ => true
  }

  lemma {:induction false} StoredValueStays(ttl: nat, s: State, steps: seq<Step>)
    requires WellFormed(s) && forall i :: 0 <= i < |steps| ==> Leaves(steps[i])
    ensures Run(ttl, s, steps).cache == s.cache
  {
    if steps != [] {
      StoredValueStays(ttl, s, steps[..|steps| - 1]);
    }
  }

  /** Once a reader has stored its value, and until it is deleted, evicted or overwritten, whoever asks within the
    * ttl is given that value, without computing again. */
  lemma StoredValueIsServed(ttl: nat, s: State, r: nat, steps: seq<Step>, q: nat)
    requires WellFormed(s) && r in s.readers && s.readers[r].Filling?
    requires forall i :: 0 <= i < |steps| ==> Leaves(steps[i])
    requires var s' := Run(ttl, Fill(s, r, false), steps);
             q in s'.readers && s'.readers[q] == Asking && s'.now <= s.now + ttl
    ensures var s' := Run(ttl, Fill(s, r, false), steps);
            Get(ttl, s', q, false).readers[q] == Returned(s.readers[r].value, s'.now)
  {
    StoredValueStays(ttl, Fill(s, r, false), steps);
  }

  // ---- After a deletion ----

  predicate NoWrites(steps: seq<Step>) {
    forall i :: 0 <= i < |steps| ==> !steps[i].Writes?
  }

  /** Readers that come after s are served the value the source holds at s. */
  ghost predicate ServesCurrent(ttl: nat, s: State, steps: seq<Step>)
    requires WellFormed(s)
  {
    var s' := Run(ttl, s, steps);
    forall r <- s'.readers :: r !in s.readers && s'.readers[r].Returned? ==> s'.readers[r].value == Current(s)
  }

  predicate StaleFill(s: State, p: Phase)
    requires WellFormed(s)
  {
    p.Filling? && p.value != Current(s)
  }

  predicate StaleFillInFlight(s: State)
    requires WellFormed(s)
  {
    exists r <- s.readers :: StaleFill(s, s.readers[r])
  }

  predicate NothingStale(s0: State, s: State)
    requires WellFormed(s0) && WellFormed(s)
  {
    && Current(s) == Current(s0)
    && (s.cache.Some? ==> s.cache.value.value == Current(s))
    && !StaleFillInFlight(s)
    && (forall r <- s0.readers :: r in s.readers)
    && (forall r <- s.readers :: r !in s0.readers && s.readers[r].Returned? ==> s.readers[r].value == Current(s))
  }

  lemma NextKeepsNothingStale(ttl: nat, s0: State, s: State, step: Step)
    requires WellFormed(s0) && WellFormed(s) && NothingStale(s0, s) && !step.Writes?
    ensures NothingStale(s0, Next(ttl, s, step))
  {
    var s' := Next(ttl, s, step);
    assert Current(s') == Current(s);
    forall r | r in s'.readers ensures !StaleFill(s', s'.readers[r]) {
      assert r in s.readers ==> !StaleFill(s, s.readers[r]);
    }
  }

  lemma {:induction false} RunKeepsNothingStale(ttl: nat, s: State, steps: seq<Step>)
    requires WellFormed(s) && s.cache == None && !StaleFillInFlight(s) && NoWrites(steps)
    ensures NothingStale(s, Run(ttl, s, steps))
  {
    if steps != [] {
      RunKeepsNothingStale(ttl, s, steps[..|steps| - 1]);
      NextKeepsNothingStale(ttl, s, Run(ttl, s, steps[..|steps| - 1]), steps[|steps| - 1]);
    }
  }

  /** The stale fill goes through and the next reader is served from it. */
  lemma StaleFillIsServed(ttl: nat, s: State, r: nat, q: nat) returns (steps: seq<Step>)
    requires WellFormed(s) && r in s.readers && StaleFill(s, s.readers[r]) && q !in s.readers
    ensures NoWrites(steps) && !ServesCurrent(ttl, s, steps)
  {
    assert Run(ttl, s, []) == s;
    hide Run;
    steps := Then(ttl, s, [], Fills(r, false));
    steps := Then(ttl, s, steps, Arrives(q));
    steps := Then(ttl, s, steps, Gets(q, false));
    var s' := Run(ttl, s, steps);
    assert s'.readers[q].Returned? && s'.readers[q].value != Current(s);
  }

  /** Right after the key was deleted: as long as the source is not written again, whatever else happens, every reader
    * that comes from now on is served the current value if and only if no reader still holds an older one to store. */
  lemma DeletionMakesReadsCurrentExactly(ttl: nat, s: State)
    requires WellFormed(s) && s.cache == None
    ensures (forall steps :: NoWrites(steps) ==> ServesCurrent(ttl, s, steps)) <==> !StaleFillInFlight(s)
  {
    if !StaleFillInFlight(s) {
      forall steps | NoWrites(steps) ensures ServesCurrent(ttl, s, steps) {
        RunKeepsNothingStale(ttl, s, steps);
      }
    } else {
      var r :| r in s.readers && StaleFill(s, s.readers[r]);
      var q := Unused(s.readers.Keys);
      var steps := StaleFillIsServed(ttl, s, r, q);
    }
  }

  lemma {:induction false} Unused(used: set<nat>) returns (q: nat)
    ensures q !in used && forall x <- used :: x < q
  {
    if used == {} {
      q := 0;
    } else {
      var x :| x in used;
      var p := Unused(used - {x});
      q := if x < p then p else x + 1;
      assert forall y <- used :: y == x || y in used - {x};
    }
  }

  function Holding(was: Value): State {
    Start(was, 0).(readers := map[0 := Filling(was, 0, 0)])
  }

  lemma ReaderHolds(ttl: nat, was: Value) returns (steps: seq<Step>)
    ensures |steps| == 3 && Run(ttl, Start(was, 0), steps) == Holding(was)
  {
    var s := Start(was, 0);
    assert Run(ttl, s, []) == s;
    hide Run;
    steps := Then(ttl, s, [], Arrives(0));
    steps := Then(ttl, s, steps, Gets(0, false));
    steps := Then(ttl, s, steps, Computes(0, false));
  }

  /** Saving and then deleting does not rule that out: for any two values and any time span n there is a run in which a
    * reader that asks n after the deletion is given the value from before the save. */
  lemma SlowFillRevivesOldValue(ttl: nat, was: Value, saved: Value, n: nat) returns (steps: seq<Step>)
    ensures var s := Run(ttl, Start(was, 0), steps);
            && 1 in s.readers && s.readers[1] == Returned(was, n)
            && s.source == [Version(was, 0), Version(saved, 0)] && s.now == n
    ensures |steps| > 5 && steps[3] == Writes(saved) && steps[4] == Deletes
  {
    hide Run;
    var s := Start(was, 0);
    steps := ReaderHolds(ttl, was);
    steps := Then(ttl, s, steps, Writes(saved));
    steps := Then(ttl, s, steps, Deletes);
    steps := Then(ttl, s, steps, Tick(n));
    steps := Then(ttl, s, steps, Fills(0, false));
    steps := Then(ttl, s, steps, Arrives(1));
    steps := Then(ttl, s, steps, Gets(1, false));
  }
}
