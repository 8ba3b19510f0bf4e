/** The limiter in front of Radar's API: one counter per second of the wall clock, shared by all server instances. */
module RadarLimiter {
  import opened Common

  datatype Counter = Counter(count: Positive, expiresAt: int)

  /** A caller that has read the clock holds the key it computed until it runs the script. */
  datatype Phase = Holding(key: int) | Answered(allowed: bool)

  /** Who ran the script when, for which key, and what the counter then read. */
  datatype Hit = Hit(request: nat, key: int, at: int, count: Positive)

  datatype State = State(now: int, counters: map<int, Counter>, requests: map<nat, Phase>, hits: seq<Hit>)

  function Fresh(now: int): State {
    State(now, map[], map[], [])
  }

  datatype Step =
    | ReadsClock(r: nat)
    | RunsScript(r: nat)
    | Expires(key: int)
    | Tick(ms: nat)

  function ReadClock(s: State, r: nat): State {
    if r in s.requests then s else s.(requests := s.requests[r := Holding(s.now / 1000)])
  }

  /** INCR of the key, PEXPIRE after a second when it is new, and the answer. */
  function RunScript(limit: nat, s: State, r: nat): State {
    if r in s.requests && s.requests[r].Holding? then
      var key := s.requests[r].key;
      var k := if key in s.counters then s.counters[key].(count := s.counters[key].count + 1)
               else Counter(1, s.now + 1000);
      s.(counters := s.counters[key := k],
         requests := s.requests[r := Answered(k.count <= limit)],
         hits := s.hits + [Hit(r, key, s.now, k.count)])
    else s
  }

  function Drop(s: State, key: int): State {
    if key in s.counters && s.counters[key].expiresAt <= s.now then s.(counters := s.counters - {key}) else s
  }

  function Next(limit: nat, s: State, step: Step): State {
    match step
    case ReadsClock(r) => ReadClock(s, r)
    case RunsScript(r) => RunScript(limit, s, r)
    case Expires(key) => Drop(s, key)
    case Tick(ms) => s.(now := s.now + ms)
  }

  function Run(limit: nat, s: State, steps: seq<Step>): State {
    if steps == [] then s else Next(limit, Run(limit, s, steps[..|steps| - 1]), steps[|steps| - 1])
  }

  // ---- The class: one call on its own reads the clock and runs the script ----

  class RadarRateLimiter {
    const limitPerSecond: nat
    var now: int
    var counters: map<int, Counter>

    constructor (limitPerSecond: nat, now: int)
      ensures this.limitPerSecond == limitPerSecond && this.now == now && counters == map[]
    {
      this.limitPerSecond, this.now, counters := limitPerSecond, now, map[];
    }

    method TryAcquire(ghost r: nat) returns (allowed: bool)
      modifies this`counters
      ensures var s := RunScript(limitPerSecond, ReadClock(State(now, old(counters), map[], []), r), r);
              counters == s.counters && s.requests == map[r := Answered(allowed)]
    {
      var key := now / 1000;
      var current: Positive := 1;
      var expiresAt := now;
      if key in counters {
        current := counters[key].count + 1;
        expiresAt := counters[key].expiresAt;
      }
      if current == 1 {
        expiresAt := now + 1000;
      }
      counters := counters[key := Counter(current, expiresAt)];
      allowed := current <= limitPerSecond;
    }
  }

  // ---- What each command does ----

  /** A caller computes its key from the clock as it reads it. */
  lemma ReadClockExactly(s: State, r: nat)
    requires r !in s.requests
    ensures var s' := ReadClock(s, r);
            && s'.counters == s.counters && s'.hits == s.hits && s'.now == s.now
            && s'.requests.Keys == s.requests.Keys + {r} && (forall q <- s.requests :: s'.requests[q] == s.requests[q])
            && s'.requests[r].Holding? && 1000 * s'.requests[r].key <= s.now < 1000 * (s'.requests[r].key + 1)
  {
  }

  /** The counter goes up by one and keeps its expiry, or begins at one and lasts for a second; the call is allowed
    * if and only if the count is within the limit. */
  lemma RunScriptExactly(limit: nat, s: State, r: nat, key: int)
    requires r in s.requests && s.requests[r] == Holding(key)
    ensures var s' := RunScript(limit, s, r);
            var count := if key in s.counters then s.counters[key].count + 1 else 1;
            && s'.counters == s.counters[key := Counter(count, if key in s.counters then s.counters[key].expiresAt
                                                               else s.now + 1000)]
            && s'.requests == s.requests[r := Answered(count <= limit)]
            && s'.hits == s.hits + [Hit(r, key, s.now, count)] && s'.now == s.now
  {
  }

  // ---- What every run keeps, late scripts included ----

  ghost predicate AnswersInv(limit: nat, s: State) {
    && (forall i :: 0 <= i < |s.hits| ==>
          s.hits[i].request in s.requests && s.requests[s.hits[i].request] == Answered(s.hits[i].count <= limit))
    && (forall i, j :: 0 <= i < j < |s.hits| ==> s.hits[i].request != s.hits[j].request)
  }

  /** Nobody holds, counts or has hit a key of the future, and no counter expires within the second of its key. */
  ghost predicate ClockInv(s: State) {
    && (forall r <- s.requests :: s.requests[r].Holding? ==> 1000 * s.requests[r].key <= s.now)
    && (forall key <- s.counters :: 1000 * key <= s.now && s.counters[key].expiresAt >= 1000 * (key + 1))
    && (forall i :: 0 <= i < |s.hits| ==> 1000 * s.hits[i].key <= s.hits[i].at <= s.now)
  }

  lemma NextKeepsInv(limit: nat, s: State, step: Step)
    requires AnswersInv(limit, s) && ClockInv(s)
    ensures AnswersInv(limit, Next(limit, s, step)) && ClockInv(Next(limit, s, step))
  {
  }

  lemma {:induction false} RunKeepsInv(limit: nat, now: int, steps: seq<Step>)
    ensures AnswersInv(limit, Run(limit, Fresh(now), steps)) && ClockInv(Run(limit, Fresh(now), steps))
  {
    hide Next;
    if steps != [] {
      var before := steps[..|steps| - 1];
      RunKeepsInv(limit, now, before);
      NextKeepsInv(limit, Run(limit, Fresh(now), before), steps[|steps| - 1]);
    }
  }

  // ---- What one second of the clock lets through ----

  predicate Allowed(s: State, r: nat) {
    r in s.requests && s.requests[r] == Answered(true)
  }

  /** The hits of allowed calls in the second that begins at 1000 * second. */
  ghost function AllowedIn(s: State, second: int): set<nat> {
    set i: nat | i < |s.hits| && s.hits[i].at / 1000 == second && Allowed(s, s.hits[i].request)
  }

  /** The hits of that second on its own key. */
  ghost function OnTime(s: State, second: int): set<nat> {
    set i: nat | i < |s.hits| && s.hits[i].at / 1000 == second && s.hits[i].key == second
  }

  /** The hits of allowed calls in that second that came late, with the key of an earlier one. */
  ghost function LateAllowed(s: State, second: int): set<nat> {
    set i: nat |
      i < |s.hits| && s.hits[i].at / 1000 == second && s.hits[i].key != second && Allowed(s, s.hits[i].request)
  }

  ghost function OnTimeWithin(limit: nat, s: State, second: int): set<nat> {
    set i: nat | i < |s.hits| && s.hits[i].at / 1000 == second && s.hits[i].key == second && s.hits[i].count <= limit
  }

  function Min(a: int, b: int): int {
    if a < b then a else b
  }

  /** In its second a key counts exactly its hits, so that the first `limit` of them are the ones within the limit. */
  ghost predicate SecondInv(limit: nat, s: State, second: int) {
    && |OnTimeWithin(limit, s, second)| == Min(limit, |OnTime(s, second)|)
    && (second == s.now / 1000 ==>
          |OnTime(s, second)| == if second in s.counters then s.counters[second].count else 0)
  }

  /** One more hit adds itself to the sets it belongs to. */
  lemma OneMoreHit(limit: nat, s: State, s': State, second: int, hit: Hit)
    requires s'.hits == s.hits + [hit]
    ensures var onTime := hit.at / 1000 == second && hit.key == second;
            && |OnTime(s', second)| == |OnTime(s, second)| + (if onTime then 1 else 0)
            && |OnTimeWithin(limit, s', second)|
               == |OnTimeWithin(limit, s, second)| + (if onTime && hit.count <= limit then 1 else 0)
  {
    var (n, onTime) := (|s.hits|, hit.at / 1000 == second && hit.key == second);
    assert OnTime(s', second) == OnTime(s, second) + if onTime then {n} else {};
    assert OnTimeWithin(limit, s', second)
        == OnTimeWithin(limit, s, second) + if onTime && hit.count <= limit then {n} else {};
  }

  lemma ScriptKeepsSecondInv(limit: nat, s: State, r: nat, second: int)
    requires ClockInv(s) && SecondInv(limit, s, second)
    ensures SecondInv(limit, RunScript(limit, s, r), second)
  {
    hide OnTime, OnTimeWithin, ClockInv;
    var s' := RunScript(limit, s, r);
    if r in s.requests && s.requests[r].Holding? {
      OneMoreHit(limit, s, s', second, s'.hits[|s.hits|]);
    }
  }

  lemma TickKeepsSecondInv(limit: nat, s: State, ms: nat, second: int)
    requires ClockInv(s) && SecondInv(limit, s, second)
    ensures SecondInv(limit, s.(now := s.now + ms), second)
  {
    var s' := s.(now := s.now + ms);
    assert OnTime(s', second) == OnTime(s, second);
    assert OnTimeWithin(limit, s', second) == OnTimeWithin(limit, s, second);
    if second == s'.now / 1000 && second != s.now / 1000 {
      assert OnTime(s, second) == {};
    }
  }

  lemma NextKeepsSecondInv(limit: nat, s: State, step: Step, second: int)
    requires ClockInv(s) && SecondInv(limit, s, second)
    ensures SecondInv(limit, Next(limit, s, step), second)
  {
    match step
    case RunsScript(r) => ScriptKeepsSecondInv(limit, s, r, second);
    case Tick(ms) => TickKeepsSecondInv(limit, s, ms, second);
    case _ =>
      var s' := Next(limit, s, step);
      assert OnTime(s', second) == OnTime(s, second);
      assert OnTimeWithin(limit, s', second) == OnTimeWithin(limit, s, second);
  }

  lemma {:induction false} RunKeepsSecondInv(limit: nat, now: int, steps: seq<Step>, second: int)
    ensures SecondInv(limit, Run(limit, Fresh(now), steps), second)
  {
    hide Next, ClockInv, AnswersInv;
    if steps == [] {
      assert OnTime(Fresh(now), second) == {} && OnTimeWithin(limit, Fresh(now), second) == {};
    } else {
      hide SecondInv;
      var before := steps[..|steps| - 1];
      RunKeepsInv(limit, now, before);
      RunKeepsSecondInv(limit, now, before, second);
      NextKeepsSecondInv(limit, Run(limit, Fresh(now), before), steps[|steps| - 1], second);
    }
  }

  /** In every interleaving, what a second lets through is its own key's hits up to the limit, and every late call on
    * top of them. */
  lemma AllowedInSecondExactly(limit: nat, now: int, steps: seq<Step>, second: int)
    ensures var s := Run(limit, Fresh(now), steps);
            |AllowedIn(s, second)| == Min(limit, |OnTime(s, second)|) + |LateAllowed(s, second)|
  {
    RunKeepsInv(limit, now, steps);
    RunKeepsSecondInv(limit, now, steps, second);
    var s := Run(limit, Fresh(now), steps);
    hide Run, ClockInv;
    var (onTime, late) := (OnTimeWithin(limit, s, second), LateAllowed(s, second));
    assert AllowedIn(s, second) == onTime + late;
    assert onTime !! late;
  }

  /** So a second keeps the limit if and only if its late calls fit into what its own calls have left of it. */
  lemma SecondKeepsLimitExactly(limit: nat, now: int, steps: seq<Step>, second: int)
    ensures var s := Run(limit, Fresh(now), steps);
            && (|AllowedIn(s, second)| <= limit <==>
                  |LateAllowed(s, second)| <= Max(0, limit - |OnTime(s, second)|))
            && |AllowedIn(s, second)| <= limit + |LateAllowed(s, second)|
  {
    AllowedInSecondExactly(limit, now, steps, second);
  }

  // ---- Prompt seconds ----

  /** Every script that ran in that second ran on its own key; what happened in other seconds does not matter. */
  ghost predicate NothingLateIn(s: State, second: int) {
    forall i :: 0 <= i < |s.hits| && s.hits[i].at / 1000 == second ==> s.hits[i].key == second
  }

  lemma PromptSecondKeepsTheLimit(limit: nat, now: int, steps: seq<Step>, second: int)
    requires NothingLateIn(Run(limit, Fresh(now), steps), second)
    ensures |AllowedIn(Run(limit, Fresh(now), steps), second)| <= limit
  {
    AllowedInSecondExactly(limit, now, steps, second);
    assert LateAllowed(Run(limit, Fresh(now), steps), second) == {};
  }

  /** ... and over two prompt seconds no time span of a second, wherever it begins, sees more than twice the limit. */
  lemma PromptSpanKeepsTwiceTheLimit(limit: nat, now: int, steps: seq<Step>, a: int)
    requires NothingLateIn(Run(limit, Fresh(now), steps), a / 1000)
    requires NothingLateIn(Run(limit, Fresh(now), steps), a / 1000 + 1)
    ensures var s := Run(limit, Fresh(now), steps);
            |set i: nat | i < |s.hits| && a <= s.hits[i].at < a + 1000 && Allowed(s, s.hits[i].request)| <= 2 * limit
  {
    PromptSecondKeepsTheLimit(limit, now, steps, a / 1000);
    PromptSecondKeepsTheLimit(limit, now, steps, a / 1000 + 1);
    var s := Run(limit, Fresh(now), steps);
    hide Run, Allowed;
    var (first, next) := (AllowedIn(s, a / 1000), AllowedIn(s, a / 1000 + 1));
    var span := set i: nat | i < |s.hits| && a <= s.hits[i].at < a + 1000 && Allowed(s, s.hits[i].request);
    assert span <= first + next;
    SubsetSize(span, first + next);
  }

  predicate LateAt(s: State, step: Step) {
    step.RunsScript? && step.r in s.requests && s.requests[step.r].Holding? && s.requests[step.r].key != s.now / 1000
  }

  /** Every script of the run runs within the second of the clock reading its key came from. */
  predicate Prompt(limit: nat, s: State, steps: seq<Step>) {
    steps == []
    || (Prompt(limit, s, steps[..|steps| - 1])
        && !LateAt(Run(limit, s, steps[..|steps| - 1]), steps[|steps| - 1]))
  }

  lemma {:induction false} PromptRunHasNothingLate(limit: nat, now: int, steps: seq<Step>, second: int)
    requires Prompt(limit, Fresh(now), steps)
    ensures NothingLateIn(Run(limit, Fresh(now), steps), second)
  {
    if steps != [] {
      PromptRunHasNothingLate(limit, now, steps[..|steps| - 1], second);
    }
  }

  /** When no script of the run is late, this holds of every second and every span. */
  lemma PromptRunsKeepTheLimit(limit: nat, now: int, steps: seq<Step>, second: int, a: int)
    requires Prompt(limit, Fresh(now), steps)
    ensures var s := Run(limit, Fresh(now), steps);
            && |AllowedIn(s, second)| <= limit
            && |set i: nat | i < |s.hits| && a <= s.hits[i].at < a + 1000 && Allowed(s, s.hits[i].request)| <= 2 * limit
  {
    PromptRunHasNothingLate(limit, now, steps, second);
    PromptRunHasNothingLate(limit, now, steps, a / 1000);
    PromptRunHasNothingLate(limit, now, steps, a / 1000 + 1);
    PromptSecondKeepsTheLimit(limit, now, steps, second);
    PromptSpanKeepsTwiceTheLimit(limit, now, steps, a);
  }

  // ---- How the limit is passed ----

  /** The caller holds a key under which another call fits. */
  predicate HasRoom(limit: nat, s: State, r: nat) {
    && r in s.requests && s.requests[r].Holding? && limit > 0
    && (s.requests[r].key in s.counters ==> s.counters[s.requests[r].key].count < limit)
  }

  lemma ScriptAddsItsCall(limit: nat, s: State, r: nat)
    requires AnswersInv(limit, s)
    ensures |AllowedIn(RunScript(limit, s, r), s.now / 1000)|
            == |AllowedIn(s, s.now / 1000)| + (if HasRoom(limit, s, r) then 1 else 0)
  {
    var (s', n, second) := (RunScript(limit, s, r), |s.hits|, s.now / 1000);
    if r in s.requests && s.requests[r].Holding? {
      forall i: nat | i < n ensures s'.hits[i] == s.hits[i] && s.hits[i].request != r {
        assert s.requests[s.hits[i].request].Answered?;
      }
      assert Allowed(s', r) <==> HasRoom(limit, s, r);
      hide AnswersInv, HasRoom, RunScript;
      assert AllowedIn(s', second) == AllowedIn(s, second) + if Allowed(s', r) then {n} else {};
    }
  }

  /** The next script adds a call to its second if and only if its key has room: a full second lets one too many
    * through exactly then. */
  lemma NextScriptIsAllowedExactly(limit: nat, now: int, steps: seq<Step>, r: nat)
    ensures var (s, s') := (Run(limit, Fresh(now), steps), Run(limit, Fresh(now), steps + [RunsScript(r)]));
            && |AllowedIn(s', s.now / 1000)| == |AllowedIn(s, s.now / 1000)| + (if HasRoom(limit, s, r) then 1 else 0)
            && (|AllowedIn(s, s.now / 1000)| == limit ==>
                  (|AllowedIn(s', s.now / 1000)| == limit + 1 <==> HasRoom(limit, s, r)))
  {
    var s := Run(limit, Fresh(now), steps);
    RunKeepsInv(limit, now, steps);
    assert (steps + [RunsScript(r)])[..|steps|] == steps;
    hide Run, ClockInv;
    ScriptAddsItsCall(limit, s, r);
  }

  // ---- Late scripts let any number of calls through in one second ----

  lemma Then(limit: nat, s: State, steps: seq<Step>, step: Step) returns (more: seq<Step>)
    ensures Run(limit, s, more) == Next(limit, Run(limit, s, steps), step)
  {
    more := steps + [step];
    assert more[..|more| - 1] == steps;
  }

  /** The second in which the r-th caller reads the clock, and its place among the callers of that second. */
  function Seat(limit: nat, r: nat): (seat: (int, int))
    requires limit > 0
    ensures seat.0 >= 0 && 1 <= seat.1 <= limit
  {
    if r == 0 then (0, 1)
    else
      var (second, place) := Seat(limit, r - 1);
      if place < limit then (second, place + 1) else (second + 1, 1)
  }

  ghost predicate Queue(limit: nat, requests: map<nat, Phase>, n: nat)
    requires limit > 0
  {
    && (forall r :: r in requests <==> 0 <= r < n)
    && (forall r :: r in requests ==> requests[r] == Holding(Seat(limit, r).0))
  }

  /** The first n callers have read the clock, `limit` of them in each second, and wait. */
  ghost predicate Waiting(limit: nat, s: State, n: nat)
    requires limit > 0
  {
    && s.now == (if n == 0 then 0 else 1000 * Seat(limit, n - 1).0)
    && (forall key :: key !in s.counters)
    && s.hits == []
    && Queue(limit, s.requests, n)
  }

  lemma OneMoreInQueue(limit: nat, requests: map<nat, Phase>, n: nat)
    requires limit > 0 && Queue(limit, requests, n)
    ensures n !in requests && Queue(limit, requests[n := Holding(Seat(limit, n).0)], n + 1)
  {
    hide Seat;
  }

  lemma SeatsInOrder(limit: nat, n: nat)
    requires limit > 0
    ensures n > 0 ==> Seat(limit, n - 1).0 <= Seat(limit, n).0
  {
  }

  lemma {:induction false} CallersWait(limit: nat, n: nat) returns (steps: seq<Step>)
    requires limit > 0
    ensures Waiting(limit, Run(limit, Fresh(0), steps), n)
  {
    if n == 0 {
      steps := [];
      assert Queue(limit, Fresh(0).requests, 0);
    } else {
      steps := CallersWait(limit, n - 1);
      hide Run, Seat, Queue, RunScript, Drop;
      var s := Run(limit, Fresh(0), steps);
      SeatsInOrder(limit, n - 1);
      OneMoreInQueue(limit, s.requests, n - 1);
      steps := Then(limit, Fresh(0), steps, Tick(1000 * Seat(limit, n - 1).0 - s.now));
      steps := Then(limit, Fresh(0), steps, ReadsClock(n - 1));
    }
  }

  /** The first j of n waiting callers have run their scripts, all in the present second, and all were allowed. */
  ghost predicate Served(limit: nat, s: State, n: nat, j: nat)
    requires limit > 0
  {
    && j <= n && |s.hits| == j
    && (forall r :: r in s.requests <==> 0 <= r < n)
    && (forall r: nat :: j <= r < n ==> s.requests[r] == Holding(Seat(limit, r).0))
    && (forall i :: 0 <= i < j ==> s.hits[i].at == s.now && s.hits[i].request == i && s.requests[i] == Answered(true))
    && (forall key <- s.counters ::
          key <= Seat(limit, j).0 && (key == Seat(limit, j).0 ==> s.counters[key].count < Seat(limit, j).1))
  }

  lemma ServeNext(limit: nat, s: State, n: nat, j: nat)
    requires limit > 0 && Served(limit, s, n, j) && j < n
    ensures Served(limit, RunScript(limit, s, j), n, j + 1)
  {
    var s' := RunScript(limit, s, j);
    assert forall i :: 0 <= i < j ==> s'.hits[i] == s.hits[i];
  }

  lemma WaitingIsServed(limit: nat, s: State, n: nat)
    requires limit > 0 && Waiting(limit, s, n)
    ensures Served(limit, s, n, 0)
  {
  }

  lemma {:induction false} ServeAll(limit: nat, n: nat, waiting: seq<Step>, j: nat) returns (steps: seq<Step>)
    requires limit > 0 && j <= n && Waiting(limit, Run(limit, Fresh(0), waiting), n)
    ensures Served(limit, Run(limit, Fresh(0), steps), n, j)
  {
    hide Run, Served, Waiting, RunScript;
    if j == 0 {
      steps := waiting;
      WaitingIsServed(limit, Run(limit, Fresh(0), waiting), n);
    } else {
      steps := ServeAll(limit, n, waiting, j - 1);
      ServeNext(limit, Run(limit, Fresh(0), steps), n, j - 1);
      steps := Then(limit, Fresh(0), steps, RunsScript(j - 1));
    }
  }

  /** However many calls one asks for and whatever the limit, there is a run that lets them through in one instant. */
  lemma LateScriptsPassAnyLimit(limit: nat, n: nat) returns (steps: seq<Step>)
    requires limit > 0
    ensures var s := Run(limit, Fresh(0), steps);
            |AllowedIn(s, s.now / 1000)| == n && forall i :: 0 <= i < |s.hits| ==> s.hits[i].at == s.now
  {
    steps := CallersWait(limit, n);
    steps := ServeAll(limit, n, steps, n);
    var s := Run(limit, Fresh(0), steps);
    assert AllowedIn(s, s.now / 1000) == Range(0, n);
  }

  ghost predicate KeepsTheLimit(limit: nat, now: int, steps: seq<Step>) {
    forall second :: |AllowedIn(Run(limit, Fresh(now), steps), second)| <= limit
  }

  /** The limit per second holds of every run only where nothing is ever allowed. */
  lemma LimitHoldsOfAllRunsExactly(limit: nat)
    ensures (forall now, steps :: KeepsTheLimit(limit, now, steps)) <==> limit == 0
  {
    if limit == 0 {
      forall now, steps ensures KeepsTheLimit(limit, now, steps) {
        forall second ensures |AllowedIn(Run(limit, Fresh(now), steps), second)| <= limit {
          RunKeepsInv(limit, now, steps);
          assert AllowedIn(Run(limit, Fresh(now), steps), second) == {};
        }
      }
    } else {
      var steps := LateScriptsPassAnyLimit(limit, limit + 1);
      var s := Run(limit, Fresh(0), steps);
      assert !(|AllowedIn(s, s.now / 1000)| <= limit);
      assert !KeepsTheLimit(limit, 0, steps);
    }
  }
}
