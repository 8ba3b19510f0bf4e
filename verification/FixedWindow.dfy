/** The request throttle shared by all server instances: a counter key and a block key in Redis, and any number of
  * requests on the same key, each of whose Redis commands may be interleaved with everyone else's. */
module FixedWindow {
  import opened Common

  /** What a throttled route is configured with; times are in milliseconds. */
  datatype Config = Config(ttl: int, limit: nat, blockDuration: int)

  datatype Record = Record(totalHits: int, timeToExpire: int, isBlocked: bool, timeToBlockExpire: int)

  /** The next command a request will issue, with what it has learnt so far. */
  datatype Phase =
    | Checking
    | Counting
    | Measuring(hits: int)
    | Deciding(hits: int, timeToExpire: int)
    | Returned(record: Record)

  datatype Counter = Counter(count: Positive, expiresAt: int)

  /** Who incremented the counter when, and what it then read. Kept for the statements below only. */
  datatype Hit = Hit(request: nat, at: int, count: nat)

  datatype State = State(
    now: int,
    counter: Option<Counter>,
    blockedUntil: Option<int>,
    requests: map<nat, Phase>,
    hits: seq<Hit>)

  function Fresh(now: int): State {
    State(now, None, None, map[], [])
  }

  /** The least number of whole seconds that is no less. */
  function CeilSeconds(ms: int): (seconds: int)
    requires ms >= 0
    ensures 1000 * (seconds - 1) < ms <= 1000 * seconds
  {
    (ms + 999) / 1000
  }

  // ---- One Redis command of one request; anything not enabled changes nothing ----

  predicate At(s: State, r: nat, p: Phase) {
    r in s.requests && s.requests[r] == p
  }

  function Arrive(s: State, r: nat): State {
    if r in s.requests then s else s.(requests := s.requests[r := Checking])
  }

  /** PTTL of the block key. */
  function CheckBlock(c: Config, s: State, r: nat): State {
    if !At(s, r, Checking) then s
    else if s.blockedUntil.Some? && s.blockedUntil.value - s.now > 0 then
      s.(requests :=
         s.requests[r := Returned(Record(c.limit + 1, 0, true, CeilSeconds(s.blockedUntil.value - s.now)))])
    else s.(requests := s.requests[r := Counting])
  }

  /** The script: INCR, and PEXPIRE when the counter is new, as one command. */
  function Increment(c: Config, s: State, r: nat): State {
    if !At(s, r, Counting) then s
    else
      var k := if s.counter.Some? then s.counter.value.(count := s.counter.value.count + 1)
               else Counter(1, s.now + c.ttl);
      s.(counter := Some(k), requests := s.requests[r := Measuring(k.count)], hits := s.hits + [Hit(r, s.now, k.count)])
  }

  /** PTTL of the counter key, which may be gone by now. */
  function Measure(s: State, r: nat): State {
    if r in s.requests && s.requests[r].Measuring? then
      var pttl := if s.counter.Some? then s.counter.value.expiresAt - s.now else -2;
      s.(requests := s.requests[r := Deciding(s.requests[r].hits, CeilSeconds(Max(pttl, 0)))])
    else s
  }

  /** The answer, after SET of the block key where the limit is exceeded and blocking is on. */
  function Decide(c: Config, s: State, r: nat): State {
    if r in s.requests && s.requests[r].Deciding? then
      var (hits, timeToExpire) := (s.requests[r].hits, s.requests[r].timeToExpire);
      if hits > c.limit && c.blockDuration > 0 then
        s.(blockedUntil := Some(s.now + c.blockDuration),
           requests := s.requests[r := Returned(Record(hits, timeToExpire, true, CeilSeconds(c.blockDuration)))])
      else s.(requests := s.requests[r := Returned(Record(hits, timeToExpire, hits > c.limit, 0))])
    else s
  }

  // ---- Time ----

  /** A key may vanish from the instant its time is up; until then it may not. */
  function DropCounter(s: State): State {
    if s.counter.Some? && s.counter.value.expiresAt <= s.now then s.(counter := None) else s
  }

  function DropBlock(s: State): State {
    if s.blockedUntil.Some? && s.blockedUntil.value <= s.now then s.(blockedUntil := None) else s
  }

  datatype Step =
    | Arrives(r: nat)
    | ChecksBlock(r: nat)
    | Increments(r: nat)
    | Measures(r: nat)
    | Decides(r: nat)
    | CounterExpires
    | BlockExpires
    | Tick(ms: nat)

  function Next(c: Config, s: State, step: Step): State {
    match step
    case Arrives(r) => Arrive(s, r)
    case ChecksBlock(r) => CheckBlock(c, s, r)
    case Increments(r) => Increment(c, s, r)
    case Measures(r) => Measure(s, r)
    case Decides(r) => Decide(c, s, r)
    case CounterExpires => DropCounter(s)
    case BlockExpires => DropBlock(s)
    case Tick(ms) => s.(now := s.now + ms)
  }

  function Run(c: Config, s: State, steps: seq<Step>): State {
    if steps == [] then s else Next(c, Run(c, s, steps[..|steps| - 1]), steps[|steps| - 1])
  }

  // ---- The storage class: one call on its own issues exactly these commands in this order ----

  class RedisThrottlerStorage {
    var now: int
    var counter: Option<Counter>
    var blockedUntil: Option<int>

    constructor (now: int)
      ensures this.now == now && counter == None && blockedUntil == None
    {
      this.now, counter, blockedUntil := now, None, None;
    }

    /** INCR creates a missing key at 1, without an expiry; the script then sets one. */
    method EvalIncrementScript(ttl: int) returns (current: Positive)
      modifies this`counter
      ensures counter.Some? && counter.value.count == current
      ensures old(counter).Some? ==> counter.value == old(counter).value.(count := old(counter).value.count + 1)
      ensures old(counter).None? ==> counter.value == Counter(1, now + ttl)
    {
      current := 1;
      var expiresAt := now;
      if counter.Some? {
        current := counter.value.count + 1;
        expiresAt := counter.value.expiresAt;
      }
      if current == 1 {
        expiresAt := now + ttl;
      }
      counter := Some(Counter(current, expiresAt));
    }

    ghost function Seen(r: nat, p: Phase): State
      reads this
    {
      State(now, counter, blockedUntil, map[r := p], [])
    }

    method IncrementAlone(c: Config, ghost r: nat) returns (record: Record)
      modifies this
      ensures var s := Decide(c, Measure(Increment(c, CheckBlock(c, old(Seen(r, Checking)), r), r), r), r);
              Seen(r, Returned(record)) == s.(hits := [])
    {
      var blockedTtl := if blockedUntil.Some? then Max(blockedUntil.value - now, 0) else -2;
      if blockedTtl > 0 {
        return Record(c.limit + 1, 0, true, CeilSeconds(blockedTtl));
      }
      var totalHits := EvalIncrementScript(c.ttl);
      var pttl := if counter.Some? then Max(counter.value.expiresAt - now, 0) else -2;
      var timeToExpire := CeilSeconds(Max(pttl, 0));
      if totalHits > c.limit && c.blockDuration > 0 {
        blockedUntil := Some(now + c.blockDuration);
        return Record(totalHits, timeToExpire, true, CeilSeconds(c.blockDuration));
      }
      return Record(totalHits, timeToExpire, totalHits > c.limit, 0);
    }
  }

  // ---- What each command does ----

  /** The request is refused at the block key if and only if that has time left, and told how many seconds. */
  lemma CheckExactly(c: Config, s: State, r: nat)
    requires At(s, r, Checking)
    ensures var s' := CheckBlock(c, s, r);
            && s'.requests.Keys == s.requests.Keys
            && (forall q <- s.requests :: q != r ==> s'.requests[q] == s.requests[q])
            && s' == s.(requests := s'.requests)
            && (if s.blockedUntil.Some? && s.now < s.blockedUntil.value then
                  && s'.requests[r].Returned?
                  && var Record(hits, expire, blocked, left) := s'.requests[r].record;
                     && hits == c.limit + 1 && expire == 0 && blocked
                     && 1000 * (left - 1) < s.blockedUntil.value - s.now <= 1000 * left
                else s'.requests[r] == Counting)
  {
  }

  /** The counter goes up by one and keeps its expiry; a missing one begins at one and lasts for the ttl. */
  lemma IncrementExactly(c: Config, s: State, r: nat)
    requires At(s, r, Counting)
    ensures var s' := Increment(c, s, r);
            var k := if s.counter.Some? then Counter(s.counter.value.count + 1, s.counter.value.expiresAt)
                     else Counter(1, s.now + c.ttl);
            && s'.counter == Some(k) && s'.blockedUntil == s.blockedUntil && s'.now == s.now
            && s'.hits == s.hits + [Hit(r, s.now, k.count)]
            && s'.requests == s.requests[r := Measuring(k.count)]
  {
  }

  /** The seconds the counter has left, none if it is gone. */
  lemma MeasureExactly(s: State, r: nat, hits: int)
    requires At(s, r, Measuring(hits))
    ensures var s' := Measure(s, r);
            && s' == s.(requests := s'.requests) && r in s'.requests
            && s'.requests == s.requests[r := s'.requests[r]]
            && s'.requests[r].Deciding? && s'.requests[r].hits == hits
            && var left := s'.requests[r].timeToExpire;
               if s.counter.Some? && s.now < s.counter.value.expiresAt then
                 1000 * (left - 1) < s.counter.value.expiresAt - s.now <= 1000 * left
               else left == 0
  {
  }

  /** The answer is blocked if and only if the hit was above the limit; then, with blocking on, the block key is set for
    * the block duration, and in no other case is it touched. */
  lemma DecideExactly(c: Config, s: State, r: nat, hits: int, timeToExpire: int)
    requires At(s, r, Deciding(hits, timeToExpire))
    ensures var s' := Decide(c, s, r);
            && s'.counter == s.counter && s'.hits == s.hits && s'.now == s.now
            && r in s'.requests && s'.requests == s.requests[r := s'.requests[r]]
            && s'.blockedUntil == (if hits > c.limit && c.blockDuration > 0 then Some(s.now + c.blockDuration)
                                   else s.blockedUntil)
            && s'.requests[r].Returned?
            && var record := s'.requests[r].record;
               && record.totalHits == hits && record.timeToExpire == timeToExpire
               && record.isBlocked == (hits > c.limit)
               && (if hits > c.limit && c.blockDuration > 0 then
                     1000 * (record.timeToBlockExpire - 1) < c.blockDuration <= 1000 * record.timeToBlockExpire
                   else record.timeToBlockExpire == 0)
  {
  }

  /** The block key changes only by an answer above the limit, and by its own expiry. */
  lemma BlockChangesOnlyBy(c: Config, s: State, step: Step)
    requires Next(c, s, step).blockedUntil != s.blockedUntil
    ensures || (step.Decides? && step.r in s.requests && s.requests[step.r].Deciding?
                && s.requests[step.r].hits > c.limit && c.blockDuration > 0
                && Next(c, s, step).blockedUntil == Some(s.now + c.blockDuration))
            || (step.BlockExpires? && s.blockedUntil.Some? && s.blockedUntil.value <= s.now
                && Next(c, s, step).blockedUntil == None)
  {
    hide CeilSeconds;
  }

  // ---- The shape of the hits ----

  ghost predicate Sorted(hits: seq<Hit>) {
    forall i, j :: 0 <= i < j < |hits| ==> hits[i].at <= hits[j].at
  }

  /** The count goes on from the hit before, or starts over at 1 no sooner than the ttl after the last start. */
  ghost predicate Follows(ttl: int, hits: seq<Hit>, i: nat)
    requires i < |hits|
  {
    && 1 <= hits[i].count <= i + 1
    && (i > 0 && hits[i].count != 1 ==> hits[i].count == hits[i - 1].count + 1)
    && (i > 0 && hits[i].count == 1 ==>
          1 <= hits[i - 1].count <= i && hits[i].at >= hits[i - hits[i - 1].count].at + ttl)
  }

  ghost predicate Windowed(ttl: int, hits: seq<Hit>) {
    Sorted(hits) && forall i: nat :: i < |hits| ==> Follows(ttl, hits, i)
  }

  ghost predicate NoStart(hits: seq<Hit>, after: nat, upto: nat)
    requires upto < |hits|
  {
    forall k :: after < k <= upto ==> hits[k].count != 1
  }

  lemma {:induction false} CountsOn(ttl: int, hits: seq<Hit>, i: nat, j: nat)
    requires Windowed(ttl, hits) && i <= j < |hits| && NoStart(hits, i, j)
    ensures hits[j].count == hits[i].count + j - i
  {
    if i < j {
      assert Follows(ttl, hits, j);
      CountsOn(ttl, hits, i, j - 1);
    }
  }

  lemma {:induction false} StartsAreApart(ttl: int, hits: seq<Hit>, m: nat, n: nat)
    requires Windowed(ttl, hits) && m < n < |hits| && hits[m].count == hits[n].count == 1
    ensures hits[n].at >= hits[m].at + ttl
  {
    assert Follows(ttl, hits, n);
    if k: nat :| m < k < n && hits[k].count == 1 {
      StartsAreApart(ttl, hits, m, k);
    } else {
      CountsOn(ttl, hits, m, n - 1);
    }
  }

  // ---- What every run keeps ----

  /** A request that has incremented the counter and has not been told it is blocked. */
  predicate PastTheCounter(p: Phase) {
    p.Measuring? || p.Deciding? || (p.Returned? && !p.record.isBlocked)
  }

  /** What a request knows is what the counter said at its own hit; its answer is blocked exactly above the limit. */
  ghost predicate Remembers(c: Config, p: Phase, count: nat) {
    match p
    case Measuring(hits) => hits == count
    case Deciding(hits, _) => hits == count
    case Returned(record) => record.totalHits == count && (record.isBlocked <==> count > c.limit)
    case _ => false
  }

  ghost predicate HasHit(hits: seq<Hit>, r: nat) {
    exists i :: 0 <= i < |hits| && hits[i].request == r
  }

  ghost predicate RequestsInv(c: Config, s: State) {
    && (forall i :: 0 <= i < |s.hits| ==>
          s.hits[i].request in s.requests && Remembers(c, s.requests[s.hits[i].request], s.hits[i].count))
    && (forall i, j :: 0 <= i < j < |s.hits| ==> s.hits[i].request != s.hits[j].request)
    && (forall r <- s.requests :: PastTheCounter(s.requests[r]) ==> HasHit(s.hits, r))
  }

  ghost predicate CounterInv(c: Config, s: State) {
    && Windowed(c.ttl, s.hits)
    && (forall i :: 0 <= i < |s.hits| ==> s.hits[i].at <= s.now)
    && (match s.counter
        case Some(k) =>
          && s.hits != [] && k.count == s.hits[|s.hits| - 1].count
          && k.count <= |s.hits| && k.expiresAt == s.hits[|s.hits| - k.count].at + c.ttl
        case None =>
          s.hits != [] ==>
            var last := s.hits[|s.hits| - 1];
            1 <= last.count <= |s.hits| && s.hits[|s.hits| - last.count].at + c.ttl <= s.now)
  }

  lemma IncrementKeepsCounterInv(c: Config, s: State, r: nat)
    requires CounterInv(c, s)
    ensures CounterInv(c, Increment(c, s, r))
  {
    var s' := Increment(c, s, r);
    forall i: nat | i < |s'.hits| ensures Follows(c.ttl, s'.hits, i) {
      if i < |s.hits| {
        assert Follows(c.ttl, s.hits, i);
      }
    }
  }

  lemma NextKeepsCounterInv(c: Config, s: State, step: Step)
    requires CounterInv(c, s)
    ensures CounterInv(c, Next(c, s, step))
  {
    hide Windowed, Increment, CeilSeconds;
    if step.Increments? {
      IncrementKeepsCounterInv(c, s, step.r);
    }
  }

  lemma NextKeepsRequestsInv(c: Config, s: State, step: Step)
    requires RequestsInv(c, s)
    ensures RequestsInv(c, Next(c, s, step))
  {
    var s' := Next(c, s, step);
    assert forall i :: 0 <= i < |s.hits| ==> s'.hits[i] == s.hits[i];
    forall r | r in s'.requests && PastTheCounter(s'.requests[r]) ensures HasHit(s'.hits, r) {
      if r in s.requests && PastTheCounter(s.requests[r]) {
        assert HasHit(s.hits, r);
      } else {
        assert s'.hits[|s.hits|].request == r;
      }
    }
  }

  lemma {:induction false} RunKeepsInv(c: Config, now: int, steps: seq<Step>)
    ensures CounterInv(c, Run(c, Fresh(now), steps)) && RequestsInv(c, Run(c, Fresh(now), steps))
  {
    if steps != [] {
      var before := steps[..|steps| - 1];
      RunKeepsInv(c, now, before);
      NextKeepsCounterInv(c, Run(c, Fresh(now), before), steps[|steps| - 1]);
      NextKeepsRequestsInv(c, Run(c, Fresh(now), before), steps[|steps| - 1]);
    }
  }

  // ---- The limits ----

  predicate Admitted(s: State, r: nat) {
    r in s.requests && s.requests[r].Returned? && !s.requests[r].record.isBlocked
  }

  /** The i-th hit falls in the life of the counter key that the m-th hit began. */
  ghost predicate InLife(hits: seq<Hit>, m: nat, i: nat) {
    m <= i < |hits| && hits[m].count == 1 && NoStart(hits, m, i)
  }

  lemma AdmittedCount(c: Config, s: State, i: nat)
    requires CounterInv(c, s) && RequestsInv(c, s) && i < |s.hits| && Admitted(s, s.hits[i].request)
    ensures 1 <= s.hits[i].count <= c.limit
  {
    assert Follows(c.ttl, s.hits, i);
  }

  /** In any interleaving at most `limit` requests are admitted during one life of the counter key. */
  lemma AdmittedPerLife(c: Config, now: int, steps: seq<Step>, m: nat)
    ensures var s := Run(c, Fresh(now), steps);
            |set i: nat | i < |s.hits| && InLife(s.hits, m, i) && Admitted(s, s.hits[i].request)| <= c.limit
  {
    hide Windowed, RequestsInv, Run, Admitted;
    var s := Run(c, Fresh(now), steps);
    RunKeepsInv(c, now, steps);
    var admitted := set i: nat | i < |s.hits| && InLife(s.hits, m, i) && Admitted(s, s.hits[i].request);
    var number := (i: nat) => if i < |s.hits| then s.hits[i].count else 0;
    forall i | i in admitted ensures 1 <= number(i) < 1 + c.limit && number(i) == 1 + i - m {
      AdmittedCount(c, s, i);
      CountsOn(c.ttl, s.hits, m, i);
    }
    Pigeonhole(admitted, number, 1, c.limit);
  }

  /** Hits in [a, a + ttl) whose counts are within the limit. */
  ghost predicate InWindow(c: Config, hits: seq<Hit>, a: int, i: nat) {
    i < |hits| && a <= hits[i].at < a + c.ttl && 1 <= hits[i].count <= c.limit
  }

  /** A window with one start in it: from the start on the counts number the hits, before it they do above the limit. */
  lemma WindowAroundStart(c: Config, hits: seq<Hit>, a: int, m: nat, members: set<nat>)
    requires Windowed(c.ttl, hits) && c.limit >= 1
    requires m < |hits| && hits[m].count == 1 && a <= hits[m].at < a + c.ttl
    requires forall i <- members :: InWindow(c, hits, a, i)
    ensures |members| <= 2 * c.limit - 1
  {
    var number := (i: nat) => if i >= |hits| then 0 else if i >= m then hits[i].count else c.limit + hits[i].count - 1;
    forall k: nat | k < |hits| && hits[k].count == 1 && k != m ensures !(a <= hits[k].at < a + c.ttl) {
      hide Windowed;
      if k < m {
        StartsAreApart(c.ttl, hits, k, m);
      } else {
        StartsAreApart(c.ttl, hits, m, k);
      }
    }
    forall i, j | i in members && j in members && i < j ensures number(i) != number(j) {
      assert InWindow(c, hits, a, i) && InWindow(c, hits, a, j);
      if i >= m || j < m {
        CountsOn(c.ttl, hits, i, j);
      }
    }
    forall i | i in members ensures 1 <= number(i) < 2 * c.limit {
      assert InWindow(c, hits, a, i);
    }
    Pigeonhole(members, number, 1, 2 * c.limit - 1);
  }

  lemma WindowWithoutStart(c: Config, hits: seq<Hit>, a: int, members: set<nat>)
    requires Windowed(c.ttl, hits)
    requires forall k: nat :: k < |hits| && hits[k].count == 1 ==> !(a <= hits[k].at < a + c.ttl)
    requires forall i <- members :: InWindow(c, hits, a, i)
    ensures |members| <= c.limit
  {
    var number := (i: nat) => if i < |hits| then hits[i].count else 0;
    forall i, j | i in members && j in members && i < j ensures number(i) != number(j) {
      assert InWindow(c, hits, a, i) && InWindow(c, hits, a, j);
      CountsOn(c.ttl, hits, i, j);
    }
    forall i | i in members ensures 1 <= number(i) < 1 + c.limit {
      assert InWindow(c, hits, a, i);
    }
    Pigeonhole(members, number, 1, c.limit);
  }

  /** The hits of admitted requests in [a, a + ttl). */
  ghost function AdmittedFrom(c: Config, s: State, a: int): set<nat> {
    set i: nat | i < |s.hits| && a <= s.hits[i].at < a + c.ttl && Admitted(s, s.hits[i].request)
  }

  /** ... and fewer than twice the limit in any time span as long as the ttl, wherever it begins. */
  lemma AdmittedPerWindow(c: Config, now: int, steps: seq<Step>, a: int)
    ensures var n := |AdmittedFrom(c, Run(c, Fresh(now), steps), a)|;
            n == 0 || n <= 2 * c.limit - 1
  {
    hide Windowed, RequestsInv, Run, Admitted;
    var s := Run(c, Fresh(now), steps);
    RunKeepsInv(c, now, steps);
    var admitted := AdmittedFrom(c, s, a);
    forall i | i in admitted ensures InWindow(c, s.hits, a, i) {
      AdmittedCount(c, s, i);
    }
    if m: nat :| m < |s.hits| && s.hits[m].count == 1 && a <= s.hits[m].at < a + c.ttl {
      if c.limit > 0 {
        WindowAroundStart(c, s.hits, a, m, admitted);
      } else {
        assert admitted == {};
      }
    } else {
      WindowWithoutStart(c, s.hits, a, admitted);
    }
  }

  ghost predicate OnlyHit(hits: seq<Hit>, r: nat, i: nat) {
    i < |hits| && hits[i].request == r && forall j: nat :: j < |hits| && hits[j].request == r ==> j == i
  }

  /** Every admitted request has exactly one hit, with a count within the limit; so the sets above leave none out. */
  lemma AdmittedHaveOneHit(c: Config, now: int, steps: seq<Step>, r: nat) returns (i: nat)
    requires Admitted(Run(c, Fresh(now), steps), r)
    ensures var hits := Run(c, Fresh(now), steps).hits;
            OnlyHit(hits, r, i) && 1 <= hits[i].count <= c.limit
  {
    hide Windowed, Run;
    RunKeepsInv(c, now, steps);
    var s := Run(c, Fresh(now), steps);
    assert HasHit(s.hits, r);
    i :| i < |s.hits| && s.hits[i].request == r;
    AdmittedCount(c, s, i);
  }

  // ---- The second bound is reached ----

  /** A request served from arrival to answer with nothing in between. */
  function Served(c: Config, s: State, r: nat): State {
    Decide(c, Measure(Increment(c, CheckBlock(c, Arrive(s, r), r), r), r), r)
  }

  lemma Then(c: Config, s: State, steps: seq<Step>, step: Step) returns (more: seq<Step>)
    ensures Run(c, s, more) == Next(c, Run(c, s, steps), step)
  {
    more := steps + [step];
    assert more[..|more| - 1] == steps;
  }

  lemma ServeNext(c: Config, s: State, steps: seq<Step>, r: nat) returns (more: seq<Step>)
    ensures Run(c, s, more) == Served(c, Run(c, s, steps), r)
  {
    hide Run, Arrive, CheckBlock, Increment, Measure, Decide;
    more := Then(c, s, steps, Arrives(r));
    more := Then(c, s, more, ChecksBlock(r));
    more := Then(c, s, more, Increments(r));
    more := Then(c, s, more, Measures(r));
    more := Then(c, s, more, Decides(r));
  }

  function Count(s: State): nat {
    if s.counter.Some? then s.counter.value.count else 0
  }

  /** Unblocked, and all of the first n requests, which are all there are, were admitted in turn. */
  ghost predicate AllAdmitted(s: State, n: nat) {
    && s.blockedUntil == None && |s.hits| == n
    && (forall r :: r in s.requests ==> 0 <= r < n)
    && (forall i :: 0 <= i < n ==> s.hits[i].request == i && Admitted(s, i))
  }

  /** With room under the counter the next request is admitted, whatever the settings for blocking. */
  lemma ServedWithinLimit(c: Config, s: State, n: nat)
    requires AllAdmitted(s, n) && Count(s) < c.limit
    ensures var s' := Served(c, s, n);
            && AllAdmitted(s', n + 1) && s'.now == s.now && Count(s') == Count(s) + 1
            && s'.counter.value.expiresAt == (if s.counter.Some? then s.counter.value.expiresAt else s.now + c.ttl)
            && s'.hits == s.hits + [Hit(n, s.now, Count(s) + 1)]
  {
    var s' := Served(c, s, n);
    assert forall i :: 0 <= i < n ==> s'.hits[i] == s.hits[i];
  }

  /** One more request after another, in one instant, as long as there is room. */
  lemma {:induction false} ServeMany(c: Config, now: int, steps: seq<Step>, n: nat, m: nat) returns (more: seq<Step>)
    requires AllAdmitted(Run(c, Fresh(now), steps), n) && Count(Run(c, Fresh(now), steps)) + m <= c.limit
    ensures var (s, s') := (Run(c, Fresh(now), steps), Run(c, Fresh(now), more));
            && AllAdmitted(s', n + m) && s'.now == s.now && Count(s') == Count(s) + m
            && (m > 0 ==> s'.counter.Some? && s'.counter.value.expiresAt
                          == if s.counter.Some? then s.counter.value.expiresAt else s.now + c.ttl)
            && (m == 0 ==> s'.counter == s.counter)
            && (forall i :: 0 <= i < n ==> s'.hits[i] == s.hits[i])
            && (forall i :: n <= i < n + m ==> s'.hits[i].at == s.now)
    decreases m
  {
    hide Run, Served, AllAdmitted;
    more := steps;
    if m > 0 {
      var before := ServeMany(c, now, steps, n, m - 1);
      ServedWithinLimit(c, Run(c, Fresh(now), before), n + m - 1);
      HitsOfAdmitted(Run(c, Fresh(now), steps), n);
      HitsOfAdmitted(Run(c, Fresh(now), before), n + m - 1);
      more := ServeNext(c, Fresh(now), before, n + m - 1);
    } else {
      HitsOfAdmitted(Run(c, Fresh(now), steps), n);
    }
  }

  lemma HitsOfAdmitted(s: State, n: nat)
    requires AllAdmitted(s, n)
    ensures |s.hits| == n
  {
  }

  /** How long after its first request a life is used up: late, but before the ttl where there is such an instant. */
  function Late(c: Config): nat
    requires c.ttl > 0
  {
    if c.ttl > 1 then c.ttl - 1 else 1
  }

  /** One request at the beginning of a life, the others at its end, and then the life is over. */
  lemma LifeSpentLate(c: Config) returns (steps: seq<Step>)
    requires c.ttl > 0 && c.limit > 0
    ensures var s := Run(c, Fresh(0), steps);
            && AllAdmitted(s, c.limit) && s.counter == None && Late(c) <= s.now < Late(c) + c.ttl
            && (forall i :: 1 <= i < c.limit ==> s.hits[i].at == Late(c))
            && s.hits[0].at == 0
  {
    assert Run(c, Fresh(0), []) == Fresh(0);
    hide Run;
    steps := ServeMany(c, 0, [], 0, 1);
    steps := Then(c, Fresh(0), steps, Tick(Late(c)));
    steps := ServeMany(c, 0, steps, 1, c.limit - 1);
    steps := Then(c, Fresh(0), steps, Tick(if c.ttl > 1 then 1 else 0));
    steps := Then(c, Fresh(0), steps, CounterExpires);
  }

  /** For every configuration with a window and a limit the bound is reached, whatever the settings for blocking. */
  lemma WindowBoundIsReached(c: Config) returns (steps: seq<Step>, a: int)
    requires c.ttl > 0 && c.limit > 0
    ensures |AdmittedFrom(c, Run(c, Fresh(0), steps), a)| == 2 * c.limit - 1
  {
    hide Run;
    steps := LifeSpentLate(c);
    steps := ServeMany(c, 0, steps, c.limit, c.limit);
    a := Late(c);
    var s := Run(c, Fresh(0), steps);
    assert AdmittedFrom(c, s, a) == Range(1, 2 * c.limit);
  }

  ghost predicate WindowKeepsLimit(c: Config, now: int, steps: seq<Step>, a: int) {
    |AdmittedFrom(c, Run(c, Fresh(now), steps), a)| <= c.limit
  }

  /** That no more than `limit` requests are admitted in any span as long as the ttl is true of every run exactly for
    * the limits nought and one, and for routes without a window. */
  lemma WindowKeepsLimitExactly(c: Config)
    ensures (forall now, steps, a :: WindowKeepsLimit(c, now, steps, a)) <==> c.limit <= 1 || c.ttl <= 0
  {
    hide Run;
    if c.limit <= 1 || c.ttl <= 0 {
      forall now, steps, a ensures WindowKeepsLimit(c, now, steps, a) {
        AdmittedPerWindow(c, now, steps, a);
        if c.ttl <= 0 {
          assert AdmittedFrom(c, Run(c, Fresh(now), steps), a) == {};
        }
      }
    } else {
      var steps, a := WindowBoundIsReached(c);
      assert !WindowKeepsLimit(c, 0, steps, a);
    }
  }

  // ---- Blocking ----

  /** Not yet let past the block key. */
  predicate Outside(s: State, r: nat) {
    r in s.requests ==> s.requests[r].Checking? || (s.requests[r].Returned? && s.requests[r].record.isBlocked)
  }

  ghost predicate BlockInv(c: Config, s: State) {
    s.blockedUntil.Some? ==> s.blockedUntil.value <= s.now + c.blockDuration
  }

  lemma NextKeepsBlockInv(c: Config, s: State, step: Step)
    requires BlockInv(c, s)
    ensures BlockInv(c, Next(c, s, step))
  {
    hide CeilSeconds;
  }

  lemma {:induction false} RunKeepsBlockInv(c: Config, now: int, steps: seq<Step>)
    ensures BlockInv(c, Run(c, Fresh(now), steps))
  {
    hide Next;
    if steps != [] {
      var before := steps[..|steps| - 1];
      RunKeepsBlockInv(c, now, before);
      NextKeepsBlockInv(c, Run(c, Fresh(now), before), steps[|steps| - 1]);
    }
  }

  lemma {:induction false} BlockHoldsFrom(c: Config, s: State, steps: seq<Step>, until: int, r: nat)
    requires BlockInv(c, s) && s.blockedUntil.Some? && until <= s.blockedUntil.value && Outside(s, r)
    requires Run(c, s, steps).now < until
    ensures var s' := Run(c, s, steps);
            s'.blockedUntil.Some? && until <= s'.blockedUntil.value && Outside(s', r) && s.now <= s'.now
  {
    hide CeilSeconds;
    if steps != [] {
      BlockHoldsFrom(c, s, steps[..|steps| - 1], until, r);
    }
  }

  /** A block outlives everything that happens after it was set, later blocks included: until its time is up, no request
    * that had not got past the block key when it was set is admitted. */
  lemma BlockHolds(c: Config, now: int, before: seq<Step>, after: seq<Step>, r: nat)
    requires var s := Run(c, Fresh(now), before);
             && s.blockedUntil.Some? && Outside(s, r)
             && Run(c, s, after).now < s.blockedUntil.value
    ensures !Admitted(Run(c, Run(c, Fresh(now), before), after), r)
  {
    var s := Run(c, Fresh(now), before);
    RunKeepsBlockInv(c, now, before);
    BlockHoldsFrom(c, s, after, s.blockedUntil.value, r);
  }

  /** An answer above the limit, with blocking on, keeps everyone out who has not got past the block key by then,
    * for the block duration from that instant, whatever happens after. */
  lemma ExceedingBlocks(c: Config, now: int, before: seq<Step>, r: nat, after: seq<Step>, q: nat)
    requires c.blockDuration > 0
    requires var s := Run(c, Fresh(now), before);
             && r in s.requests && s.requests[r].Deciding? && s.requests[r].hits > c.limit
             && q != r && Outside(s, q)
             && Run(c, Next(c, s, Decides(r)), after).now < s.now + c.blockDuration
    ensures var s := Run(c, Fresh(now), before);
            !Admitted(Run(c, Next(c, s, Decides(r)), after), q)
  {
    var s := Run(c, Fresh(now), before);
    DecideExactly(c, s, r, s.requests[r].hits, s.requests[r].timeToExpire);
    var steps := Then(c, Fresh(now), before, Decides(r));
    hide Run, Decide;
    BlockHolds(c, now, steps, after, q);
  }

  /** And an answer above the limit is what every hit beyond the limit gets: the request that made it is never
    * admitted. */
  lemma HitAboveLimitIsNotAdmitted(c: Config, now: int, steps: seq<Step>, i: nat)
    requires i < |Run(c, Fresh(now), steps).hits| && Run(c, Fresh(now), steps).hits[i].count > c.limit
    ensures !Admitted(Run(c, Fresh(now), steps), Run(c, Fresh(now), steps).hits[i].request)
  {
    RunKeepsInv(c, now, steps);
    hide Run, Windowed;
    if Admitted(Run(c, Fresh(now), steps), Run(c, Fresh(now), steps).hits[i].request) {
      AdmittedCount(c, Run(c, Fresh(now), steps), i);
    }
  }
}
