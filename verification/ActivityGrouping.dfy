/** Grouping of adjacent activity-log events for display. */
module ActivityGrouping {
  import opened Common

  const GROUP_WINDOW_MS := 5 * 60_000

  datatype Log = Log(id: nat, category: string, eventType: string, severity: string, message: string, createdAt: int)

  datatype Group = Group(
    id: nat,
    category: string,
    eventType: string,
    severity: string,
    message: string,
    count: nat,
    firstAt: int,
    lastAt: int)

  /** Where the k-th group begins, by the counts of those before it. */
  function StartOf(groups: seq<Group>, k: nat): nat
    requires k <= |groups|
  {
    if k == 0 then 0 else StartOf(groups, k - 1) + groups[k - 1].count
  }

  /** Whether a log may join the run that `first` opened. */
  predicate Joins(first: Log, log: Log) {
    first.eventType == log.eventType && first.createdAt - log.createdAt <= GROUP_WINDOW_MS
  }

  /** The group shown for logs[a..b]: the opening log's own fields, with the times of both ends. */
  function Shown(logs: seq<Log>, a: nat, b: nat): Group
    requires a < b <= |logs|
  {
    var log := logs[a];
    Group(log.id, log.category, log.eventType, log.severity, log.message, b - a, logs[b - 1].createdAt, log.createdAt)
  }

  /** The k-th group shows a run whose logs all join its first one. */
  ghost predicate ShowsRun(logs: seq<Log>, groups: seq<Group>, k: nat)
    requires k < |groups|
  {
    var (a, b) := (StartOf(groups, k), StartOf(groups, k + 1));
    && a < b <= |logs|
    && groups[k] == Shown(logs, a, b)
    && forall j :: a <= j < b ==> Joins(logs[a], logs[j])
  }

  /** The log that opens the next group could not join the k-th. */
  ghost predicate Full(logs: seq<Log>, groups: seq<Group>, k: nat)
    requires k + 1 < |groups|
  {
    var (a, b) := (StartOf(groups, k), StartOf(groups, k + 1));
    a < |logs| && b < |logs| && !Joins(logs[a], logs[b])
  }

  /** The groups show consecutive runs that together are the whole list, each run as long as it can be. */
  ghost predicate GreedyGrouping(logs: seq<Log>, groups: seq<Group>) {
    && StartOf(groups, |groups|) == |logs|
    && (forall k :: 0 <= k < |groups| ==> ShowsRun(logs, groups, k))
    && (forall k :: 0 <= k < |groups| - 1 ==> Full(logs, groups, k))
  }

  lemma {:induction false} StartOfPrefix(g: seq<Group>, h: seq<Group>, k: nat)
    requires k <= |g| && k <= |h| && g[..k] == h[..k]
    ensures StartOf(g, k) == StartOf(h, k)
  {
    if k > 0 {
      assert g[..k - 1] == g[..k][..k - 1] && h[..k - 1] == h[..k][..k - 1];
      assert g[k - 1] == g[..k][k - 1];
      StartOfPrefix(g, h, k - 1);
    }
  }

  lemma SameStarts(g: seq<Group>, h: seq<Group>, n: nat)
    requires n <= |g| && n <= |h| && g[..n] == h[..n]
    ensures forall k :: 0 <= k <= n ==> StartOf(g, k) == StartOf(h, k)
  {
    forall k | 0 <= k <= n ensures StartOf(g, k) == StartOf(h, k) {
      assert g[..k] == g[..n][..k] && h[..k] == h[..n][..k];
      StartOfPrefix(g, h, k);
    }
  }

  /** Counting one more log into the last group. */
  lemma JoinLast(logs: seq<Log>, i: nat, groups: seq<Group>, after: seq<Group>)
    requires i < |logs| && groups != [] && GreedyGrouping(logs[..i], groups)
    requires var last := groups[|groups| - 1];
             && last.eventType == logs[i].eventType && last.lastAt - logs[i].createdAt <= GROUP_WINDOW_MS
             && after == groups[|groups| - 1 := last.(count := last.count + 1, firstAt := logs[i].createdAt)]
    ensures GreedyGrouping(logs[..i + 1], after)
  {
    var n := |groups| - 1;
    var (old', new') := (logs[..i], logs[..i + 1]);
    assert after[..n] == groups[..n];
    SameStarts(groups, after, n);
    assert ShowsRun(old', groups, n);
    forall k | 0 <= k < n ensures ShowsRun(new', after, k) && Full(new', after, k) {
      assert ShowsRun(old', groups, k) && Full(old', groups, k);
    }
    assert ShowsRun(new', after, n);
  }

  /** Opening a new group with one more log. */
  lemma OpenNext(logs: seq<Log>, i: nat, groups: seq<Group>, after: seq<Group>)
    requires i < |logs| && GreedyGrouping(logs[..i], groups)
    requires groups != [] ==>
               var last := groups[|groups| - 1];
               !(last.eventType == logs[i].eventType && last.lastAt - logs[i].createdAt <= GROUP_WINDOW_MS)
    requires after == groups + [Shown(logs, i, i + 1)]
    ensures GreedyGrouping(logs[..i + 1], after)
  {
    var n := |groups|;
    var (old', new') := (logs[..i], logs[..i + 1]);
    assert after[..n] == groups[..n];
    SameStarts(groups, after, n);
    forall k | 0 <= k < n ensures ShowsRun(new', after, k) && Full(new', after, k) {
      assert ShowsRun(old', groups, k);
      assert k < n - 1 ==> Full(old', groups, k);
    }
    assert ShowsRun(new', after, n);
  }

  /** One pass: each log either joins the last group, which is updated in place, or opens a new one. */
  method GroupAdjacentEvents(logs: seq<Log>) returns (grouped: seq<Group>)
    ensures GreedyGrouping(logs, grouped)
  {
    hide GreedyGrouping;
    grouped := [];
    EmptyGrouping(logs);
    for i := 0 to |logs|
      invariant GreedyGrouping(logs[..i], grouped)
    {
      var log := logs[i];
      ghost var before := grouped;
      if grouped != []
         && grouped[|grouped| - 1].eventType == log.eventType
         && grouped[|grouped| - 1].lastAt - log.createdAt <= GROUP_WINDOW_MS
      {
        var last := grouped[|grouped| - 1];
        last := last.(count := last.count + 1);
        last := last.(firstAt := log.createdAt);
        grouped := grouped[|grouped| - 1 := last];
        JoinLast(logs, i, before, grouped);
      } else {
        grouped := grouped
        + [Group(log.id, log.category, log.eventType, log.severity, log.message, 1, log.createdAt, log.createdAt)];
        OpenNext(logs, i, before, grouped);
      }
    }
    assert logs[..|logs|] == logs;
  }

  lemma EmptyGrouping(logs: seq<Log>)
    ensures GreedyGrouping(logs[..0], [])
  {
  }

  // ---- What the grouping means ----

  ghost predicate NewestFirst(logs: seq<Log>) {
    forall i, j :: 0 <= i < j < |logs| ==> logs[i].createdAt >= logs[j].createdAt
  }

  /** logs[a..b] may be shown as one group: one event type, at most five minutes between any two of its logs. */
  ghost predicate GoodRun(logs: seq<Log>, a: nat, b: nat)
    requires b <= |logs|
  {
    && a < b
    && forall i, j :: a <= i < b && a <= j < b ==> Joins(logs[i], logs[j])
  }

  /** Run lengths that cut logs[a..] into good runs. */
  ghost predicate Cuts(logs: seq<Log>, a: nat, lengths: seq<nat>)
    requires a <= |logs|
    decreases |lengths|
  {
    if lengths == [] then a == |logs|
    else a + lengths[0] <= |logs| && GoodRun(logs, a, a + lengths[0]) && Cuts(logs, a + lengths[0], lengths[1..])
  }

  lemma {:induction false} StartsIncrease(logs: seq<Log>, groups: seq<Group>, k: nat)
    requires GreedyGrouping(logs, groups) && k <= |groups|
    ensures StartOf(groups, k) <= |logs|
    ensures StartOf(groups, k) == |logs| <==> k == |groups|
    decreases |groups| - k
  {
    if k < |groups| {
      assert ShowsRun(logs, groups, k);
      StartsIncrease(logs, groups, k + 1);
    }
  }

  /** What is shown of a group: the id and texts of the log that opened it, the number of its logs, and the times of its
    * first, which is its newest, and of its last. */
  lemma GroupShowsItsRun(logs: seq<Log>, groups: seq<Group>, k: nat)
    requires GreedyGrouping(logs, groups) && k < |groups|
    ensures StartOf(groups, k) < StartOf(groups, k + 1) <= |logs|
    ensures var (a, b) := (StartOf(groups, k), StartOf(groups, k + 1));
            && groups[k] == Group(logs[a].id, logs[a].category, logs[a].eventType, logs[a].severity, logs[a].message,
                                  b - a, logs[b - 1].createdAt, logs[a].createdAt)
            && (forall j :: a <= j < b ==>
                  logs[j].eventType == logs[a].eventType && logs[a].createdAt - logs[j].createdAt <= 300_000)
            && (b < |logs| ==>
                  logs[b].eventType != logs[a].eventType || logs[a].createdAt - logs[b].createdAt > 300_000)
  {
    assert ShowsRun(logs, groups, k);
    var (a, b) := (StartOf(groups, k), StartOf(groups, k + 1));
    assert forall j :: a <= j < b ==> Joins(logs[a], logs[j]);
    StartsIncrease(logs, groups, k + 1);
    assert b < |logs| ==> Full(logs, groups, k);
  }

  /** A run may be shown as one group when it is of one event type and no two of its logs are over five minutes
    * apart. */
  lemma GoodRunExactly(logs: seq<Log>, a: nat, b: nat)
    requires b <= |logs|
    ensures GoodRun(logs, a, b) <==>
            && a < b
            && (forall i, j :: a <= i < b && a <= j < b ==> logs[i].eventType == logs[j].eventType)
            && (forall i, j :: a <= i < b && a <= j < b ==> logs[i].createdAt - logs[j].createdAt <= 300_000)
  {
    if a < b && (forall i, j :: a <= i < b && a <= j < b ==> Joins(logs[i], logs[j])) {
      forall i, j | a <= i < b && a <= j < b
        ensures logs[i].eventType == logs[j].eventType && logs[i].createdAt - logs[j].createdAt <= 300_000
      {
        assert Joins(logs[i], logs[j]);
      }
    }
  }

  /** The runs of the first k groups, laid end to end. */
  ghost function Laid(logs: seq<Log>, groups: seq<Group>, k: nat): seq<Log>
    requires GreedyGrouping(logs, groups) && k <= |groups|
  {
    if k == 0 then [] else
      assert ShowsRun(logs, groups, k - 1);
      Laid(logs, groups, k - 1) + logs[StartOf(groups, k - 1)..StartOf(groups, k)]
  }

  /** The runs of all the groups, laid end to end, are the list itself. */
  lemma {:induction false} RunsCoverTheList(logs: seq<Log>, groups: seq<Group>, k: nat)
    requires GreedyGrouping(logs, groups) && k <= |groups|
    ensures StartOf(groups, k) <= |logs| && Laid(logs, groups, k) == logs[..StartOf(groups, k)]
    ensures k == |groups| ==> Laid(logs, groups, k) == logs
  {
    hide ShowsRun, Full;
    StartsIncrease(logs, groups, k);
    if k > 0 {
      StartsIncrease(logs, groups, k - 1);
      RunsCoverTheList(logs, groups, k - 1);
      var (a, b) := (StartOf(groups, k - 1), StartOf(groups, k));
      assert logs[..a] + logs[a..b] == logs[..b];
    }
  }

  ghost function Counts(groups: seq<Group>, k: nat): seq<nat>
    requires k <= |groups|
    decreases |groups| - k
  {
    if k == |groups| then [] else [groups[k].count] + Counts(groups, k + 1)
  }

  /** On a newest-first list the groups are good runs themselves. */
  lemma {:induction false} GroupsAreGoodRuns(logs: seq<Log>, groups: seq<Group>, k: nat)
    requires NewestFirst(logs) && GreedyGrouping(logs, groups) && k <= |groups|
    ensures StartOf(groups, k) <= |logs| && Cuts(logs, StartOf(groups, k), Counts(groups, k))
    ensures |Counts(groups, k)| == |groups| - k
    decreases |groups| - k
  {
    if k < |groups| {
      assert ShowsRun(logs, groups, k);
      var (a, b) := (StartOf(groups, k), StartOf(groups, k + 1));
      forall i, j | a <= i < b && a <= j < b ensures Joins(logs[i], logs[j]) {
        assert Joins(logs[a], logs[i]) && Joins(logs[a], logs[j]);
        assert logs[a].createdAt >= logs[i].createdAt;
      }
      GroupsAreGoodRuns(logs, groups, k + 1);
      assert Counts(groups, k)[1..] == Counts(groups, k + 1);
    }
  }

  /** A good run that begins no later than the k-th group ends no later than it. */
  lemma RunEndsWithin(logs: seq<Log>, groups: seq<Group>, k: nat, a: nat, b: nat)
    requires GreedyGrouping(logs, groups) && k < |groups|
    requires b <= |logs| && a <= StartOf(groups, k) && GoodRun(logs, a, b)
    ensures b <= StartOf(groups, k + 1)
  {
    StartsIncrease(logs, groups, k + 1);
    assert ShowsRun(logs, groups, k);
    var (p, q) := (StartOf(groups, k), StartOf(groups, k + 1));
    assert q < |logs| ==> Full(logs, groups, k) && !Joins(logs[p], logs[q]);
  }

  /** Greedy stays ahead: from wherever another way of cutting has got to, it needs no more groups for the rest. */
  lemma {:induction false} StaysAhead(logs: seq<Log>, groups: seq<Group>, k: nat, a: nat, lengths: seq<nat>)
    requires GreedyGrouping(logs, groups) && k <= |groups|
    requires a <= |logs| && a <= StartOf(groups, k) && Cuts(logs, a, lengths)
    ensures |groups| - k <= |lengths|
    decreases |lengths|
  {
    StartsIncrease(logs, groups, k);
    if lengths != [] && k < |groups| {
      var b := a + lengths[0];
      RunEndsWithin(logs, groups, k, a, b);
      StaysAhead(logs, groups, k + 1, b, lengths[1..]);
    }
  }

  /** No way of cutting the list into good runs needs fewer groups than the greedy one, which on a newest-first list is
    * such a way itself. */
  lemma GreedyIsOptimal(logs: seq<Log>, groups: seq<Group>)
    requires GreedyGrouping(logs, groups)
    ensures forall lengths :: Cuts(logs, 0, lengths) ==> |groups| <= |lengths|
    ensures NewestFirst(logs) ==> Cuts(logs, 0, Counts(groups, 0)) && |Counts(groups, 0)| == |groups|
  {
    forall lengths | Cuts(logs, 0, lengths) ensures |groups| <= |lengths| {
      StaysAhead(logs, groups, 0, 0, lengths);
    }
    if NewestFirst(logs) {
      GroupsAreGoodRuns(logs, groups, 0);
    }
  }
}
