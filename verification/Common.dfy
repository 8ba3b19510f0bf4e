/** Vocabulary shared by the other modules: optional values, results of calls that may throw, sizes of sets. */
module Common {
  datatype Option<+T> = None | Some(value: T)

  /** The exceptions the services throw, by the class that reaches the caller. */
  datatype Error =
    | NotFound
    | Forbidden
    | BadRequest
    | InvalidTransition
    | PlanLimitExceeded
    | Conflict
    | InsufficientPermissions

  /** The outcome of an operation that either yields a value or throws. */
  datatype Result<+T> = Success(value: T) | Failure(error: Error) {
    predicate IsFailure() {
      Failure?
    }

    function PropagateFailure<U>(): Result<U>
      requires Failure?
    {
      Failure(error)
    }

    function Extract(): T
      requires Success?
    {
      value
    }
  }

  /** The outcome of a check, or of an operation called only for its effect. */
  datatype Outcome = Pass | Fail(error: Error) {
    predicate IsFailure() {
      Fail?
    }

    function PropagateFailure<U>(): Result<U>
      requires Fail?
    {
      Failure(error)
    }
  }

  function Need(condition: bool, error: Error): Outcome {
    if condition then Pass else Fail(error)
  }

  type Positive = n: int | n >= 1 witness 1

  function Max(a: int, b: int): int {
    if a < b then b else a
  }

  predicate Distinct<T(==)>(s: seq<T>) {
    forall i, j :: 0 <= i < j < |s| ==> s[i] != s[j]
  }

  lemma {:induction false} SubsetSize<T>(a: set<T>, b: set<T>)
    requires a <= b
    ensures |a| <= |b|
  {
    assert b == a + (b - a);
    assert |b| == |a| + |b - a|;
  }

  ghost function Range(low: nat, high: nat): (r: set<nat>)
    requires low <= high
    ensures forall i: nat :: i in r <==> low <= i < high
    ensures |r| == high - low
    decreases high
  {
    if low == high then {} else Range(low, high - 1) + {high - 1}
  }

  /** A set whose members carry different numbers out of n has at most n members. */
  lemma {:induction false} Pigeonhole(members: set<nat>, number: nat -> int, low: int, n: nat)
    requires forall i <- members :: low <= number(i) < low + n
    requires forall i, j :: i in members && j in members && i != j ==> number(i) != number(j)
    ensures |members| <= n
  {
    if n == 0 {
      assert members == {};
    } else {
      var rest := set i <- members | number(i) != low + n - 1;
      Pigeonhole(rest, number, low, n - 1);
      if rest != members {
        var x :| x in members && x !in rest;
        assert members == rest + {x};
      }
    }
  }
}
