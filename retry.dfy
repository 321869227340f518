/**
 * `RetryAndRecover` and `Do` of the process-object extensions: call a
 * function until it returns, retrying on a caught exception while attempts
 * remain and the exception condition accepts it, running the recovery action
 * before each retry. The function, the condition and the recovery action are
 * opaque: what each of their runs returns or throws is an input, and the
 * model records the order of the calls and the recoveries as a trace of
 * effects. The pauses around the recovery are left out.
 */
module Retry {
  import opened Wrappers

  /** C#'s `int`, for the attempt counter. */
  newtype int32 = x: int | -0x8000_0000 <= x < 0x8000_0000

  /** What one call of the function does: it returns a value or throws. */
  datatype Attempt<T, X> = Value(value: T) | Throw(exception: X)

  /** How `RetryAndRecover` ends: with a value, with an `AggregateException`, or by letting an uncaught exception through. */
  datatype RetryResult<T, X> = Returned(value: T) | Aggregate(exceptions: seq<X>) | Propagated(exception: X)

  /** The observable effects, in order: calls of the function and of the recovery action. */
  datatype Effect = Call | Recover

  /** The number of retries `maxAttempts` allows: the counter must be positive before each retry. */
  function Retries(maxAttempts: int32): (r: nat)
    ensures r as int <= if maxAttempts < 0 then 0 else maxAttempts as int
  {
    if maxAttempts > 0 then maxAttempts as int else 0
  }

  /** `when == null || when(e)`: what the condition gives for `e`, or the exception it throws. */
  function Condition<X>(when: Option<X -> Attempt<bool, X>>, e: X): Attempt<bool, X>
  {
    if when.None? then Value(true) else when.value(e)
  }

  /** `recoveryAction?.Invoke()` after the `k`-th call: the exception it throws, if any. */
  function Recovery<X>(recover: Option<nat -> Option<X>>, k: nat): Option<X>
  {
    if recover.None? then None else recover.value(k)
  }

  /** The `i`-th call raised an exception of the caught type that the condition accepts, and the recovery after it completed. */
  predicate Retried<T, X>(call: nat -> Attempt<T, X>, isE: X -> bool, when: Option<X -> Attempt<bool, X>>,
                          recover: Option<nat -> Option<X>>, i: nat)
  {
    call(i).Throw? && isE(call(i).exception) && Condition(when, call(i).exception) == Value(true)
    && Recovery(recover, i).None?
  }

  /** The `k`-th call raised a caught exception that the condition accepts, and the recovery after it threw. */
  predicate RecoveryFails<T, X>(call: nat -> Attempt<T, X>, isE: X -> bool, when: Option<X -> Attempt<bool, X>>,
                                recover: Option<nat -> Option<X>>, k: nat)
  {
    call(k).Throw? && isE(call(k).exception) && Condition(when, call(k).exception) == Value(true)
    && Recovery(recover, k).Some?
  }

  /** The exceptions thrown by the first `n` calls, in call order. */
  function Exceptions<T, X>(call: nat -> Attempt<T, X>, n: nat): seq<X>
  {
    if n == 0 then []
    else Exceptions(call, n - 1) + (if call(n - 1).Throw? then [call(n - 1).exception] else [])
  }

  /** The effects of `calls` calls: a recovery, if there is a recovery action, between each two of them. */
  function Trace(calls: nat, hasRecovery: bool): seq<Effect>
  {
    if calls == 0 then []
    else if calls == 1 then [Call]
    else Trace(calls - 1, hasRecovery) + (if hasRecovery then [Recover, Call] else [Call])
  }

  /**
   * How the last call, the `k`-th, decides the result: a value is returned;
   * an exception of another type passes through; with attempts left, an
   * exception the condition throws or one the recovery throws passes
   * through; a caught exception that is not retried ends in the aggregate.
   */
  ghost predicate Ends<T, X>(call: nat -> Attempt<T, X>, k: nat, isE: X -> bool, when: Option<X -> Attempt<bool, X>>,
                             recover: Option<nat -> Option<X>>, exhausted: bool, r: RetryResult<T, X>, thrown: seq<X>)
  {
    var last := call(k);
    match r
    case Returned(v) => last == Value(v)
    case Propagated(x) =>
      last.Throw?
      && if !isE(last.exception) then x == last.exception
         else !exhausted
              && (Condition(when, last.exception) == Throw(x)
                  || (Condition(when, last.exception) == Value(true) && Recovery(recover, k) == Some(x)))
    case Aggregate(xs) =>
      last.Throw? && isE(last.exception) && (exhausted || Condition(when, last.exception) == Value(false)) && xs == thrown
  }

  /**
   * What a run of `RetryAndRecover` is: between one and `Retries + 1` calls,
   * every call but the last retried, the effects in order (ending with the
   * recovery when that threw), and the last call deciding the result.
   */
  ghost predicate Explains<T, X>(call: nat -> Attempt<T, X>, isE: X -> bool, when: Option<X -> Attempt<bool, X>>,
                                 recover: Option<nat -> Option<X>>, maxAttempts: int32,
                                 r: RetryResult<T, X>, calls: nat, trace: seq<Effect>)
  {
    1 <= calls <= Retries(maxAttempts) + 1
    && (forall i :: 0 <= i < calls - 1 ==> Retried(call, isE, when, recover, i))
    && var exhausted := calls - 1 == Retries(maxAttempts);
    trace == Trace(calls, recover.Some?)
             + (if !exhausted && RecoveryFails(call, isE, when, recover, calls - 1) then [Recover] else [])
    && Ends(call, calls - 1, isE, when, recover, exhausted, r, Exceptions(call, calls))
  }

  /**
   * `RetryAndRecover(function, when, recoveryAction, retryInterval, maxAttempts)`:
   * `call(k)` is what the `k`-th call of `function` does, `isE` is whether an
   * exception is of the caught type `E`, `when` is the condition, and
   * `recover(k)` is what the recovery action does after the `k`-th call.
   */
  method RetryAndRecover<T, X>(call: nat -> Attempt<T, X>, isE: X -> bool, when: Option<X -> Attempt<bool, X>>,
                               recover: Option<nat -> Option<X>>, maxAttempts: int32)
    returns (r: RetryResult<T, X>, calls: nat, trace: seq<Effect>)
    ensures Explains(call, isE, when, recover, maxAttempts, r, calls, trace)
  {
    var remainingAttempts := maxAttempts;
    var exceptions: seq<X> := [];
    calls := 0;
    trace := [];
    while true
      invariant calls <= Retries(maxAttempts) && remainingAttempts as int == maxAttempts as int - calls
      invariant forall i :: 0 <= i < calls ==> Retried(call, isE, when, recover, i)
      invariant exceptions == Exceptions(call, calls)
      invariant trace == if calls == 0 then [] else Trace(calls, recover.Some?) + (if recover.Some? then [Recover] else [])
      decreases remainingAttempts
    {
      trace := trace + [Call];
      var attempt := call(calls);
      calls := calls + 1;
      if attempt.Value? {
        return Returned(attempt.value), calls, trace;
      }
      var e := attempt.exception;
      if !isE(e) {
        return Propagated(e), calls, trace;
      }
      exceptions := exceptions + [e];
      // `remainingAttempts-- > 0`: the test sees the old value, and the decrement wraps around
      var positive := remainingAttempts > 0;
      remainingAttempts := if remainingAttempts == -0x8000_0000 then 0x7fff_ffff else remainingAttempts - 1;
      if !positive {
        return Aggregate(exceptions), calls, trace;
      }
      var accepted := if when.None? then Value(true) else when.value(e);
      if accepted.Throw? {
        return Propagated(accepted.exception), calls, trace;
      }
      if !accepted.value {
        return Aggregate(exceptions), calls, trace;
      }
      if recover.Some? {
        trace := trace + [Recover];
        var failed := recover.value(calls - 1);
        if failed.Some? {
          return Propagated(failed.value), calls, trace;
        }
      }
    }
  }

  /** `Do(action, …)`: `action(k)` is the exception the `k`-th run of the action throws, if any; a completed run returns unit. */
  method Do<X>(action: nat -> Option<X>, isE: X -> bool, when: Option<X -> Attempt<bool, X>>,
               recover: Option<nat -> Option<X>>, maxAttempts: int32)
    returns (r: RetryResult<(), X>, calls: nat, trace: seq<Effect>)
    ensures Explains(AsCall(action), isE, when, recover, maxAttempts, r, calls, trace)
  {
    r, calls, trace := RetryAndRecover(AsCall(action), isE, when, recover, maxAttempts);
  }

  /** `() => { action(); return 0; }`, with unit for the discarded value. */
  function AsCall<X>(action: nat -> Option<X>): nat -> Attempt<(), X>
  {
    (k: nat) => if action(k).Some? then Throw(action(k).value) else Value(())
  }

  /** After the first call, the recoveries and the further calls alternate, and a recovery never comes last. */
  lemma {:induction false} TraceShape(calls: nat, hasRecovery: bool)
    requires calls >= 1
    ensures var t := Trace(calls, hasRecovery);
      hasRecovery ==> |t| == 2 * calls - 1 && forall i :: 0 <= i < |t| ==> t[i] == if i % 2 == 0 then Call else Recover
    ensures var t := Trace(calls, hasRecovery);
      !hasRecovery ==> |t| == calls && forall i :: 0 <= i < |t| ==> t[i] == Call
  {
    if calls > 1 {
      TraceShape(calls - 1, hasRecovery);
      var p := Trace(calls - 1, hasRecovery);
      var t := Trace(calls, hasRecovery);
      forall i | 0 <= i < |p| ensures t[i] == p[i] {
      }
    }
  }

  /** When all of the first `n` calls threw, their exceptions are kept one per call, in call order. */
  lemma {:induction false} ExceptionsInOrder<T, X>(call: nat -> Attempt<T, X>, n: nat)
    requires forall i :: 0 <= i < n ==> call(i).Throw?
    ensures |Exceptions(call, n)| == n
    ensures forall i :: 0 <= i < n ==> Exceptions(call, n)[i] == call(i).exception
  {
    if n > 0 {
      ExceptionsInOrder(call, n - 1);
    }
  }

  /** The result, the number of calls and the effects are determined by the inputs. */
  lemma Deterministic<T, X>(call: nat -> Attempt<T, X>, isE: X -> bool, when: Option<X -> Attempt<bool, X>>,
                            recover: Option<nat -> Option<X>>, maxAttempts: int32,
                            r1: RetryResult<T, X>, calls1: nat, trace1: seq<Effect>,
                            r2: RetryResult<T, X>, calls2: nat, trace2: seq<Effect>)
    requires Explains(call, isE, when, recover, maxAttempts, r1, calls1, trace1)
    requires Explains(call, isE, when, recover, maxAttempts, r2, calls2, trace2)
    ensures r1 == r2 && calls1 == calls2 && trace1 == trace2
  {
    if calls1 < calls2 {
      NotLast(call, isE, when, recover, maxAttempts, r1, calls1, trace1);
    } else if calls2 < calls1 {
      NotLast(call, isE, when, recover, maxAttempts, r2, calls2, trace2);
    }
  }

  /** A run stops at its last call: that call is not one that is retried with attempts left. */
  lemma NotLast<T, X>(call: nat -> Attempt<T, X>, isE: X -> bool, when: Option<X -> Attempt<bool, X>>,
                      recover: Option<nat -> Option<X>>, maxAttempts: int32,
                      r: RetryResult<T, X>, calls: nat, trace: seq<Effect>)
    requires Explains(call, isE, when, recover, maxAttempts, r, calls, trace)
    ensures !(Retried(call, isE, when, recover, calls - 1) && calls - 1 < Retries(maxAttempts))
  {
  }

  /** The first value returned ends the run: no later call happens and the value is the result. */
  lemma FirstValueReturned<T, X>(call: nat -> Attempt<T, X>, isE: X -> bool, when: Option<X -> Attempt<bool, X>>,
                                 recover: Option<nat -> Option<X>>, maxAttempts: int32,
                                 r: RetryResult<T, X>, calls: nat, trace: seq<Effect>, k: nat)
    requires Explains(call, isE, when, recover, maxAttempts, r, calls, trace)
    requires call(k).Value? && k <= Retries(maxAttempts)
    requires forall i :: 0 <= i < k ==> Retried(call, isE, when, recover, i)
    ensures calls == k + 1 && r == Returned(call(k).value) && trace == Trace(k + 1, recover.Some?)
  {
    assert !Retried(call, isE, when, recover, k);
    if calls - 1 < k {
      NotLast(call, isE, when, recover, maxAttempts, r, calls, trace);
    }
  }

  /**
   * A function that always throws an accepted exception, with a recovery
   * that always completes, is called `Retries + 1` times, `maxAttempts + 1`
   * for a positive count and once otherwise, and all its exceptions are
   * aggregated in order.
   */
  lemma AlwaysFailing<T, X>(call: nat -> Attempt<T, X>, isE: X -> bool, when: Option<X -> Attempt<bool, X>>,
                            recover: Option<nat -> Option<X>>, maxAttempts: int32,
                            r: RetryResult<T, X>, calls: nat, trace: seq<Effect>)
    requires Explains(call, isE, when, recover, maxAttempts, r, calls, trace)
    requires forall i: nat :: Retried(call, isE, when, recover, i)
    ensures calls == Retries(maxAttempts) + 1
    ensures maxAttempts > 0 ==> calls == maxAttempts as int + 1
    ensures maxAttempts <= 0 ==> calls == 1
    ensures r.Aggregate? && |r.exceptions| == calls && trace == Trace(calls, recover.Some?)
    ensures forall i :: 0 <= i < calls ==> call(i).Throw? && r.exceptions[i] == call(i).exception
  {
    assert Retried(call, isE, when, recover, calls - 1);
    forall i | 0 <= i < calls ensures call(i).Throw? {
      assert Retried(call, isE, when, recover, i);
    }
    ExceptionsInOrder(call, calls);
  }

  /**
   * A first failure the condition rejects ends the run after one call, with
   * an aggregate holding that exception only; without recovery in between.
   */
  lemma RejectedFirstFailure<T, X>(call: nat -> Attempt<T, X>, isE: X -> bool, when: Option<X -> Attempt<bool, X>>,
                                   recover: Option<nat -> Option<X>>, maxAttempts: int32,
                                   r: RetryResult<T, X>, calls: nat, trace: seq<Effect>)
    requires Explains(call, isE, when, recover, maxAttempts, r, calls, trace)
    requires call(0).Throw? && isE(call(0).exception) && Condition(when, call(0).exception) == Value(false)
    ensures calls == 1 && r == Aggregate([call(0).exception]) && trace == [Call]
  {
    assert !Retried(call, isE, when, recover, 0);
    assert Exceptions(call, 1) == [call(0).exception];
  }

  /**
   * When the condition throws on a caught exception while attempts remain,
   * that exception ends the run at once, with no recovery and no aggregate.
   */
  lemma ConditionThrowsPropagates<T, X>(call: nat -> Attempt<T, X>, isE: X -> bool, when: Option<X -> Attempt<bool, X>>,
                                        recover: Option<nat -> Option<X>>, maxAttempts: int32,
                                        r: RetryResult<T, X>, calls: nat, trace: seq<Effect>, k: nat)
    requires Explains(call, isE, when, recover, maxAttempts, r, calls, trace)
    requires forall i :: 0 <= i < k ==> Retried(call, isE, when, recover, i)
    requires k < Retries(maxAttempts) && call(k).Throw? && isE(call(k).exception)
    requires Condition(when, call(k).exception).Throw?
    ensures calls == k + 1 && r == Propagated(Condition(when, call(k).exception).exception)
    ensures trace == Trace(k + 1, recover.Some?)
  {
    assert !Retried(call, isE, when, recover, k);
    if calls - 1 < k {
      NotLast(call, isE, when, recover, maxAttempts, r, calls, trace);
    }
  }

  /**
   * When the recovery action throws before a retry, that exception ends the
   * run at once, after the recovery and before any further call.
   */
  lemma RecoveryThrowsPropagates<T, X>(call: nat -> Attempt<T, X>, isE: X -> bool, when: Option<X -> Attempt<bool, X>>,
                                       recover: Option<nat -> Option<X>>, maxAttempts: int32,
                                       r: RetryResult<T, X>, calls: nat, trace: seq<Effect>, k: nat)
    requires Explains(call, isE, when, recover, maxAttempts, r, calls, trace)
    requires forall i :: 0 <= i < k ==> Retried(call, isE, when, recover, i)
    requires k < Retries(maxAttempts) && RecoveryFails(call, isE, when, recover, k)
    ensures calls == k + 1 && r == Propagated(Recovery(recover, k).value)
    ensures trace == Trace(k + 1, true) + [Recover]
  {
    assert !Retried(call, isE, when, recover, k);
    if calls - 1 < k {
      NotLast(call, isE, when, recover, maxAttempts, r, calls, trace);
    }
  }
}
