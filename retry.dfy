/**
 * The bounded retry primitive: an operation is attempted until it succeeds, is cancelled,
 * or has failed `retries` times, with a fixed sleep between attempts and a hook after each one.
 *
 * The operation is abstract: `op(n)` is the outcome of the attempt made after `n` earlier
 * (failed) attempts. Time is not modelled; each sleep, log line and hook call is an event in
 * the call's trace. The counters are Java `int`s and wrap around at 32 bits.
 */
module Retry {

  const DefaultNumberOfRetries: Int32 := 15
  const DefaultWaitTime: Int64 := 100

  const TwoTo31: int := 0x8000_0000
  const TwoTo32: int := 0x1_0000_0000

  type Int32 = x: int | -0x8000_0000 <= x < 0x8000_0000
  type Int64 = x: int | -0x8000_0000_0000_0000 <= x < 0x8000_0000_0000_0000

  /** Java's `x++` on an `int`. */
  function Inc32(x: Int32): Int32
  {
    if x == TwoTo31 - 1 then -TwoTo31 else x + 1
  }

  /** How many `Inc32` steps lead from `from` to `to`. */
  function StepsTo(from: Int32, to: Int32): nat
  {
    if from <= to then to - from else to - from + TwoTo32
  }

  /** What one invocation of the operation does. */
  datatype Outcome<+T> = Success(value: T) | Failure | Cancelled

  /** The exceptions that can leave `call`. */
  datatype Thrown =
    | OperationFailed     // the last failure, once the budget is used up
    | OperationCancelled  // a CancellationException, rethrown at once
    | NegativeSleep       // Thread.sleep rejects a negative wait time

  datatype CallResult<+T> = Returned(value: T) | Threw(error: Thrown)

  /** Observable effects of one call, in order. */
  datatype Event =
    | Attempt
    | RetryLogged(retry: int)
    | StackTraceLogged
    | Slept(millis: int)
    | HookRan

  datatype Execution<+T> = Execution(result: CallResult<T>, trace: seq<Event>)

  datatype EventKind = AttemptKind | RetryLogKind | StackTraceKind | SleepKind | HookKind

  function KindOf(e: Event): EventKind
  {
    match e
    case Attempt => AttemptKind
    case RetryLogged(_) => RetryLogKind
    case StackTraceLogged => StackTraceKind
    case Slept(_) => SleepKind
    case HookRan => HookKind
  }

  function Count(t: seq<Event>, k: EventKind): nat
  {
    if t == [] then 0 else (if KindOf(t[0]) == k then 1 else 0) + Count(t[1..], k)
  }

  lemma {:induction false} CountAppend(a: seq<Event>, b: seq<Event>, k: EventKind)
    ensures Count(a + b, k) == Count(a, k) + Count(b, k)
  {
    if a != [] {
      assert (a + b)[1..] == a[1..] + b;
      CountAppend(a[1..], b, k);
    } else {
      assert a + b == b;
    }
  }

  /**
   * How many more failures are retried once the counter holds `retry`: the next failure is
   * terminal exactly when this is 0. The counter must be incremented until it equals `retries`,
   * going all the way round when it already does.
   */
  function Left(retries: Int32, retry: Int32): nat
  {
    var d := StepsTo(retry, retries);
    if d == 0 then TwoTo32 - 1 else d - 1
  }

  lemma TerminalIffNoneLeft(retries: Int32, retry: Int32)
    ensures Inc32(retry) == retries <==> Left(retries, retry) == 0
  {
  }

  lemma LeftStep(retries: Int32, retry: Int32)
    requires Left(retries, retry) != 0
    ensures Left(retries, Inc32(retry)) == Left(retries, retry) - 1
  {
  }

  /**
   * What `call` does from the point where `n` attempts have failed (none of them terminally)
   * and the failure counter holds `retry`: the result it ends with and the events it produces
   * from there on. A call starts at `Run(retries, waitTime, op, 0, 0)`.
   */
  function Run<T>(retries: Int32, waitTime: Int64, op: nat -> Outcome<T>, n: nat, retry: Int32): (e: Execution<T>)
    decreases Left(retries, retry)
  {
    match op(n)
    case Success(v) => Execution(Returned(v), [Attempt, HookRan])
    case Cancelled => Execution(Threw(OperationCancelled), [Attempt, HookRan])
    case Failure =>
      var next := Inc32(retry);
      if next == retries then
        Execution(Threw(OperationFailed), [Attempt, HookRan])
      else
        if waitTime < 0 then
          Execution(Threw(NegativeSleep), AbortedEvents(next))
        else
          TerminalIffNoneLeft(retries, retry);
          LeftStep(retries, retry);
          var rest := Run(retries, waitTime, op, n + 1, next);
          Execution(rest.result, AttemptEvents(next, waitTime) + rest.trace)
  }

  /** The events of one retried failure, followed by those of the later attempts. */
  lemma RunAfterFailure<T>(retries: Int32, waitTime: Int64, op: nat -> Outcome<T>, n: nat, retry: Int32)
    requires op(n) == Failure && Inc32(retry) != retries && waitTime >= 0
    ensures Left(retries, Inc32(retry)) < Left(retries, retry)
    ensures Run(retries, waitTime, op, n, retry).result == Run(retries, waitTime, op, n + 1, Inc32(retry)).result
    ensures Run(retries, waitTime, op, n, retry).trace
         == AttemptEvents(Inc32(retry), waitTime) + Run(retries, waitTime, op, n + 1, Inc32(retry)).trace
  {
    TerminalIffNoneLeft(retries, retry);
    LeftStep(retries, retry);
  }

  /** The attempts that end the call, one case each. */
  lemma RunEnds<T>(retries: Int32, waitTime: Int64, op: nat -> Outcome<T>, n: nat, retry: Int32)
    ensures op(n).Success? ==> Run(retries, waitTime, op, n, retry) == Execution(Returned(op(n).value), [Attempt, HookRan])
    ensures op(n).Cancelled? ==> Run(retries, waitTime, op, n, retry) == Execution(Threw(OperationCancelled), [Attempt, HookRan])
    ensures op(n).Failure? && Inc32(retry) == retries ==>
      Run(retries, waitTime, op, n, retry) == Execution(Threw(OperationFailed), [Attempt, HookRan])
    ensures op(n).Failure? && Inc32(retry) != retries && waitTime < 0 ==>
      Run(retries, waitTime, op, n, retry) == Execution(Threw(NegativeSleep), AbortedEvents(Inc32(retry)))
  {
  }

  /**
   * Where a call's result comes from: a returned value is some attempt's success, a rethrown
   * cancellation some attempt's cancellation, and the sleep's exception needs a negative wait time.
   */
  lemma {:induction false} RunResultOrigin<T>(retries: Int32, waitTime: Int64, op: nat -> Outcome<T>, n: nat, retry: Int32)
    ensures var r := Run(retries, waitTime, op, n, retry).result;
      && (r.Returned? ==> exists k :: n <= k && op(k) == Success(r.value))
      && (r == Threw(OperationCancelled) ==> exists k :: n <= k && op(k) == Cancelled)
      && (r == Threw(NegativeSleep) ==> waitTime < 0)
    decreases Left(retries, retry)
  {
    TerminalIffNoneLeft(retries, retry);
    if op(n).Failure? && Inc32(retry) != retries && waitTime >= 0 {
      RunAfterFailure(retries, waitTime, op, n, retry);
      RunResultOrigin(retries, waitTime, op, n + 1, Inc32(retry));
    }
  }

  /** The events of a failure that left the counter at `retry` and whose sleep was refused. */
  function AbortedEvents(retry: Int32): seq<Event>
  {
    [Attempt, RetryLogged(retry)] + (if retry == 1 then [StackTraceLogged] else []) + [HookRan]
  }

  /** The events of a retried failure that left the counter at `retry`. */
  function AttemptEvents(retry: Int32, waitTime: Int64): seq<Event>
  {
    [Attempt, RetryLogged(retry)] + (if retry == 1 then [StackTraceLogged] else []) + [Slept(waitTime), HookRan]
  }

  function Attempts(t: seq<Event>): nat { Count(t, AttemptKind) }
  function Sleeps(t: seq<Event>): nat { Count(t, SleepKind) }
  function Hooks(t: seq<Event>): nat { Count(t, HookKind) }
  function RetryLogs(t: seq<Event>): nat { Count(t, RetryLogKind) }
  function StackTraces(t: seq<Event>): nat { Count(t, StackTraceKind) }

  lemma CountCons(x: Event, t: seq<Event>, k: EventKind)
    ensures Count([x] + t, k) == (if KindOf(x) == k then 1 else 0) + Count(t, k)
  {
    assert ([x] + t)[1..] == t;
  }

  lemma FinalEventsCount(k: EventKind)
    ensures Count([Attempt, HookRan], k) == (if k == AttemptKind || k == HookKind then 1 else 0)
  {
    CountCons(HookRan, [], k);
    CountCons(Attempt, [HookRan], k);
    assert [Attempt, HookRan] == [Attempt] + [HookRan];
    assert [HookRan] + [] == [HookRan];
  }

  lemma FinalEventsCounts()
    ensures Attempts([Attempt, HookRan]) == 1 && Hooks([Attempt, HookRan]) == 1
    ensures Sleeps([Attempt, HookRan]) == 0 && RetryLogs([Attempt, HookRan]) == 0
    ensures StackTraces([Attempt, HookRan]) == 0
  {
    FinalEventsCount(AttemptKind);
    FinalEventsCount(HookKind);
    FinalEventsCount(SleepKind);
    FinalEventsCount(RetryLogKind);
    FinalEventsCount(StackTraceKind);
  }

  lemma AttemptEventsCount(retry: Int32, waitTime: Int64, k: EventKind)
    ensures Count(AttemptEvents(retry, waitTime), k)
         == if k == StackTraceKind then (if retry == 1 then 1 else 0) else 1
  {
    var t := AttemptEvents(retry, waitTime);
    var tail := [Slept(waitTime)] + [HookRan];
    var mid := if retry == 1 then [StackTraceLogged] + tail else tail;
    assert t == [Attempt] + ([RetryLogged(retry)] + mid);
    CountCons(HookRan, [], k);
    assert [HookRan] + [] == [HookRan];
    CountCons(Slept(waitTime), [HookRan], k);
    CountCons(StackTraceLogged, tail, k);
    CountCons(RetryLogged(retry), mid, k);
    CountCons(Attempt, [RetryLogged(retry)] + mid, k);
  }

  lemma AbortedEventsCount(retry: Int32, k: EventKind)
    ensures Count(AbortedEvents(retry), k)
         == if k == StackTraceKind then (if retry == 1 then 1 else 0)
            else if k == AttemptKind || k == HookKind || k == RetryLogKind then 1 else 0
  {
    var t := AbortedEvents(retry);
    var mid := if retry == 1 then [StackTraceLogged] + [HookRan] else [HookRan];
    assert t == [Attempt] + ([RetryLogged(retry)] + mid);
    CountCons(HookRan, [], k);
    assert [HookRan] + [] == [HookRan];
    CountCons(StackTraceLogged, [HookRan], k);
    CountCons(RetryLogged(retry), mid, k);
    CountCons(Attempt, [RetryLogged(retry)] + mid, k);
  }

  lemma AttemptEventsCounts(retry: Int32, waitTime: Int64)
    ensures var t := AttemptEvents(retry, waitTime);
      && Attempts(t) == 1 && Hooks(t) == 1 && Sleeps(t) == 1 && RetryLogs(t) == 1
      && StackTraces(t) == (if retry == 1 then 1 else 0)
  {
    AttemptEventsCount(retry, waitTime, AttemptKind);
    AttemptEventsCount(retry, waitTime, HookKind);
    AttemptEventsCount(retry, waitTime, SleepKind);
    AttemptEventsCount(retry, waitTime, RetryLogKind);
    AttemptEventsCount(retry, waitTime, StackTraceKind);
  }

  /** A retried failure adds one attempt, hook, sleep and "Retry" line, and a stack trace when the counter becomes 1. */
  lemma RetriedFailureCounts<T>(retries: Int32, waitTime: Int64, op: nat -> Outcome<T>, n: nat, retry: Int32)
    requires op(n) == Failure && Inc32(retry) != retries && waitTime >= 0
    ensures Left(retries, Inc32(retry)) < Left(retries, retry)
    ensures Run(retries, waitTime, op, n, retry).result == Run(retries, waitTime, op, n + 1, Inc32(retry)).result
    ensures var t := Run(retries, waitTime, op, n, retry).trace;
      var t' := Run(retries, waitTime, op, n + 1, Inc32(retry)).trace;
      && Attempts(t) == Attempts(t') + 1 && Hooks(t) == Hooks(t') + 1
      && Sleeps(t) == Sleeps(t') + 1 && RetryLogs(t) == RetryLogs(t') + 1
      && StackTraces(t) == StackTraces(t') + (if Inc32(retry) == 1 then 1 else 0)
  {
    RunAfterFailure(retries, waitTime, op, n, retry);
    var e := AttemptEvents(Inc32(retry), waitTime);
    var t' := Run(retries, waitTime, op, n + 1, Inc32(retry)).trace;
    CountAppend(e, t', AttemptKind);
    CountAppend(e, t', HookKind);
    CountAppend(e, t', SleepKind);
    CountAppend(e, t', RetryLogKind);
    CountAppend(e, t', StackTraceKind);
    AttemptEventsCounts(Inc32(retry), waitTime);
  }

  /** An attempt that succeeds or is cancelled ends the call: one attempt, one hook, nothing else. */
  lemma FinalAttemptCounts<T>(retries: Int32, waitTime: Int64, op: nat -> Outcome<T>, n: nat, retry: Int32)
    requires op(n) != Failure
    ensures var e := Run(retries, waitTime, op, n, retry);
      && e.result == (if op(n).Success? then Returned(op(n).value) else Threw(OperationCancelled))
      && Attempts(e.trace) == 1 && Hooks(e.trace) == 1 && Sleeps(e.trace) == 0 && RetryLogs(e.trace) == 0
  {
    FinalEventsCounts();
  }

  /**
   * Failures on attempts n..k-1, all retried, then a success or a cancellation on attempt k:
   * that attempt's outcome ends the call, after k-n+1 attempts and k-n sleeps.
   */
  lemma {:induction false} RunUntilFirstNonFailure<T>(retries: Int32, waitTime: Int64, op: nat -> Outcome<T>,
                                                      n: nat, retry: Int32, k: nat)
    requires n <= k && k - n <= Left(retries, retry) && waitTime >= 0
    requires forall i :: n <= i < k ==> op(i) == Failure
    requires op(k) != Failure
    ensures var e := Run(retries, waitTime, op, n, retry);
      && e.result == (if op(k).Success? then Returned(op(k).value) else Threw(OperationCancelled))
      && Attempts(e.trace) == k - n + 1 && Hooks(e.trace) == k - n + 1
      && Sleeps(e.trace) == k - n && RetryLogs(e.trace) == k - n
    decreases k - n
  {
    if n == k {
      FinalAttemptCounts(retries, waitTime, op, n, retry);
    } else {
      TerminalIffNoneLeft(retries, retry);
      LeftStep(retries, retry);
      RetriedFailureCounts(retries, waitTime, op, n, retry);
      RunUntilFirstNonFailure(retries, waitTime, op, n + 1, Inc32(retry), k);
    }
  }

  /** Every attempt from n on fails: the call rethrows after Left + 1 attempts. */
  lemma {:induction false} RunAlwaysFailing<T>(retries: Int32, waitTime: Int64, op: nat -> Outcome<T>,
                                               n: nat, retry: Int32)
    requires waitTime >= 0
    requires forall i :: n <= i ==> op(i) == Failure
    ensures var e := Run(retries, waitTime, op, n, retry);
      && e.result == Threw(OperationFailed)
      && Attempts(e.trace) == Left(retries, retry) + 1 && Hooks(e.trace) == Left(retries, retry) + 1
      && Sleeps(e.trace) == Left(retries, retry) && RetryLogs(e.trace) == Left(retries, retry)
    decreases Left(retries, retry)
  {
    TerminalIffNoneLeft(retries, retry);
    if Left(retries, retry) == 0 {
      FinalEventsCounts();
    } else {
      LeftStep(retries, retry);
      RetriedFailureCounts(retries, waitTime, op, n, retry);
      RunAlwaysFailing(retries, waitTime, op, n + 1, Inc32(retry));
    }
  }

  /** k < retries failures, then a success: its value is returned after k+1 attempts and k sleeps. */
  lemma SucceedsAfterFailures<T>(retries: Int32, waitTime: Int64, op: nat -> Outcome<T>, k: nat, v: T)
    requires 0 <= k < retries && waitTime >= 0
    requires forall i :: 0 <= i < k ==> op(i) == Failure
    requires op(k) == Success(v)
    ensures var e := Run(retries, waitTime, op, 0, 0);
      && e.result == Returned(v)
      && Attempts(e.trace) == k + 1 && Hooks(e.trace) == k + 1 && Sleeps(e.trace) == k
  {
    RunUntilFirstNonFailure(retries, waitTime, op, 0, 0, k);
  }

  /**
   * A cancellation after k < retries failures is rethrown at once: k+1 attempts, k sleeps,
   * so it causes no sleep of its own.
   */
  lemma CancellationRethrownAtOnce<T>(retries: Int32, waitTime: Int64, op: nat -> Outcome<T>, k: nat)
    requires 0 <= k < retries && waitTime >= 0
    requires forall i :: 0 <= i < k ==> op(i) == Failure
    requires op(k) == Cancelled
    ensures var e := Run(retries, waitTime, op, 0, 0);
      && e.result == Threw(OperationCancelled)
      && Attempts(e.trace) == k + 1 && Hooks(e.trace) == k + 1 && Sleeps(e.trace) == k
  {
    RunUntilFirstNonFailure(retries, waitTime, op, 0, 0, k);
  }

  /** With retries = N >= 1 and a persistently failing operation: N attempts, N-1 sleeps. */
  lemma ExhaustsRetries<T>(retries: Int32, waitTime: Int64, op: nat -> Outcome<T>)
    requires 1 <= retries && waitTime >= 0
    requires forall i :: op(i) == Failure
    ensures var e := Run(retries, waitTime, op, 0, 0);
      && e.result == Threw(OperationFailed)
      && Attempts(e.trace) == retries && Hooks(e.trace) == retries && Sleeps(e.trace) == retries - 1
  {
    RunAlwaysFailing(retries, waitTime, op, 0, 0);
  }

  /**
   * With retries <= 0 the equality test is only met once the 32-bit counter has gone all the way
   * round: a persistently failing operation is attempted 2^32 + retries times.
   */
  lemma NonPositiveRetriesWrapAround<T>(retries: Int32, waitTime: Int64, op: nat -> Outcome<T>)
    requires retries <= 0 && waitTime >= 0
    requires forall i :: op(i) == Failure
    ensures var e := Run(retries, waitTime, op, 0, 0);
      && e.result == Threw(OperationFailed)
      && Attempts(e.trace) == TwoTo32 + retries && Sleeps(e.trace) == TwoTo32 + retries - 1
  {
    RunAlwaysFailing(retries, waitTime, op, 0, 0);
  }

  /** The budget is never exceeded: at most Left + 1 attempts, so at most `retries` when it is positive. */
  lemma {:induction false} AttemptsWithinBudget<T>(retries: Int32, waitTime: Int64, op: nat -> Outcome<T>,
                                                   n: nat, retry: Int32)
    ensures Attempts(Run(retries, waitTime, op, n, retry).trace) <= Left(retries, retry) + 1
    decreases Left(retries, retry)
  {
    TerminalIffNoneLeft(retries, retry);
    var t := Run(retries, waitTime, op, n, retry).trace;
    if op(n).Failure? && Inc32(retry) != retries && waitTime >= 0 {
      RetriedFailureCounts(retries, waitTime, op, n, retry);
      AttemptsWithinBudget(retries, waitTime, op, n + 1, Inc32(retry));
    } else if op(n).Failure? && Inc32(retry) != retries {
      AbortedEventsCount(Inc32(retry), AttemptKind);
    } else {
      FinalEventsCounts();
    }
  }

  /** The budget of the default policy: at most 15 attempts per call. */
  lemma DefaultPolicyAtMostFifteenAttempts<T>(waitTime: Int64, op: nat -> Outcome<T>)
    ensures Attempts(Run(DefaultNumberOfRetries, waitTime, op, 0, 0).trace) <= 15
  {
    AttemptsWithinBudget(DefaultNumberOfRetries, waitTime, op, 0, 0);
  }

  /** The hook runs once per attempt, whatever the attempt's outcome. */
  lemma {:induction false} HookRunsOncePerAttempt<T>(retries: Int32, waitTime: Int64, op: nat -> Outcome<T>,
                                                     n: nat, retry: Int32)
    ensures var t := Run(retries, waitTime, op, n, retry).trace; Hooks(t) == Attempts(t) >= 1
    decreases Left(retries, retry)
  {
    TerminalIffNoneLeft(retries, retry);
    if op(n).Failure? && Inc32(retry) != retries && waitTime >= 0 {
      RetriedFailureCounts(retries, waitTime, op, n, retry);
      HookRunsOncePerAttempt(retries, waitTime, op, n + 1, Inc32(retry));
    } else if op(n).Failure? && Inc32(retry) != retries {
      AbortedEventsCount(Inc32(retry), AttemptKind);
      AbortedEventsCount(Inc32(retry), HookKind);
    } else {
      FinalEventsCounts();
    }
  }

  /**
   * With a valid wait time, every attempt but the last is followed by one "Retry #n" line and
   * one sleep.
   */
  lemma {:induction false} OneSleepPerRetriedFailure<T>(retries: Int32, waitTime: Int64, op: nat -> Outcome<T>,
                                                        n: nat, retry: Int32)
    requires waitTime >= 0
    ensures var t := Run(retries, waitTime, op, n, retry).trace;
      Sleeps(t) + 1 == Attempts(t) && RetryLogs(t) == Sleeps(t)
    decreases Left(retries, retry)
  {
    TerminalIffNoneLeft(retries, retry);
    if op(n).Failure? && Inc32(retry) != retries {
      RetriedFailureCounts(retries, waitTime, op, n, retry);
      OneSleepPerRetriedFailure(retries, waitTime, op, n + 1, Inc32(retry));
    } else {
      FinalEventsCounts();
    }
  }

  /**
   * Once the counter is away from 0 and the budget ends before it could come back round to 0,
   * no further stack trace is logged.
   */
  lemma {:induction false} NoLaterStackTrace<T>(retries: Int32, waitTime: Int64, op: nat -> Outcome<T>,
                                                n: nat, retry: Int32)
    requires Left(retries, retry) <= StepsTo(retry, 0)
    ensures StackTraces(Run(retries, waitTime, op, n, retry).trace) == 0
    decreases Left(retries, retry)
  {
    TerminalIffNoneLeft(retries, retry);
    if op(n).Failure? && Inc32(retry) != retries && waitTime >= 0 {
      RetriedFailureCounts(retries, waitTime, op, n, retry);
      NoLaterStackTrace(retries, waitTime, op, n + 1, Inc32(retry));
    } else if op(n).Failure? && Inc32(retry) != retries {
      AbortedEventsCount(Inc32(retry), StackTraceKind);
    } else {
      FinalEventsCounts();
    }
  }

  /**
   * The full stack trace is logged at most once per call: exactly when the first attempt fails
   * and is retried (the first increment makes the log counter 1).
   */
  lemma StackTraceLoggedOnce<T>(retries: Int32, waitTime: Int64, op: nat -> Outcome<T>)
    ensures StackTraces(Run(retries, waitTime, op, 0, 0).trace) == if op(0) == Failure && retries != 1 then 1 else 0
  {
    TerminalIffNoneLeft(retries, 0);
    if op(0) == Failure && retries != 1 && waitTime >= 0 {
      RunAfterFailure(retries, waitTime, op, 0, 0);
      NoLaterStackTrace(retries, waitTime, op, 1, 1);
      CountAppend(AttemptEvents(1, waitTime), Run(retries, waitTime, op, 1, 1).trace, StackTraceKind);
      AttemptEventsCount(1, waitTime, StackTraceKind);
    } else if op(0) == Failure && retries != 1 {
      AbortedEventsCount(1, StackTraceKind);
    } else {
      FinalEventsCounts();
    }
  }

  /** A negative wait time: the first retried failure ends the call with Thread.sleep's exception. */
  lemma NegativeWaitTimeThrows<T>(retries: Int32, waitTime: Int64, op: nat -> Outcome<T>)
    requires waitTime < 0 && retries != 1 && op(0) == Failure
    ensures var e := Run(retries, waitTime, op, 0, 0);
      e.result == Threw(NegativeSleep) && Attempts(e.trace) == 1 && Sleeps(e.trace) == 0
  {
    AbortedEventsCount(1, AttemptKind);
    AbortedEventsCount(1, SleepKind);
  }

  /**
   * One step of `Call`'s loop when the attempt ends the call: with the events logged so far in
   * `trace`, the whole execution is `trace` followed by the final attempt's events.
   */
  lemma StepFinal<T>(retries: Int32, waitTime: Int64, op: nat -> Outcome<T>, n: nat, retry: Int32,
                     whole: Execution<T>, trace: seq<Event>)
    requires whole.result == Run(retries, waitTime, op, n, retry).result
    requires whole.trace == trace + Run(retries, waitTime, op, n, retry).trace
    ensures op(n).Success? ==> whole == Execution(Returned(op(n).value), trace + [Attempt, HookRan])
    ensures op(n).Cancelled? ==> whole == Execution(Threw(OperationCancelled), trace + [Attempt, HookRan])
    ensures op(n).Failure? && Inc32(retry) == retries ==>
      whole == Execution(Threw(OperationFailed), trace + [Attempt, HookRan])
    ensures op(n).Failure? && Inc32(retry) != retries && waitTime < 0 ==>
      whole == Execution(Threw(NegativeSleep), trace + AbortedEvents(Inc32(retry)))
  {
    RunEnds(retries, waitTime, op, n, retry);
  }

  /** One step of `Call`'s loop after a retried failure: the attempt's events move into `trace`. */
  lemma StepRetried<T>(retries: Int32, waitTime: Int64, op: nat -> Outcome<T>, n: nat, retry: Int32,
                       whole: Execution<T>, trace: seq<Event>)
    requires op(n) == Failure && Inc32(retry) != retries && waitTime >= 0
    requires whole.result == Run(retries, waitTime, op, n, retry).result
    requires whole.trace == trace + Run(retries, waitTime, op, n, retry).trace
    ensures Left(retries, Inc32(retry)) < Left(retries, retry)
    ensures whole.result == Run(retries, waitTime, op, n + 1, Inc32(retry)).result
    ensures whole.trace == (trace + AttemptEvents(Inc32(retry), waitTime)) + Run(retries, waitTime, op, n + 1, Inc32(retry)).trace
  {
    RunAfterFailure(retries, waitTime, op, n, retry);
    var later := Run(retries, waitTime, op, n + 1, Inc32(retry)).trace;
    assert trace + (AttemptEvents(Inc32(retry), waitTime) + later) == (trace + AttemptEvents(Inc32(retry), waitTime)) + later;
  }

  /** A Java `RetriableCallable`; the abstract `retriableCall` is the `op` given to `Call`. */
  class RetriableCallable<T> {
    var retries: Int32
    var waitTime: Int64

    /** The no-argument constructor: the default policy. */
    constructor ()
      ensures retries == DefaultNumberOfRetries && waitTime == DefaultWaitTime
    {
      retries := DefaultNumberOfRetries;
      waitTime := DefaultWaitTime;
    }

    constructor WithPolicy(retries: Int32, waitTime: Int64)
      ensures this.retries == retries && this.waitTime == waitTime
    {
      this.retries := retries;
      this.waitTime := waitTime;
    }

    method Set(retries: Int32, waitTime: Int64)
      modifies this
      ensures this.retries == retries && this.waitTime == waitTime
    {
      this.retries := retries;
      this.waitTime := waitTime;
    }

    /** The retry loop; `forEachExecution` is the `HookRan` event at the end of every attempt. */
    method Call(op: nat -> Outcome<T>) returns (r: CallResult<T>, trace: seq<Event>)
      ensures Execution(r, trace) == Run(retries, waitTime, op, 0, 0)
    {
      var retry: Int32 := 0;
      var logCounter: Int32 := 0;
      var n: nat := 0;
      trace := [];
      ghost var whole := Run(retries, waitTime, op, 0, 0);
      while true
        invariant logCounter == retry
        invariant whole.result == Run(retries, waitTime, op, n, retry).result
        invariant whole.trace == trace + Run(retries, waitTime, op, n, retry).trace
        decreases Left(retries, retry)
      {
        StepFinal(retries, waitTime, op, n, retry, whole, trace);
        var outcome := op(n);
        match outcome {
          case Success(v) =>
            r, trace := Returned(v), trace + [Attempt, HookRan];
            return;
          case Cancelled =>
            r, trace := Threw(OperationCancelled), trace + [Attempt, HookRan];
            return;
          case Failure =>
            ghost var before := retry;
            retry := Inc32(retry);
            if retry == retries {
              r, trace := Threw(OperationFailed), trace + [Attempt, HookRan];
              return;
            }
            var events := [Attempt, RetryLogged(retry)];
            logCounter := Inc32(logCounter);
            // The full stack trace is logged only when the log counter reaches 1.
            events := events + (if logCounter == 1 then [StackTraceLogged] else []);
            if waitTime < 0 {
              assert events + [HookRan] == AbortedEvents(retry);
              r, trace := Threw(NegativeSleep), trace + (events + [HookRan]);
              return;
            }
            events := events + [Slept(waitTime), HookRan];
            assert events == AttemptEvents(retry, waitTime);
            StepRetried(retries, waitTime, op, n, before, whole, trace);
            trace := trace + events;
            n := n + 1;
        }
      }
    }
  }
}
