/**
 * `ConditionDialog`: the state machine behind a dialog that waits for a
 * condition. The dialog starts in `init`, the load handler moves it to
 * `unknown`, truth reports move it between `good` and `bad`, and clicks and
 * timer ticks end it in one of four exit states, which no later event leaves.
 * Timeouts are .NET `TimeSpan` values counted in ticks of 100 ns. The view
 * is reduced to the two of its properties the handlers set from the state:
 * the shown value and whether the good button is enabled. The background threads that
 * drive the handlers are left out; each handler is one event.
 */
module ConditionDialogs {
  import opened Wrappers

  /** A `TimeSpan`, in ticks. */
  newtype int64 = x: int | -0x8000_0000_0000_0000 <= x < 0x8000_0000_0000_0000

  /** `TimeSpan.MaxValue` and `TimeSpan.MinValue`. */
  const MaxTicks: int64 := 0x7fff_ffff_ffff_ffff
  const MinTicks: int64 := -0x8000_0000_0000_0000

  /** `timerPeriod`: 100 ms. */
  const TimerPeriod: int64 := 1_000_000

  datatype State = Init | Unknown | Good | Bad | GoodTimedOut | GoodUserExit | BadTimedOut | BadUserExit

  /** The states in which the dialog is open after loading. */
  predicate Live(s: State)
  {
    s == Unknown || s == Good || s == Bad
  }

  /** The four exit states. */
  predicate Exited(s: State)
  {
    s == GoodTimedOut || s == GoodUserExit || s == BadTimedOut || s == BadUserExit
  }

  /** What a handler throws: `InvalidOperationException(state)`, or `OverflowException` from `TimeSpan` subtraction. */
  datatype DialogError = InvalidOperation(state: State) | Overflow

  /** The handlers, each an event. */
  datatype Event = Load | BadClick | GoodClick | ValueChanged(value: string) | TruthChanged(truth: bool) | TimerTick

  /** The fields the handlers read and write. */
  datatype Dialog = Dialog(state: State, gto: int64, bto: int64, positiveTimeout: int64, negativeTimeout: int64,
                           shownValue: string, goodButtonEnabled: Option<bool>)

  /** The dialog as `Forr` sets it up, before the view has loaded. */
  function Initial(positiveTimeout: int64, negativeTimeout: int64): Dialog
  {
    Dialog(Init, 0, 0, positiveTimeout, negativeTimeout, "", None)
  }

  /** `a - b` on `TimeSpan`, which throws when the difference is out of range. */
  function Subtract(a: int64, b: int64): (r: Option<int64>)
    ensures r.Some? <==> MinTicks as int <= a as int - b as int <= MaxTicks as int
    ensures r.Some? ==> r.value as int == a as int - b as int
  {
    var d := a as int - b as int;
    if MinTicks as int <= d <= MaxTicks as int then Some(d as int64) else None
  }

  /** One timer period off a countdown, except that `TimeSpan.MaxValue` stands for no timeout and stays. */
  function CountDown(t: int64): Option<int64>
  {
    if t == MaxTicks then Some(t) else Subtract(t, TimerPeriod)
  }

  /** `EnterExitBad`: timed out when the bad countdown has run out, otherwise the user's exit. */
  function ExitBad(d: Dialog): Dialog
  {
    d.(state := if d.bto <= 0 then BadTimedOut else BadUserExit)
  }

  /** `EnterExitGood`: timed out when the good countdown has run out, otherwise the user's exit. */
  function ExitGood(d: Dialog): Dialog
  {
    d.(state := if d.gto <= 0 then GoodTimedOut else GoodUserExit)
  }

  /** `OnValueChanged` and `OnTruthChanged` first wait until the dialog has left `init`. */
  predicate Ready(d: Dialog, e: Event)
  {
    (e.ValueChanged? || e.TruthChanged?) ==> d.state != Init
  }

  /** What each handler does, holding the dialog's lock. */
  function Step(d: Dialog, e: Event): (r: Result<Dialog, DialogError>)
    requires Ready(d, e)
    ensures r.Ok? ==> r.value.positiveTimeout == d.positiveTimeout && r.value.negativeTimeout == d.negativeTimeout
    ensures r.Ok? && d.state != Init ==> r.value.state != Init
    ensures Exited(d.state) && e != Load ==> r == Ok(d)
    ensures r.Err? ==> r.error == Overflow || r.error == InvalidOperation(d.state)
  {
    match e
    case Load =>
      if d.state == Init then
        Ok(d.(state := Unknown, gto := d.positiveTimeout, bto := d.negativeTimeout, shownValue := "unknown", goodButtonEnabled := None))
      else Err(InvalidOperation(d.state))
    case BadClick =>
      if Live(d.state) then Ok(ExitBad(d))
      else if Exited(d.state) then Ok(d)
      else Err(InvalidOperation(d.state))
    case GoodClick =>
      if d.state == Good || d.state == Unknown then Ok(ExitGood(d))
      else if Exited(d.state) then Ok(d)
      else Err(InvalidOperation(d.state))
    case ValueChanged(v) =>
      if Live(d.state) then Ok(d.(shownValue := v)) else Ok(d)
    case TruthChanged(t) =>
      if Live(d.state) then
        Ok(d.(goodButtonEnabled := Some(t), state := if t then Good else Bad,
              gto := if d.state == Bad && t then d.positiveTimeout else d.gto))
      else Ok(d)
    case TimerTick =>
      if d.state == Unknown || d.state == Bad then
        var b := CountDown(d.bto);
        if b.None? then Err(Overflow)
        else if b.value <= 0 then Ok(ExitBad(d.(bto := b.value)))
        else Ok(d.(bto := b.value))
      else if d.state == Good then
        var g := CountDown(d.gto);
        if g.None? then Err(Overflow)
        else if g.value <= 0 then Ok(ExitGood(d.(gto := g.value)))
        else Ok(d.(gto := g.value))
      else if Exited(d.state) then Ok(d)
      else Err(InvalidOperation(d.state))
  }

  /** The dialog after a sequence of events from a loaded state, or the first exception. */
  function Run(d: Dialog, es: seq<Event>): Result<Dialog, DialogError>
    requires d.state != Init
    decreases |es|
  {
    if es == [] then Ok(d)
    else
      var r := Step(d, es[0]);
      if r.Err? then r else Run(r.value, es[1..])
  }

  /** An exception the evaluator's task ends with: one the user's function or condition threw, or the `NullReferenceException` of a `null` value. */
  datatype Fault = Thrown(id: nat) | NullReference

  /**
   * What `Forr` does once the view has closed: `po.Wait()` rethrows the
   * evaluator's exception, wrapped in an `AggregateException`, before the
   * state is looked at; otherwise the exit state decides.
   */
  datatype Final = Completed | WaitForTimeout | WaitForAborted | InvalidOperationAtEnd(state: State)
                 | EvaluatorFailed(fault: Fault)

  function Finish(s: State, evaluatorFault: Option<Fault>): (r: Final)
    ensures r.EvaluatorFailed? <==> evaluatorFault.Some?
    ensures r.EvaluatorFailed? ==> r.fault == evaluatorFault.value
    ensures evaluatorFault.None? ==>
              (r == Completed <==> s == GoodTimedOut || s == GoodUserExit)
              && (r == WaitForTimeout <==> s == BadTimedOut)
              && (r == WaitForAborted <==> s == BadUserExit)
              && (r.InvalidOperationAtEnd? <==> !Exited(s))
  {
    if evaluatorFault.Some? then EvaluatorFailed(evaluatorFault.value)
    else
      match s
      case GoodUserExit => Completed
      case GoodTimedOut => Completed
      case BadTimedOut => WaitForTimeout
      case BadUserExit => WaitForAborted
      case _ => InvalidOperationAtEnd(s)
  }

  /** Loading is valid only in `init`; it starts both countdowns from the configured timeouts. */
  lemma LoadOnlyFromInit(d: Dialog)
    ensures Step(d, Load).Ok? <==> d.state == Init
    ensures Step(d, Load).Ok? ==>
      var n := Step(d, Load).value;
      n.state == Unknown && n.gto == d.positiveTimeout && n.bto == d.negativeTimeout
    ensures Step(d, Load).Err? ==> Step(d, Load).error == InvalidOperation(d.state)
  {
  }

  /** In an open state a truth report selects `good` or `bad`; the good countdown restarts only on a change from `bad` to `good`. */
  lemma TruthSelectsState(d: Dialog, t: bool)
    requires Live(d.state)
    ensures Step(d, TruthChanged(t)).Ok?
    ensures var n := Step(d, TruthChanged(t)).value;
      (n.state == Good <==> t) && (n.state == Bad <==> !t) && n.bto == d.bto && n.goodButtonEnabled == Some(t)
    ensures var n := Step(d, TruthChanged(t)).value;
      (d.state == Bad && t ==> n.gto == d.positiveTimeout) && (!(d.state == Bad && t) ==> n.gto == d.gto)
  {
  }

  /**
   * A tick in `unknown` or `bad` takes one period off the bad countdown and
   * exits timed out once it is used up; a countdown of `TimeSpan.MaxValue`
   * never changes, so such a dialog never times out.
   */
  lemma TickOnBadCountdown(d: Dialog)
    requires d.state == Unknown || d.state == Bad
    requires d.bto as int >= MinTicks as int + TimerPeriod as int
    ensures Step(d, TimerTick).Ok?
    ensures var n := Step(d, TimerTick).value;
      n.gto == d.gto && (d.bto == MaxTicks ==> n == d)
    ensures var n := Step(d, TimerTick).value;
      d.bto != MaxTicks ==> (n.bto as int == d.bto as int - TimerPeriod as int
        && (n.state == BadTimedOut <==> n.bto <= 0) && (n.state == d.state <==> n.bto > 0))
  {
  }

  /** The same for a tick in `good`, with the good countdown. */
  lemma TickOnGoodCountdown(d: Dialog)
    requires d.state == Good
    requires d.gto as int >= MinTicks as int + TimerPeriod as int
    ensures Step(d, TimerTick).Ok?
    ensures var n := Step(d, TimerTick).value;
      n.bto == d.bto && (d.gto == MaxTicks ==> n == d)
    ensures var n := Step(d, TimerTick).value;
      d.gto != MaxTicks ==> (n.gto as int == d.gto as int - TimerPeriod as int
        && (n.state == GoodTimedOut <==> n.gto <= 0) && (n.state == Good <==> n.gto > 0))
  {
  }

  /** A countdown near `TimeSpan.MinValue` makes the tick throw instead. */
  lemma TickOverflow(d: Dialog)
    requires d.state == Unknown || d.state == Bad
    requires d.bto as int < MinTicks as int + TimerPeriod as int
    ensures Step(d, TimerTick) == Err(Overflow)
  {
  }

  /** A bad click in an open state exits bad: timed out if the bad countdown is used up, the user's exit otherwise. */
  lemma BadClickExits(d: Dialog)
    requires Live(d.state)
    ensures Step(d, BadClick).Ok?
    ensures Step(d, BadClick).value.state == if d.bto <= 0 then BadTimedOut else BadUserExit
  {
  }

  /** A good click exits good from `unknown` and `good`, and throws in `bad` and `init`. */
  lemma GoodClickExits(d: Dialog)
    ensures d.state == Good || d.state == Unknown ==>
      Step(d, GoodClick).Ok? && Step(d, GoodClick).value.state == if d.gto <= 0 then GoodTimedOut else GoodUserExit
    ensures d.state == Bad || d.state == Init ==> Step(d, GoodClick) == Err(InvalidOperation(d.state))
  {
  }

  /** Events after loading that do not speak for the condition: no good click and no true truth report. */
  predicate Unfavourable(e: Event)
  {
    e != Load && e != GoodClick && e != TruthChanged(true)
  }

  /** The dialog's state while only unfavourable events arrive after a bad countdown of at most zero. */
  ghost predicate DoomedBad(d: Dialog)
  {
    d.state == BadTimedOut
    || ((d.state == Unknown || d.state == Bad) && MinTicks as int + TimerPeriod as int <= d.bto as int <= 0)
  }

  lemma {:induction false} DoomedRun(d: Dialog, es: seq<Event>)
    requires DoomedBad(d)
    requires forall i :: 0 <= i < |es| ==> Unfavourable(es[i])
    requires TimerTick in es
    ensures Run(d, es).Ok? && Run(d, es).value.state == BadTimedOut
    decreases |es|
  {
    var e := es[0];
    var r := Step(d, e);
    assert Unfavourable(e);
    assert r.Ok? && DoomedBad(r.value);
    assert e == TimerTick ==> r.value.state == BadTimedOut;
    var rest := es[1..];
    if TimerTick in rest {
      DoomedRun(r.value, rest);
    } else {
      assert e == TimerTick;
      StaysTimedOut(r.value, rest);
    }
  }

  lemma {:induction false} StaysTimedOut(d: Dialog, es: seq<Event>)
    requires d.state == BadTimedOut
    requires Load !in es
    ensures Run(d, es) == Ok(d)
    decreases |es|
  {
    if es != [] {
      assert es[0] != Load;
      assert es[0] in es;
      StaysTimedOut(d, es[1..]);
    }
  }

  /**
   * A dialog loaded with a negative timeout of at most zero, for a condition
   * that never holds and without a good click, times out at the first timer
   * tick and, unless the evaluator failed, `Forr` throws `WaitForTimeoutException`.
   */
  lemma NonPositiveTimeoutTimesOut(positiveTimeout: int64, negativeTimeout: int64, es: seq<Event>)
    requires MinTicks as int + TimerPeriod as int <= negativeTimeout as int <= 0
    requires forall i :: 0 <= i < |es| ==> Unfavourable(es[i])
    requires TimerTick in es
    ensures var loaded := Step(Initial(positiveTimeout, negativeTimeout), Load);
      loaded.Ok? && Run(loaded.value, es).Ok? && Finish(Run(loaded.value, es).value.state, None) == WaitForTimeout
  {
    DoomedRun(Step(Initial(positiveTimeout, negativeTimeout), Load).value, es);
  }

  class ConditionDialog {
    var state: State
    var gto: int64
    var bto: int64
    var positiveTimeout: int64
    var negativeTimeout: int64
    /** `uic.Value`. */
    var shownValue: string
    /** `uic.GoodButtonEnabled`. */
    var goodButtonEnabled: Option<bool>

    function Snapshot(): Dialog
      reads this
    {
      Dialog(state, gto, bto, positiveTimeout, negativeTimeout, shownValue, goodButtonEnabled)
    }

    /** The set-up at the start of `Forr`. */
    constructor (positiveTimeout: int64, negativeTimeout: int64)
      ensures Snapshot() == Initial(positiveTimeout, negativeTimeout)
    {
      state := Init;
      gto, bto := 0, 0;
      this.positiveTimeout := positiveTimeout;
      this.negativeTimeout := negativeTimeout;
      shownValue := "";
      goodButtonEnabled := None;
    }

    /** The handler ran as `Step` says: its new fields on success, all fields as before when it threw. */
    ghost predicate Handled(before: Dialog, e: Event, r: Outcome<DialogError>)
      requires Ready(before, e)
      reads this
    {
      var s := Step(before, e);
      if s.Ok? then r == Pass && Snapshot() == s.value else r == Fail(s.error) && Snapshot() == before
    }

    method OnDialogLoad() returns (r: Outcome<DialogError>)
      modifies this
      ensures Handled(old(Snapshot()), Load, r)
    {
      if state == Init {
        state := Unknown;
        gto := positiveTimeout;
        bto := negativeTimeout;
        goodButtonEnabled := None;
        shownValue := "unknown";
        r := Pass;
      } else {
        r := Fail(InvalidOperation(state));
      }
    }

    method EnterExitBad()
      modifies this
      ensures Snapshot() == ExitBad(old(Snapshot()))
    {
      state := if bto <= 0 then BadTimedOut else BadUserExit;
    }

    method EnterExitGood()
      modifies this
      ensures Snapshot() == ExitGood(old(Snapshot()))
    {
      state := if gto <= 0 then GoodTimedOut else GoodUserExit;
    }

    method OnBadClick() returns (r: Outcome<DialogError>)
      modifies this
      ensures Handled(old(Snapshot()), BadClick, r)
    {
      r := Pass;
      if state == Unknown || state == Good || state == Bad {
        EnterExitBad();
      } else if state == Init {
        r := Fail(InvalidOperation(state));
      }
    }

    method OnGoodClick() returns (r: Outcome<DialogError>)
      modifies this
      ensures Handled(old(Snapshot()), GoodClick, r)
    {
      r := Pass;
      if state == Good || state == Unknown {
        EnterExitGood();
      } else if state == Bad || state == Init {
        r := Fail(InvalidOperation(state));
      }
    }

    method OnValueChanged(value: string)
      requires state != Init
      modifies this
      ensures Handled(old(Snapshot()), ValueChanged(value), Pass)
    {
      if state == Unknown || state == Good || state == Bad {
        shownValue := value;
      }
    }

    method OnTruthChanged(truth: bool)
      requires state != Init
      modifies this
      ensures Handled(old(Snapshot()), TruthChanged(truth), Pass)
    {
      var lastState := state;
      if state == Unknown || state == Good || state == Bad {
        goodButtonEnabled := Some(truth);
        state := if truth then Good else Bad;
        gto := if lastState == Bad && state == Good then positiveTimeout else gto;
      }
    }

    method OnTimerElapsed() returns (r: Outcome<DialogError>)
      modifies this
      ensures Handled(old(Snapshot()), TimerTick, r)
    {
      r := Pass;
      if state == Unknown || state == Bad {
        var step: int64 := if bto == MaxTicks then 0 else TimerPeriod;
        if bto as int - step as int < MinTicks as int {
          return Fail(Overflow);
        }
        bto := bto - step;
        if bto <= 0 {
          EnterExitBad();
        }
      } else if state == Good {
        var step: int64 := if gto == MaxTicks then 0 else TimerPeriod;
        if gto as int - step as int < MinTicks as int {
          return Fail(Overflow);
        }
        gto := gto - step;
        if gto <= 0 {
          EnterExitGood();
        }
      } else if state == Init {
        r := Fail(InvalidOperation(state));
      }
    }
  }

  /** What the evaluator reports to the dialog. */
  datatype Report = ValueReport(text: string) | TruthReport(truth: bool)

  /** The reports of round `i`: each of the value and the truth when it is the first round's or differs from the previous round's. */
  ghost function RoundReports<T>(v: nat -> T, condition: T -> bool, hasFunction: bool, show: T -> string, i: nat): seq<Report>
  {
    (if hasFunction && (i == 0 || v(i) != v(i - 1)) then [ValueReport(show(v(i)))] else [])
    + (if i == 0 || condition(v(i)) != condition(v(i - 1)) then [TruthReport(condition(v(i)))] else [])
  }

  /** The reports of the first `n` rounds. */
  ghost function Reports<T>(v: nat -> T, condition: T -> bool, hasFunction: bool, show: T -> string, n: nat): seq<Report>
  {
    if n == 0 then [] else Reports(v, condition, hasFunction, show, n - 1) + RoundReports(v, condition, hasFunction, show, n - 1)
  }

  /** What a call of the user's function or condition does: return a value or throw. */
  datatype Call<T> = Returns(value: T) | Throws(fault: Fault)

  /** What the evaluator reported, and the exception that ended it, if any. */
  datatype Evaluation = Evaluation(reports: seq<Report>, fault: Option<Fault>)

  /** The value of round `i`: what `poll` gives at that poll, or `default` when there is no function. */
  function ValueAt<T>(poll: Option<nat -> Call<T>>, default: T, i: nat): Call<T>
  {
    if poll.Some? then poll.value(i) else Returns(default)
  }

  /** The condition's outcome on the value of round `i`. */
  function TruthAt<T>(poll: Option<nat -> Call<T>>, condition: T -> Call<bool>, default: T, i: nat): Call<bool>
  {
    match ValueAt(poll, default, i)
    case Returns(v) => condition(v)
    case Throws(f) => Throws(f)
  }

  /**
   * Round `i` when no earlier round threw: the function's exception, the
   * `NullReferenceException` of a `null` value (`ToString` in the first
   * round, `Equals` later), or the value report, then the condition's
   * exception or the truth report. A value or truth is reported when it is
   * the first round's or differs from the previous round's.
   */
  ghost function Round<T>(poll: Option<nat -> Call<T>>, condition: T -> Call<bool>, default: T,
                          isNull: T -> bool, show: T -> string, i: nat): Evaluation
  {
    var o := ValueAt(poll, default, i);
    if o.Throws? then Evaluation([], Some(o.fault))
    else if poll.Some? && isNull(o.value) then Evaluation([], Some(NullReference))
    else
      var shown := if poll.Some? && (i == 0 || o != ValueAt(poll, default, i - 1))
                   then [ValueReport(show(o.value))] else [];
      var c := condition(o.value);
      if c.Throws? then Evaluation(shown, Some(c.fault))
      else
        var told := if i == 0 || c != TruthAt(poll, condition, default, i - 1) then [TruthReport(c.value)] else [];
        Evaluation(shown + told, None)
  }

  /** The first `n` rounds, or fewer when one threw: nothing runs after the exception. */
  ghost function Evaluated<T>(poll: Option<nat -> Call<T>>, condition: T -> Call<bool>, default: T,
                              isNull: T -> bool, show: T -> string, n: nat): Evaluation
  {
    if n == 0 then Evaluation([], None)
    else
      var e := Evaluated(poll, condition, default, isNull, show, n - 1);
      if e.fault.Some? then e
      else
        var r := Round(poll, condition, default, isNull, show, n - 1);
        Evaluation(e.reports + r.reports, r.fault)
  }

  /** The exception of round `k` ends the evaluator: later rounds add no report and keep that exception. */
  lemma {:induction false} FaultEndsEvaluation<T>(poll: Option<nat -> Call<T>>, condition: T -> Call<bool>,
                                                  default: T, isNull: T -> bool, show: T -> string, k: nat, n: nat)
    requires k <= n && Evaluated(poll, condition, default, isNull, show, k).fault.Some?
    ensures Evaluated(poll, condition, default, isNull, show, n) == Evaluated(poll, condition, default, isNull, show, k)
    decreases n
  {
    if n > k {
      FaultEndsEvaluation(poll, condition, default, isNull, show, k, n - 1);
    }
  }

  /** Round `i` returns a value that is not `null` (or there is no function), and the condition returns on it. */
  predicate CleanRound<T>(poll: Option<nat -> Call<T>>, condition: T -> Call<bool>, default: T,
                          isNull: T -> bool, i: nat)
  {
    var o := ValueAt(poll, default, i);
    o.Returns? && !(poll.Some? && isNull(o.value)) && condition(o.value).Returns?
  }

  /** The values of a run: what each round returned, `default` where it threw. */
  function Polled<T>(poll: Option<nat -> Call<T>>, default: T): nat -> T
  {
    (i: nat) => var o := ValueAt(poll, default, i); if o.Returns? then o.value else default
  }

  /** The truths of a run: what the condition returned, false where it threw. */
  function Truths<T>(condition: T -> Call<bool>): T -> bool
  {
    (x: T) => var c := condition(x); c.Returns? && c.value
  }

  /**
   * While nothing throws, the evaluator reports exactly `Reports` of the
   * polled values and their truths, and ends without an exception.
   */
  lemma {:induction false} CleanRunReports<T>(poll: Option<nat -> Call<T>>, condition: T -> Call<bool>,
                                              default: T, isNull: T -> bool, show: T -> string, n: nat)
    requires forall i: nat :: i < n ==> CleanRound(poll, condition, default, isNull, i)
    ensures Evaluated(poll, condition, default, isNull, show, n)
         == Evaluation(Reports(Polled(poll, default), Truths(condition), poll.Some?, show, n), None)
    decreases n
  {
    if n > 0 {
      CleanRunReports(poll, condition, default, isNull, show, n - 1);
      var i := n - 1;
      assert CleanRound(poll, condition, default, isNull, i);
      var v := Polled(poll, default);
      var t := Truths(condition);
      if i > 0 {
        assert CleanRound(poll, condition, default, isNull, i - 1);
        assert (ValueAt(poll, default, i) != ValueAt(poll, default, i - 1)) == (v(i) != v(i - 1));
        assert (condition(v(i)) != TruthAt(poll, condition, default, i - 1)) == (t(v(i)) != t(v(i - 1)));
      }
      assert Round(poll, condition, default, isNull, show, i)
          == Evaluation(RoundReports(v, t, poll.Some?, show, i), None);
    }
  }

  /**
   * When the function first throws at poll `k`, the evaluator has reported
   * the first `k` rounds and ends with that exception, however many rounds
   * were left.
   */
  lemma FunctionThrowsEndsReports<T>(poll: nat -> Call<T>, condition: T -> Call<bool>,
                                     default: T, isNull: T -> bool, show: T -> string, k: nat, n: nat)
    requires k < n && poll(k).Throws?
    requires forall i: nat :: i < k ==> CleanRound(Some(poll), condition, default, isNull, i)
    ensures Evaluated(Some(poll), condition, default, isNull, show, n)
         == Evaluation(Reports(Polled(Some(poll), default), Truths(condition), true, show, k), Some(poll(k).fault))
  {
    CleanRunReports(Some(poll), condition, default, isNull, show, k);
    FaultEndsEvaluation(Some(poll), condition, default, isNull, show, k + 1, n);
  }

  /**
   * `Evaluator`: at most `rounds` polls before cancellation; `poll(i)` is
   * what the function does at poll `i`, `show` is `ToString` and `isNull`
   * says which values are `null`. The loop compares with the last reported
   * value and truth, and an exception ends the task.
   */
  method Evaluator<T(==)>(rounds: nat, poll: Option<nat -> Call<T>>, condition: Option<T -> Call<bool>>,
                          default: T, isNull: T -> bool, show: T -> string)
    returns (reports: seq<Report>, fault: Option<Fault>)
    ensures condition.None? ==> reports == [] && fault.None?
    ensures condition.Some? ==> Evaluation(reports, fault) == Evaluated(poll, condition.value, default, isNull, show, rounds)
  {
    reports, fault := [], None;
    if condition.None? {
      return;
    }
    var first := true;
    var lastValue := default;
    var value := default;
    var lastTruth := false;
    var truth := false;
    var i := 0;
    while i < rounds && fault.None?
      invariant 0 <= i <= rounds && first == (i == 0)
      invariant Evaluation(reports, fault) == Evaluated(poll, condition.value, default, isNull, show, i)
      invariant fault.None? && i > 0 ==>
                  ValueAt(poll, default, i - 1) == Returns(value) && lastValue == value
                  && TruthAt(poll, condition.value, default, i - 1) == Returns(lastTruth)
      invariant poll.None? ==> value == default
    {
      var returned := true;
      if poll.Some? {
        var o := poll.value(i);
        if o.Throws? {
          fault, returned := Some(o.fault), false;
        } else {
          value := o.value;
          if isNull(value) {
            fault, returned := Some(NullReference), false;
          } else if first || value != lastValue {
            reports := reports + [ValueReport(show(value))];
            lastValue := value;
          }
        }
      }
      if returned {
        var c := condition.value(value);
        if c.Throws? {
          fault := Some(c.fault);
        } else {
          truth := c.value;
          if first || truth != lastTruth {
            reports := reports + [TruthReport(truth)];
            lastTruth := truth;
          }
        }
      }
      lastValue := value;
      first := false;
      i := i + 1;
    }
    if i < rounds {
      FaultEndsEvaluation(poll, condition.value, default, isNull, show, i, rounds);
    }
  }

  /** A condition of a constant value is reported once, in the first round; nothing changes afterwards. */
  lemma {:induction false} ConstantReportedOnce<T>(v: nat -> T, condition: T -> bool, hasFunction: bool, show: T -> string, n: nat)
    requires n >= 1
    requires forall i: nat :: v(i) == v(0)
    ensures Reports(v, condition, hasFunction, show, n)
         == (if hasFunction then [ValueReport(show(v(0)))] else []) + [TruthReport(condition(v(0)))]
  {
    if n > 1 {
      ConstantReportedOnce(v, condition, hasFunction, show, n - 1);
      assert v(n - 1) == v(n - 2);
      assert RoundReports(v, condition, hasFunction, show, n - 1) == [];
    }
  }
}
