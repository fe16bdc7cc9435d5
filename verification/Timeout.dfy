/**
  `timeout`: a select between the caller's future and a sleep, and a case split on
  which of them has a result.
 */
module Timeout {
  import opened Common
  import Select
  import Sleep

  /** A branch's value: the future's own, or the sleep's nullptr. */
  datatype Item<T> = Of(value: T) | Nothing

  datatype Answer<T> = Finished(value: T) | Expired | Rethrown(error: nat)

  /** Branch 0 is the future, branch 1 the sleep; a result of the sleep decides, whatever else is there. */
  function Conclude<T>(a: Select.Answer<Item<T>>): Answer<T>
    requires Conclusive(a)
  {
    match a
    case Thrown(e, _) => Rethrown(e)
    case Options(os, _) => if os[1].Some? then Expired else Finished(os[0].value.value)
  }

  datatype System<T> = System(sleep: Sleep.System, select: Select.State<Item<T>>, id: nat)

  datatype Step<T> =
    | Elsewhere(step: Sleep.Step)          // the clock, other sleeps, the driver, the workers
    | FutureDone(outcome: Outcome<T>)
    | SleepDone                            // the branch resumes after its sleep became ready
    | SleepThrows(error: nat)              // the branch's sleep could not be registered
    | Cancelled(branch: nat)               // a branch ends with CancelException
    | Poll                                 // the second poll of the select future

  function Branch<T>(outcome: Outcome<T>): Outcome<Item<T>> {
    match outcome
    case Value(v) => Value(Of(v))
    case Exception(e) => Exception(e)
  }

  predicate Enabled<T>(y: System<T>, a: Step<T>) {
    match a
    case Elsewhere(s) => Sleep.Enabled(y.sleep, s)
    case FutureDone(r) => Select.Enabled(y.select, Select.Complete(0, Branch(r)))
    case SleepDone =>
      y.sleep.IsIn(y.id, Sleep.Ready) && Select.Enabled(y.select, Select.Complete(1, Value(Nothing)))
    case SleepThrows(e) => y.id in y.sleep.refused && Select.Enabled(y.select, Select.Complete(1, Exception(e)))
    case Cancelled(i) => Select.Enabled(y.select, Select.Drop(i))
    case Poll => Select.Enabled(y.select, Select.SecondPoll)
  }

  function Next<T>(y: System<T>, a: Step<T>): System<T>
    requires Enabled(y, a)
  {
    match a
    case Elsewhere(s) => y.(sleep := Sleep.Next(y.sleep, s))
    case FutureDone(r) => y.(select := Select.Next(y.select, Select.Complete(0, Branch(r))))
    case SleepDone => y.(select := Select.Next(y.select, Select.Complete(1, Value(Nothing))))
    case SleepThrows(e) => y.(select := Select.Next(y.select, Select.Complete(1, Exception(e))))
    case Cancelled(i) => y.(select := Select.Next(y.select, Select.Drop(i)))
    case Poll => y.(select := Select.Next(y.select, Select.SecondPoll))
  }

  ghost predicate IsRun<T>(states: seq<System<T>>, steps: seq<Step<T>>) {
    && |states| == |steps| + 1 && Sleep.Initial(states[0].sleep) && states[0].select == Select.Start(2)
    && forall i :: 0 <= i < |steps| ==> Enabled(states[i], steps[i]) && states[i + 1] == Next(states[i], steps[i])
  }

  /** What the two branches can hold: the future's outcome, and a sleep that is ready or whose registration threw. */
  ghost predicate Typed<T>(y: System<T>) {
    && |y.select.results| == 2
    && (y.select.results[0].Some? && y.select.results[0].value.Value? ==> y.select.results[0].value.value.Of?)
    && (y.select.results[1].Some? ==>
          if y.select.results[1].value.Value? then y.sleep.IsIn(y.id, Sleep.Ready) else y.id in y.sleep.refused)
  }

  /** The select's answer was collected from results the branches still hold. */
  ghost predicate Answered<T>(y: System<T>) {
    |y.select.results| == 2 && y.select.answer.Some? ==>
      var a := y.select.answer.value;
      && (a.Options? ==> |a.options| == 2 && Select.Fruitful(a))
      && (a.Options? && a.options[0].Some? ==>
            y.select.results[0].Some? && y.select.results[0].value == Value(a.options[0].value))
      && (a.Options? && a.options[1].Some? ==>
            y.select.results[1].Some? && y.select.results[1].value == Value(a.options[1].value))
      && (a.Thrown? ==> exists m :: 0 <= m < 2 && y.select.results[m] == Some(Exception(a.error)))
      && (a.Options? && a.options[1].None? ==> 1 in a.cancelled)
  }

  ghost predicate Inv<T>(y: System<T>) {
    Sleep.Inv(y.sleep) && Select.Inv(y.select, 2) && Typed(y) && Answered(y)
  }

  lemma PollAnswered<T>(y: System<T>)
    requires Inv(y) && Enabled(y, Poll)
    ensures Answered(Next(y, Poll))
  {
    var rs := y.select.results;
    Select.CollectMeaning(rs, 0);
    Select.SecondPollFruitful(rs);
    var a := Select.Collect(rs, 0);
    if a.Thrown? {
      var m: nat :| Select.Leftmost(rs, 0, m, a.error) && a.cancelled == Select.Unfinished(rs, 0, m);
      assert rs[m] == Some(Exception(a.error));
    }
  }

  lemma StepKeeps<T>(y: System<T>, a: Step<T>)
    requires Inv(y) && Enabled(y, a)
    ensures Inv(Next(y, a))
  {
    match a
    case Elsewhere(s) =>
      Sleep.StepKeeps(y.sleep, s);
      Sleep.StepAdvances(y.sleep, s, y.id);
    case FutureDone(r) => Select.StepKeeps(y.select, Select.Complete(0, Branch(r)), 2);
    case SleepDone => Select.StepKeeps(y.select, Select.Complete(1, Value(Nothing)), 2);
    case SleepThrows(e) => Select.StepKeeps(y.select, Select.Complete(1, Exception(e)), 2);
    case Cancelled(i) => Select.StepKeeps(y.select, Select.Drop(i), 2);
    case Poll =>
      Select.StepKeeps(y.select, Select.SecondPoll, 2);
      PollAnswered(y);
  }

  lemma {:induction false} RunKeeps<T>(states: seq<System<T>>, steps: seq<Step<T>>, n: nat)
    requires IsRun(states, steps) && n < |states|
    ensures Inv(states[n])
  {
    if n == 0 {
      Sleep.StartInv(states[0].sleep);
    } else {
      RunKeeps(states, steps, n - 1);
      StepKeeps(states[n - 1], steps[n - 1]);
    }
  }

  /** The answer `timeout` gives its caller always exists: with no result of the sleep there is one of the future. */
  predicate Conclusive<T>(a: Select.Answer<Item<T>>) {
    a.Options? ==> |a.options| == 2 && (a.options[1].None? ==> a.options[0].Some? && a.options[0].value.Of?)
  }

  /**
    In every run the second poll's answer is conclusive. It is `Finished(v)` only
    if the future returned v and the sleep was cancelled, `Expired` only if the
    sleep was ready, and `Rethrown(e)` only if the future threw e, or the sleep's
    branch did because the sleep could not be registered.
   */
  lemma TimeoutMeaning<T>(states: seq<System<T>>, steps: seq<Step<T>>, n: nat)
    requires IsRun(states, steps) && n < |states| && states[n].select.answer.Some?
    ensures var a := states[n].select.answer.value;
      && Conclusive(a) && |states[n].select.results| == 2
      && (Conclude(a).Finished? ==> 1 in a.cancelled && states[n].select.results[0] == Some(Value(Of(Conclude(a).value))))
      && (Conclude(a).Expired? ==> states[n].sleep.IsIn(states[n].id, Sleep.Ready))
      && (Conclude(a).Rethrown? ==>
            var e := Exception(Conclude(a).error);
            || states[n].select.results[0] == Some(e)
            || (states[n].select.results[1] == Some(e) && states[n].id in states[n].sleep.refused))
  {
    RunKeeps(states, steps, n);
    var a := states[n].select.answer.value;
    if a.Options? && a.options[1].None? {
      var k :| 0 <= k < |a.options| && a.options[k].Some?;
      assert k == 0;
    }
    if a.Thrown? {
      var m :| 0 <= m < 2 && states[n].select.results[m] == Some(Exception(a.error));
      assert m == 0 || m == 1;
    }
  }

  // ---------- what the branches did ----------

  /** What the future's branch holds after a step: what it held, or what the future just came to. */
  lemma FutureStep<T>(y: System<T>, a: Step<T>)
    requires Inv(y) && Enabled(y, a) && Next(y, a).select.results[0].Some?
    ensures y.select.results[0].Some? ==> Next(y, a).select.results[0] == y.select.results[0]
    ensures y.select.results[0].None? ==>
      && a.FutureDone?
      && Next(y, a).select.results[0].value
         == match a.outcome { case Value(v) => Value(Of(v)) case Exception(e) => Exception(e) }
  {
  }

  /** The future's branch holds what the future came to. */
  lemma {:induction false} FutureBranch<T>(states: seq<System<T>>, steps: seq<Step<T>>, n: nat) returns (k: nat)
    requires IsRun(states, steps) && n < |states| && |states[n].select.results| == 2 && states[n].select.results[0].Some?
    ensures k < n && steps[k].FutureDone?
    ensures states[n].select.results[0].value
         == match steps[k].outcome { case Value(v) => Value(Of(v)) case Exception(e) => Exception(e) }
  {
    RunKeeps(states, steps, n - 1);
    FutureStep(states[n - 1], steps[n - 1]);
    assert states[n] == Next(states[n - 1], steps[n - 1]);
    if states[n - 1].select.results[0].Some? {
      k := FutureBranch(states, steps, n - 1);
    } else {
      k := n - 1;
    }
  }

  lemma SleepStep<T>(y: System<T>, a: Step<T>)
    requires Inv(y) && Enabled(y, a) && Next(y, a).select.results[1].Some?
    ensures y.select.results[1].Some? ==> Next(y, a).select.results[1] == y.select.results[1]
    ensures y.select.results[1].None? ==>
      || (a == SleepDone && Next(y, a).select.results[1].value == Value(Nothing))
      || (a.SleepThrows? && Next(y, a).select.results[1].value == Exception(a.error))
  {
  }

  /** The sleep's branch holds how the sleep ended. */
  lemma {:induction false} SleepBranch<T>(states: seq<System<T>>, steps: seq<Step<T>>, n: nat) returns (k: nat)
    requires IsRun(states, steps) && n < |states| && |states[n].select.results| == 2 && states[n].select.results[1].Some?
    ensures k < n
    ensures || (steps[k] == SleepDone && states[n].select.results[1].value == Value(Nothing))
      || (steps[k].SleepThrows? && states[n].select.results[1].value == Exception(steps[k].error))
  {
    RunKeeps(states, steps, n - 1);
    SleepStep(states[n - 1], steps[n - 1]);
    assert states[n] == Next(states[n - 1], steps[n - 1]);
    if states[n - 1].select.results[1].Some? {
      k := SleepBranch(states, steps, n - 1);
    } else {
      k := n - 1;
    }
  }

  /** In every run the answer is what one of the branches did: the future's value, the sleep's end, or an exception. */
  lemma TimeoutYields<T>(states: seq<System<T>>, steps: seq<Step<T>>, n: nat) returns (k: nat)
    requires IsRun(states, steps) && n < |states| && states[n].select.answer.Some?
    ensures Conclusive(states[n].select.answer.value) && k < n
    ensures match Conclude(states[n].select.answer.value)
      case Finished(v) => steps[k] == FutureDone(Value(v))
      case Expired => steps[k] == SleepDone
      case Rethrown(e) => steps[k] == FutureDone(Exception(e)) || steps[k] == SleepThrows(e)
  {
    TimeoutMeaning(states, steps, n);
    RunKeeps(states, steps, n);
    var y := states[n];
    match Conclude(y.select.answer.value)
    case Finished(v) => k := FutureBranch(states, steps, n);
    case Expired => k := SleepBranch(states, steps, n);
    case Rethrown(e) =>
      if y.select.results[0] == Some(Exception(e)) {
        k := FutureBranch(states, steps, n);
      } else {
        k := SleepBranch(states, steps, n);
      }
  }

  predicate SilentLaw<T(==)>(y: System<T>, a: Step<T>, z: System<T>, i: nat) {
    Select.Silent(z.select, i) <==> Select.Silent(y.select, i) || a == Cancelled(i)
  }

  lemma CancelledStep<T>(y: System<T>, a: Step<T>, i: nat)
    requires Inv(y) && Enabled(y, a) && i < 2
    ensures SilentLaw(y, a, Next(y, a), i)
  {
    match a
    case Elsewhere(_) =>
    case FutureDone(r) => Select.SilentStep(y.select, Select.Complete(0, Branch(r)), 2, i);
    case SleepDone => Select.SilentStep(y.select, Select.Complete(1, Value(Nothing)), 2, i);
    case SleepThrows(e) => Select.SilentStep(y.select, Select.Complete(1, Exception(e)), 2, i);
    case Cancelled(k) => Select.SilentStep(y.select, Select.Drop(k), 2, i);
    case Poll => Select.SilentStep(y.select, Select.SecondPoll, 2, i);
  }

  lemma {:induction false} SilentAlong<T>(states: seq<System<T>>, steps: seq<Step<T>>, n: nat, i: nat)
    requires n <= |steps| < |states| && !Select.Silent(states[0].select, i)
    requires forall k :: 0 <= k < n ==> SilentLaw(states[k], steps[k], states[k + 1], i)
    ensures Select.Silent(states[n].select, i) <==> exists k :: 0 <= k < n && steps[k] == Cancelled(i)
  {
    if n != 0 {
      SilentAlong(states, steps, n - 1, i);
      assert SilentLaw(states[n - 1], steps[n - 1], states[(n - 1) + 1], i);
    }
  }

  /** A branch that ended with CancelException contributes nothing, whatever happens later. */
  lemma CancelledIsSilent<T>(states: seq<System<T>>, steps: seq<Step<T>>, n: nat, i: nat)
    requires IsRun(states, steps) && n < |states| && i < 2
    ensures Select.Silent(states[n].select, i) <==> exists k :: 0 <= k < n && steps[k] == Cancelled(i)
  {
    forall k | 0 <= k < n ensures SilentLaw(states[k], steps[k], states[k + 1], i) {
      RunKeeps(states, steps, k);
      CancelledStep(states[k], steps[k], i);
    }
    SilentAlong(states, steps, n, i);
  }

  // ---------- seen from the sleep ----------

  /** ss are the sleep's parts of the states of a run, at the places ks. */
  predicate PartOf<T(==)>(ss: seq<Sleep.System>, ks: seq<nat>, states: seq<System<T>>) {
    && |ks| == |ss| && (forall i :: 0 <= i < |ss| ==> ks[i] < |states| && ss[i] == states[ks[i]].sleep)
    && (forall i :: 0 < i < |ss| ==> ks[i - 1] <= ks[i])
  }

  /** ts are the sleep's steps among the steps of the run, at the places js. */
  ghost predicate StepsOf<T>(ss: seq<Sleep.System>, ts: seq<Sleep.Step>, js: seq<nat>, states: seq<System<T>>,
                             steps: seq<Step<T>>, n: nat) {
    && |js| == |ts| < |ss| && n <= |steps| < |states|
    && (forall i :: 0 <= i < |ts| ==>
          js[i] < n && steps[js[i]] == Elsewhere(ts[i]) && states[js[i]].sleep == ss[i])
  }

  lemma ExtendSteps<T>(ss: seq<Sleep.System>, ts: seq<Sleep.Step>, js: seq<nat>, states: seq<System<T>>,
                       steps: seq<Step<T>>, n: nat, y: Sleep.System)
    requires StepsOf(ss, ts, js, states, steps, n) && n < |steps| && steps[n].Elsewhere?
    requires |ss| == |ts| + 1 && ss[|ts|] == states[n].sleep
    ensures StepsOf(ss + [y], ts + [steps[n].step], js + [n], states, steps, n + 1)
  {
    var us, bs, ls := ss + [y], ts + [steps[n].step], js + [n];
    forall i | 0 <= i < |bs|
      ensures ls[i] < n + 1 && steps[ls[i]] == Elsewhere(bs[i]) && states[ls[i]].sleep == us[i]
    {
      if i < |ts| {
        assert ls[i] == js[i] && bs[i] == ts[i] && us[i] == ss[i];
      }
    }
  }

  lemma ExtendSleep(ss: seq<Sleep.System>, ts: seq<Sleep.Step>, a: Sleep.Step, y: Sleep.System)
    requires Sleep.IsRun(ss, ts) && Sleep.Enabled(ss[|ts|], a) && y == Sleep.Next(ss[|ts|], a)
    ensures Sleep.IsRun(ss + [y], ts + [a])
  {
    var us, bs := ss + [y], ts + [a];
    forall i | 0 <= i < |bs| ensures Sleep.Enabled(us[i], bs[i]) && us[i + 1] == Sleep.Next(us[i], bs[i]) {
      if i < |ts| {
        assert us[i] == ss[i] && us[i + 1] == ss[i + 1] && bs[i] == ts[i];
      } else {
        assert us[i] == ss[|ts|] && us[i + 1] == y && bs[i] == a;
      }
    }
  }

  /** A run seen from the sleep, up to its n-th step. */
  ghost predicate Seen<T>(ss: seq<Sleep.System>, ts: seq<Sleep.Step>, ks: seq<nat>, js: seq<nat>, states: seq<System<T>>,
                          steps: seq<Step<T>>, n: nat) {
    && n <= |steps| < |states| && |ss| == |ts| + 1
    && Sleep.IsRun(ss, ts) && ss[|ts|] == states[n].sleep && PartOf(ss, ks, states) && ks[|ts|] <= n
    && StepsOf(ss, ts, js, states, steps, n)
  }

  /** What a step of the run is for the sleep: a step of its own, or nothing. */
  predicate SleepPart<T(==)>(y: System<T>, a: Step<T>, z: System<T>) {
    if a.Elsewhere? then Sleep.Enabled(y.sleep, a.step) && z.sleep == Sleep.Next(y.sleep, a.step)
    else z.sleep == y.sleep
  }

  lemma SleepPartOf<T>(y: System<T>, a: Step<T>)
    requires Enabled(y, a)
    ensures SleepPart(y, a, Next(y, a))
  {
  }

  lemma SeeStep<T>(ss: seq<Sleep.System>, ts: seq<Sleep.Step>, ks: seq<nat>, js: seq<nat>, states: seq<System<T>>,
                   steps: seq<Step<T>>, n: nat)
    returns (ss': seq<Sleep.System>, ts': seq<Sleep.Step>, ks': seq<nat>, js': seq<nat>)
    requires Seen(ss, ts, ks, js, states, steps, n) && n < |steps| && n + 1 < |states|
    requires SleepPart(states[n], steps[n], states[n + 1])
    ensures Seen(ss', ts', ks', js', states, steps, n + 1)
  {
    ss', ts', ks', js' := ss, ts, ks, js;
    if steps[n].Elsewhere? {
      ExtendSleep(ss, ts, steps[n].step, states[n + 1].sleep);
      ExtendSteps(ss, ts, js, states, steps, n, states[n + 1].sleep);
      ss', ts', ks', js' := ss + [states[n + 1].sleep], ts + [steps[n].step], ks + [n + 1], js + [n];
    }
  }

  lemma {:induction false} SeeRun<T>(states: seq<System<T>>, steps: seq<Step<T>>, n: nat)
    returns (ss: seq<Sleep.System>, ts: seq<Sleep.Step>, ks: seq<nat>, js: seq<nat>)
    requires |states| == |steps| + 1 && n <= |steps| && Sleep.Initial(states[0].sleep)
    requires forall i :: 0 <= i < n ==> SleepPart(states[i], steps[i], states[i + 1])
    ensures Seen(ss, ts, ks, js, states, steps, n)
  {
    if n == 0 {
      ss, ts, ks, js := [states[0].sleep], [], [0], [];
    } else {
      ss, ts, ks, js := SeeRun(states, steps, n - 1);
      assert SleepPart(states[n - 1], steps[n - 1], states[(n - 1) + 1]);
      ss, ts, ks, js := SeeStep(ss, ts, ks, js, states, steps, n - 1);
    }
  }

  /** The states a run passes through are, for the sleep, states of a run of its own, whose steps are steps of the run. */
  lemma SleepRun<T>(states: seq<System<T>>, steps: seq<Step<T>>, n: nat)
    returns (ss: seq<Sleep.System>, ts: seq<Sleep.Step>, ks: seq<nat>, js: seq<nat>)
    requires IsRun(states, steps) && n < |states|
    ensures Seen(ss, ts, ks, js, states, steps, n)
  {
    forall i | 0 <= i < n ensures SleepPart(states[i], steps[i], states[i + 1]) {
      SleepPartOf(states[i], steps[i]);
    }
    ss, ts, ks, js := SeeRun(states, steps, n);
  }

  predicate WholeClock<T>(states: seq<System<T>>, base: int) {
    forall i :: 0 <= i < |states| ==> Sleep.OnTick(states[i].sleep, base, states[i].sleep.clock)
  }

  predicate Forward<T>(states: seq<System<T>>) {
    forall i, j :: 0 <= i <= j < |states| ==> states[i].sleep.clock <= states[j].sleep.clock
  }

  /**
    With a whole-millisecond clock `timeout` reports expiry only if the clock had
    shown the time of the sleep's first poll plus its duration when the sleep was
    woken; if the clock never goes back, only at or after that time.
   */
  lemma ExpiredOnTime<T>(states: seq<System<T>>, steps: seq<Step<T>>, base: int, n: nat) returns (k: nat, ms: int)
    requires IsRun(states, steps) && n < |states| && WholeClock(states, base)
    requires states[n].select.answer.Some? && Conclusive(states[n].select.answer.value)
    requires Conclude(states[n].select.answer.value) == Expired
    ensures k < n && steps[k] == Elsewhere(Sleep.Begin(states[n].id, ms)) && states[n].id in states[n].sleep.sleepers
    ensures var due := states[k].sleep.clock + ms * states[k].sleep.wheel.unit;
      && due <= states[n].sleep.sleepers[states[n].id].woke
      && (Forward(states) ==> due <= states[n].sleep.clock)
  {
    TimeoutMeaning(states, steps, n);
    var ss, ts, ks, js := SleepRun(states, steps, n);
    assert Sleep.WholeClock(ss, base);
    if Forward(states) {
      forall i | 0 < i < |ss| ensures ss[i - 1].clock <= ss[i].clock {
        assert ks[i - 1] <= ks[i];
      }
    }
    var i := Sleep.ReadyOnTime(ss, ts, base, |ts|, states[n].id);
    k, ms := js[i], ts[i].ms;
  }
}
