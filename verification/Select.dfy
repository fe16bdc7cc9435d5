/**
  `select`: the first branch to complete schedules the select future, whose second
  poll collects what is there and cancels the rest.
 */
module Select {
  import opened Common
  import RunQueue

  /** The second poll's answer, and the branches it cancelled on the way. */
  datatype Answer<T> =
    | Options(options: seq<Option<T>>, cancelled: set<nat>)
    | Thrown(error: nat, cancelled: set<nat>)

  /** The second half of `poll`, left to right from branch i on. */
  function Collect<T>(results: Results<T>, i: nat): Answer<T>
    requires i <= |results|
    decreases |results| - i
  {
    if i == |results| then Options([], {})
    else
      match results[i]
      case None =>
        (match Collect(results, i + 1)
         case Options(os, c) => Options([None] + os, c + {i})
         case Thrown(e, c) => Thrown(e, c + {i}))
      case Some(Exception(e)) => Thrown(e, {})
      case Some(Value(v)) =>
        (match Collect(results, i + 1)
         case Options(os, c) => Options([Some(v)] + os, c)
         case Thrown(e, c) => Thrown(e, c))
  }

  /** Option k says what branch k stored: a value, or nothing. */
  predicate Reports<T(==)>(results: Results<T>, i: nat, options: seq<Option<T>>) {
    && |options| == |results| - i
    && forall k :: i <= k < |results| ==>
         results[k] == (if options[k - i].None? then None else Some(Value(options[k - i].value)))
  }

  /** The branches from i up to m without a stored result. */
  function Unfinished<T>(results: Results<T>, i: nat, m: nat): set<nat>
    requires m <= |results|
  {
    set k | i <= k < m && results[k].None?
  }

  /** Branch m holds the leftmost stored exception from i on. */
  predicate Leftmost<T>(results: Results<T>, i: nat, m: nat, error: nat) {
    && i <= m < |results| && results[m].Some? && results[m].value == Exception(error)
    && forall k :: i <= k < m ==> results[k].None? || results[k].value.Value?
  }

  /**
    Either every stored result is a value, each is reported at its branch and
    exactly the branches without a result are cancelled; or the leftmost stored
    exception is thrown, and exactly the branches without a result to its left
    were cancelled.
   */
  lemma {:induction false} CollectMeaning<T>(results: Results<T>, i: nat)
    requires i <= |results|
    ensures match Collect(results, i)
      case Options(os, c) => Reports(results, i, os) && c == Unfinished(results, i, |results|)
      case Thrown(e, c) => exists m :: Leftmost(results, i, m, e) && c == Unfinished(results, i, m)
    decreases |results| - i
  {
    if i < |results| {
      if results[i] == None || results[i].value.Value? {
        CollectMeaning(results, i + 1);
        var rest := Collect(results, i + 1);
        if rest.Thrown? {
          var m :| Leftmost(results, i + 1, m, rest.error) && rest.cancelled == Unfinished(results, i + 1, m);
          UnfinishedStep(results, i, m);
          assert Leftmost(results, i, m, rest.error);
        } else {
          UnfinishedStep(results, i, |results|);
          ReportsStep(results, i, rest.options);
        }
      } else {
        assert Leftmost(results, i, i, results[i].value.error);
        assert Unfinished(results, i, i) == {};
      }
    }
  }

  lemma UnfinishedStep<T>(results: Results<T>, i: nat, m: nat)
    requires i < m <= |results|
    ensures Unfinished(results, i, m) == Unfinished(results, i + 1, m) + if results[i].None? then {i} else {}
  {
  }

  lemma ReportsStep<T>(results: Results<T>, i: nat, rest: seq<Option<T>>)
    requires i < |results| && Reports(results, i + 1, rest)
    requires results[i].Some? ==> results[i].value.Value?
    ensures Reports(results, i, [if results[i].None? then None else Some(results[i].value.value)] + rest)
  {
    var os := [if results[i].None? then None else Some(results[i].value.value)] + rest;
    forall k | i <= k < |results|
      ensures results[k] == (if os[k - i].None? then None else Some(Value(os[k - i].value)))
    {
      assert k > i ==> os[k - i] == rest[k - (i + 1)];
    }
  }

  /**
    What the branches share with the select future; `alive` is whether `self_`
    still points to it. Each method takes a step of the step system below.
   */
  class BranchShared<T> {
    var registered: bool
    var alive: bool
    var results: Results<T>
    ghost var pcs: seq<Pc>                  // how far each branch is
    ghost var scheduled: nat                // how often the select future was registered to run
    ghost var answer: Option<Answer<T>>     // of its second poll

    ghost function Abs(): State<T>
      reads this
    {
      State(pcs, results, registered, alive, scheduled, answer)
    }

    ghost predicate Valid()
      reads this
    {
      Inv(Abs(), |results|)
    }

    constructor (n: nat)
      ensures Valid() && Abs() == Start(n)
    {
      registered, alive, results := false, true, seq(n, _ => None);
      pcs, scheduled, answer := seq(n, _ => Running), 0, None;
    }

    /** First poll: spawn every branch, in order. */
    method Spawn(core: RunQueue.RunQueue<Entry>)
      modifies core
      ensures RunQueue.Order(core.handles) == old(RunQueue.Order(core.handles)) + Branches(|results|)
    {
      for i := 0 to |results|
        invariant RunQueue.Order(core.handles) == old(RunQueue.Order(core.handles)) + Branches(i)
      {
        core.Register(Branch(i));
      }
    }

    /** The locked end of `run_single_branch`, for a branch that was not cancelled. */
    method Complete(i: nat, outcome: Outcome<T>, core: RunQueue.RunQueue<Entry>)
      requires Valid() && Enabled(Abs(), Step.Complete(i, outcome))
      modifies this, core
      ensures Valid() && Abs() == Next(old(Abs()), Step.Complete(i, outcome))
      ensures results == old(results)[i := Some(outcome)]
      ensures RunQueue.Order(core.handles)
           == old(RunQueue.Order(core.handles)) + if scheduled > old(scheduled) then [Self] else []
    {
      StepKeeps(Abs(), Step.Complete(i, outcome), |results|);
      results := results[i := Some(outcome)];
      pcs := pcs[i := Finished];
      if !registered {
        if alive {
          core.Register(Self);
          registered := true;
          scheduled := scheduled + 1;
        }
      }
    }

    /** The end of a branch that was cancelled: nothing is stored and nobody is told. */
    ghost method Drop(i: nat)
      requires Valid() && Enabled(Abs(), Step.Drop(i))
      modifies this`pcs
      ensures Valid() && Abs() == Next(old(Abs()), Step.Drop(i))
    {
      StepKeeps(Abs(), Step.Drop(i), |results|);
      pcs := pcs[i := Dropped];
    }

    /** The second poll: left to right, cancelling as it goes, stopping at the first exception. */
    method Finish() returns (given: Answer<T>)
      requires Valid() && Enabled(Abs(), SecondPoll)
      modifies this`answer
      ensures Valid() && Abs() == Next(old(Abs()), SecondPoll) && answer == Some(given) && Fruitful(given)
    {
      StepKeeps(Abs(), SecondPoll, |results|);
      given := Gather(results);
      answer := Some(given);
    }

    /** The select future's destructor. */
    method Destroy()
      requires Valid() && Enabled(Abs(), Step.Destroy)
      modifies this
      ensures Valid() && Abs() == Next(old(Abs()), Step.Destroy)
    {
      StepKeeps(Abs(), Step.Destroy, |results|);
      alive := false;
    }
  }

  /** The collecting loop of the second poll. */
  method Gather<T>(results: Results<T>) returns (answer: Answer<T>)
    ensures answer == Collect(results, 0)
  {
    var options: seq<Option<T>>, cancelled: set<nat> := [], {};
    AfterNothing(Collect(results, 0));
    for i := 0 to |results|
      invariant Collect(results, 0) == After(options, cancelled, Collect(results, i))
    {
      AfterBranch(options, cancelled, results, i);
      if results[i].None? {
        cancelled := cancelled + {i};
        options := options + [None];
      } else if results[i].value.Exception? {
        return Thrown(results[i].value.error, cancelled);
      } else {
        options := options + [Some(results[i].value.value)];
      }
    }
    AfterAll(options, cancelled);
    return Options(options, cancelled);
  }

  /** An answer with what the branches before it contributed. */
  function After<T>(options: seq<Option<T>>, cancelled: set<nat>, a: Answer<T>): Answer<T> {
    match a
    case Options(os, c) => Options(options + os, cancelled + c)
    case Thrown(e, c) => Thrown(e, cancelled + c)
  }

  lemma AfterNothing<T>(a: Answer<T>)
    ensures After([], {}, a) == a
  {
    if a.Options? {
      assert [] + a.options == a.options;
    }
  }

  lemma AfterAll<T>(options: seq<Option<T>>, cancelled: set<nat>)
    ensures After(options, cancelled, Options([], {})) == Options(options, cancelled)
  {
    assert options + [] == options;
  }

  lemma AfterTwice<T>(options: seq<Option<T>>, cancelled: set<nat>, o: Option<T>, c: set<nat>, a: Answer<T>)
    ensures After(options, cancelled, After([o], c, a)) == After(options + [o], cancelled + c, a)
  {
    if a.Options? {
      assert options + ([o] + a.options) == (options + [o]) + a.options;
    }
  }

  /** One round of the loop. */
  lemma AfterBranch<T>(options: seq<Option<T>>, cancelled: set<nat>, results: Results<T>, i: nat)
    requires i < |results|
    ensures var rest := Collect(results, i + 1);
      After(options, cancelled, Collect(results, i)) ==
        if results[i].None? then After(options + [None], cancelled + {i}, rest)
        else if results[i].value.Exception? then Thrown(results[i].value.error, cancelled)
        else After(options + [Some(results[i].value.value)], cancelled, rest)
  {
    var rest := Collect(results, i + 1);
    if results[i].None? {
      assert Collect(results, i) == After([None], {i}, rest);
      AfterTwice(options, cancelled, None, {i}, rest);
    } else if results[i].value.Value? {
      var o := Some(results[i].value.value);
      assert Collect(results, i) == After([o], {}, rest);
      AfterTwice(options, cancelled, o, {}, rest);
      assert cancelled + {} == cancelled;
    } else {
      assert cancelled + {} == cancelled;
    }
  }

  // ---------- every completion order ----------

  datatype Pc = Running | Finished | Dropped

  datatype State<T> = State(
    pcs: seq<Pc>,
    results: Results<T>,
    registered: bool,
    alive: bool,
    scheduled: nat,               // how often the select future was registered
    answer: Option<Answer<T>>)    // of its second poll

  datatype Step<T> =
    | Complete(branch: nat, outcome: Outcome<T>)
    | Drop(branch: nat)           // the branch ends with CancelException
    | SecondPoll                  // a worker takes the scheduled select future
    | Destroy

  predicate Enabled<T>(s: State<T>, a: Step<T>) {
    match a
    case Complete(i, _) => i < |s.pcs| == |s.results| && s.pcs[i] == Running
    case Drop(i) => i < |s.pcs| && s.pcs[i] == Running
    case SecondPoll => s.scheduled > 0 && s.alive && s.answer.None?
    case Destroy => s.alive && (s.scheduled > 0 ==> s.answer.Some?)
  }

  function Next<T>(s: State<T>, a: Step<T>): State<T>
    requires Enabled(s, a)
  {
    match a
    case Complete(i, r) =>
      var t := s.(pcs := s.pcs[i := Finished], results := s.results[i := Some(r)]);
      if !s.registered && s.alive then t.(registered := true, scheduled := s.scheduled + 1) else t
    case Drop(i) => s.(pcs := s.pcs[i := Dropped])
    case SecondPoll => s.(answer := Some(Collect(s.results, 0)))
    case Destroy => s.(alive := false)
  }

  function Start<T>(n: nat): State<T> {
    State(seq(n, _ => Running), seq(n, _ => None), false, true, 0, None)
  }

  ghost predicate IsRun<T>(n: nat, states: seq<State<T>>, steps: seq<Step<T>>) {
    && |states| == |steps| + 1 && states[0] == Start(n)
    && forall i :: 0 <= i < |steps| ==> Enabled(states[i], steps[i]) && states[i + 1] == Next(states[i], steps[i])
  }

  predicate SomeResult<T>(results: Results<T>) {
    exists i :: 0 <= i < |results| && results[i].Some?
  }

  /** An answer that gives the caller something: an exception, or at least one value. */
  predicate Fruitful<T>(a: Answer<T>) {
    a.Options? ==> exists k :: 0 <= k < |a.options| && a.options[k].Some?
  }

  ghost predicate Inv<T>(s: State<T>, n: nat) {
    && |s.pcs| == |s.results| == n
    && (forall i :: 0 <= i < n ==> (s.pcs[i] == Finished <==> s.results[i].Some?))
    && s.scheduled == (if s.registered then 1 else 0)
    && (s.registered ==> SomeResult(s.results))
    && (s.alive && SomeResult(s.results) ==> s.registered)
    && (s.answer.Some? ==> s.registered && Fruitful(s.answer.value))
  }

  lemma StepKeeps<T>(s: State<T>, a: Step<T>, n: nat)
    requires Inv(s, n) && Enabled(s, a)
    ensures Inv(Next(s, a), n)
  {
    var t := Next(s, a);
    match a
    case Complete(i, r) => assert t.results[i].Some?;
      if s.registered {
        var k :| 0 <= k < n && s.results[k].Some?;
        assert t.results[k].Some?;
      }
    case SecondPoll => SecondPollFruitful(s.results);
    case Drop(i) =>
    case Destroy =>
  }

  lemma SecondPollFruitful<T>(results: Results<T>)
    requires SomeResult(results)
    ensures Fruitful(Collect(results, 0))
  {
    CollectMeaning(results, 0);
    var a := Collect(results, 0);
    if a.Options? {
      var k :| 0 <= k < |results| && results[k].Some?;
      assert a.options[k].Some?;
    }
  }

  /**
    For any number of branches and any completion order: the select future is
    scheduled at most once, exactly once if a branch finished while it was alive,
    late completions included; and its second poll is never empty-handed.
   */
  lemma {:induction false} ScheduledOnce<T>(n: nat, states: seq<State<T>>, steps: seq<Step<T>>, k: nat)
    requires IsRun(n, states, steps) && k < |states|
    ensures Inv(states[k], n) && states[k].scheduled <= 1
    ensures states[k].alive && (exists i :: 0 <= i < n && states[k].pcs[i] == Finished) ==> states[k].scheduled == 1
    ensures states[k].answer.Some? ==> Fruitful(states[k].answer.value)
  {
    if k != 0 {
      ScheduledOnce(n, states, steps, k - 1);
      StepKeeps(states[k - 1], steps[k - 1], n);
    }
  }

  /** The answer is what had been stored when the second poll ran; nothing later changes it or schedules it again. */
  lemma {:induction false} AnswerIsFixed<T>(n: nat, states: seq<State<T>>, steps: seq<Step<T>>, k: nat, m: nat)
    requires IsRun(n, states, steps) && k < m < |states| && steps[k] == SecondPoll
    ensures states[m].answer == Some(Collect(states[k].results, 0)) && states[m].scheduled == 1
    decreases m
  {
    ScheduledOnce(n, states, steps, m);
    if k + 1 < m {
      AnswerIsFixed(n, states, steps, k, m - 1);
      assert states[m] == Next(states[m - 1], steps[m - 1]);
    }
  }

  // ---------- what the branches produced ----------

  /** Branch i produced r in the first m steps. */
  ghost predicate Produced<T>(steps: seq<Step<T>>, m: nat, i: nat, r: Outcome<T>) {
    exists k :: 0 <= k < m && k < |steps| && steps[k] == Complete(i, r)
  }

  lemma ProducedStep<T>(steps: seq<Step<T>>, m: nat, i: nat, r: Outcome<T>)
    requires 0 < m <= |steps|
    ensures Produced(steps, m, i, r) <==> Produced(steps, m - 1, i, r) || steps[m - 1] == Complete(i, r)
  {
  }

  lemma StoreStep<T>(s: State<T>, a: Step<T>, n: nat, i: nat, r: Outcome<T>)
    requires Inv(s, n) && Enabled(s, a) && i < n
    ensures |Next(s, a).results| == n
    ensures Next(s, a).results[i] == Some(r) <==> s.results[i] == Some(r) || a == Complete(i, r)
  {
  }

  /** In every run a branch's result is stored if and only if the branch produced it. */
  lemma {:induction false} StoredIffProduced<T>(n: nat, states: seq<State<T>>, steps: seq<Step<T>>, m: nat, i: nat,
                                                r: Outcome<T>)
    requires IsRun(n, states, steps) && m < |states| && i < n
    ensures |states[m].results| == n && (states[m].results[i] == Some(r) <==> Produced(steps, m, i, r))
  {
    ScheduledOnce(n, states, steps, m);
    if m != 0 {
      StoredIffProduced(n, states, steps, m - 1, i, r);
      ScheduledOnce(n, states, steps, m - 1);
      ProducedStep(steps, m, i, r);
      StoreStep(states[m - 1], steps[m - 1], n, i, r);
      assert states[m] == Next(states[m - 1], steps[m - 1]);
    }
  }

  /** An answer of the poll at step k in terms of what the branches had produced by then. */
  ghost predicate Tells<T>(steps: seq<Step<T>>, k: nat, n: nat, a: Answer<T>) {
    match a
    case Options(os, cancelled) =>
      && |os| == n
      && (forall i :: 0 <= i < n && os[i].Some? ==> Produced(steps, k, i, Value(os[i].value)) && i !in cancelled)
      && (forall i :: 0 <= i < n && os[i].None? ==> !Ended(steps, k, i) && i in cancelled)
    case Thrown(e, cancelled) =>
      exists m :: 0 <= m < n && Threw(steps, k, m, e) && cancelled == (set i | 0 <= i < m && !Ended(steps, k, i))
  }

  /** Branch i produced something in the first k steps. */
  ghost predicate Ended<T>(steps: seq<Step<T>>, k: nat, i: nat) {
    exists j :: 0 <= j < k && j < |steps| && steps[j].Complete? && steps[j].branch == i
  }

  /** Branch m threw e, and no branch to its left threw. */
  ghost predicate Threw<T>(steps: seq<Step<T>>, k: nat, m: nat, e: nat) {
    && Produced(steps, k, m, Exception(e))
    && forall i, x :: 0 <= i < m ==> !Produced(steps, k, i, Exception(x))
  }

  /**
    In every run the answer is made of what the branches had produced when the
    second poll ran: their values in branch order and a gap, with a cancel, for each
    that had produced nothing; or the exception of the leftmost that had thrown, with
    a cancel for each to its left that had produced nothing.
   */
  lemma SelectYields<T>(n: nat, states: seq<State<T>>, steps: seq<Step<T>>, k: nat, m: nat)
    requires IsRun(n, states, steps) && k < m < |states| && steps[k] == SecondPoll
    ensures states[m].answer.Some? && Tells(steps, k, n, states[m].answer.value)
  {
    AnswerIsFixed(n, states, steps, k, m);
    ScheduledOnce(n, states, steps, k);
    var rs := states[k].results;
    CollectMeaning(rs, 0);
    forall i, r | 0 <= i < n ensures rs[i] == Some(r) <==> Produced(steps, k, i, r) {
      StoredIffProduced(n, states, steps, k, i, r);
    }
    CollectTells(rs, steps, k);
  }

  lemma CollectTells<T>(rs: Results<T>, steps: seq<Step<T>>, k: nat)
    requires forall i, r :: 0 <= i < |rs| ==> (rs[i] == Some(r) <==> Produced(steps, k, i, r))
    ensures Tells(steps, k, |rs|, Collect(rs, 0))
  {
    CollectMeaning(rs, 0);
    var a := Collect(rs, 0);
    forall i | 0 <= i < |rs| ensures rs[i].Some? <==> Ended(steps, k, i) {
      if rs[i].Some? {
        assert Produced(steps, k, i, rs[i].value);
      } else if Ended(steps, k, i) {
        var j :| 0 <= j < k && j < |steps| && steps[j].Complete? && steps[j].branch == i;
        assert Produced(steps, k, i, steps[j].outcome);
      }
    }
    if a.Thrown? {
      var m: nat :| Leftmost(rs, 0, m, a.error) && a.cancelled == Unfinished(rs, 0, m);
      assert rs[m] == Some(Exception(a.error));
      assert Threw(steps, k, m, a.error);
      assert Unfinished(rs, 0, m) == set i | 0 <= i < m && !Ended(steps, k, i);
    }
  }

  lemma {:induction false} AliveUntilDestroyed<T>(n: nat, states: seq<State<T>>, steps: seq<Step<T>>, m: nat)
    requires IsRun(n, states, steps) && m < |states|
    ensures states[m].alive <==> forall k :: 0 <= k < m ==> steps[k] != Destroy
  {
    if m != 0 {
      AliveUntilDestroyed(n, states, steps, m - 1);
      assert Enabled(states[m - 1], steps[m - 1]) && states[m] == Next(states[m - 1], steps[m - 1]);
    }
  }

  /** A branch that completes before the select future is destroyed gets it scheduled, once and for all. */
  lemma {:induction false} CompletionSchedules<T>(n: nat, states: seq<State<T>>, steps: seq<Step<T>>, k: nat, m: nat)
    requires IsRun(n, states, steps) && k < m < |states| && steps[k].Complete?
    requires forall j :: 0 <= j < k ==> steps[j] != Destroy
    ensures states[m].scheduled == 1
    decreases m
  {
    ScheduledOnce(n, states, steps, m - 1);
    assert states[m] == Next(states[m - 1], steps[m - 1]);
    if k + 1 == m {
      AliveUntilDestroyed(n, states, steps, k);
    } else {
      CompletionSchedules(n, states, steps, k, m - 1);
    }
  }

  /** Branch i was dropped without a result. */
  predicate Silent<T>(s: State<T>, i: nat) {
    i < |s.pcs| == |s.results| && s.pcs[i] == Dropped && s.results[i].None?
  }

  lemma SilentStep<T>(s: State<T>, a: Step<T>, n: nat, i: nat)
    requires Inv(s, n) && Enabled(s, a) && i < n
    ensures Silent(Next(s, a), i) <==> Silent(s, i) || a == Drop(i)
  {
  }

  /** A branch ends with a result or cancelled, never both: it is silent if and only if it was dropped. */
  lemma {:induction false} DroppedIsSilent<T>(n: nat, states: seq<State<T>>, steps: seq<Step<T>>, m: nat, i: nat)
    requires IsRun(n, states, steps) && m < |states| && i < n
    ensures Silent(states[m], i) <==> exists k :: 0 <= k < m && steps[k] == Drop(i)
  {
    if m != 0 {
      DroppedIsSilent(n, states, steps, m - 1, i);
      ScheduledOnce(n, states, steps, m - 1);
      SilentStep(states[m - 1], steps[m - 1], n, i);
      assert states[m] == Next(states[m - 1], steps[m - 1]);
    }
  }
}
