/**
  `join`: every branch stores its result outside the lock and then checks, under
  the lock, whether all results are there. Two steps per branch, any interleaving.
 */
module Join {
  import opened Common
  import RunQueue

  predicate AllStored<T>(results: Results<T>) {
    forall i :: 0 <= i < |results| ==> results[i].Some?
  }

  datatype Answer<T> = Values(values: seq<T>) | Thrown(error: nat)

  /** The second half of `poll`: results in branch order, or the first exception from the left. */
  function Extract<T>(results: Results<T>): Answer<T>
    requires AllStored(results)
  {
    if results == [] then Values([])
    else
      match results[0].value
      case Exception(e) => Thrown(e)
      case Value(v) =>
        match Extract(results[1..])
        case Thrown(e) => Thrown(e)
        case Values(vs) => Values([v] + vs)
  }

  /** What the extraction means: all values, position by position, or the leftmost exception. */
  lemma {:induction false} ExtractMeaning<T>(results: Results<T>)
    requires AllStored(results)
    ensures var r := Extract(results);
      && (r.Values? ==> |r.values| == |results|
                        && forall i :: 0 <= i < |results| ==> results[i] == Some(Value(r.values[i])))
      && (r.Thrown? ==> exists i :: 0 <= i < |results| && results[i] == Some(Exception(r.error))
                                    && forall j :: 0 <= j < i ==> results[j].value.Value?)
  {
    if results != [] && results[0].value.Value? {
      var rest := results[1..];
      ExtractMeaning(rest);
      var r := Extract(rest);
      if r.Thrown? {
        var i :| 0 <= i < |rest| && rest[i] == Some(Exception(r.error)) && forall j :: 0 <= j < i ==> rest[j].value.Value?;
        assert results[i + 1] == Some(Exception(r.error));
        forall j | 0 <= j < i + 1 ensures results[j].value.Value? {
          assert j > 0 ==> results[j] == rest[j - 1];
        }
      } else {
        forall i | 0 <= i < |results| ensures results[i] == Some(Value(Extract(results).values[i])) {
          assert i > 0 ==> results[i] == rest[i - 1];
        }
      }
    }
  }

  /** The join object; each method takes the step of the same name in the step system below. */
  class JoinFuture<T> {
    var ready: bool
    var registered: bool
    var results: Results<T>
    ghost var pcs: seq<Pc>        // how far each branch is
    ghost var scheduled: nat      // how often the join was registered to run

    ghost function Abs(): State<T>
      reads this
    {
      State(pcs, results, registered, scheduled)
    }

    ghost predicate Valid()
      reads this
    {
      Inv(Abs(), |results|)
    }

    constructor (n: nat)
      requires n > 0
      ensures Valid() && !ready && Abs() == Start(n)
    {
      ready, registered, results := false, false, seq(n, _ => None);
      pcs, scheduled := seq(n, _ => Running), 0;
      new;
      assert results[0] == None;
    }

    /** First poll: spawn every branch, in order. */
    method Spawn(core: RunQueue.RunQueue<Entry>)
      requires !ready
      modifies this, core
      ensures ready && Abs() == old(Abs())
      ensures RunQueue.Order(core.handles) == old(RunQueue.Order(core.handles)) + Branches(|results|)
    {
      ready := true;
      for i := 0 to |results|
        invariant ready && Abs() == old(Abs())
        invariant RunQueue.Order(core.handles) == old(RunQueue.Order(core.handles)) + Branches(i)
      {
        core.Register(Branch(i));
      }
    }

    /** A branch's result, outside the lock. */
    method Store(i: nat, outcome: Outcome<T>)
      requires Valid() && Enabled(Abs(), StoreResult(i, outcome))
      modifies this
      ensures Valid() && ready == old(ready) && Abs() == Next(old(Abs()), StoreResult(i, outcome))
      ensures results == old(results)[i := Some(outcome)]
    {
      StepKeeps(Abs(), StoreResult(i, outcome), |results|);
      results := results[i := Some(outcome)];
      pcs := pcs[i := Stored];
    }

    /** The locked section: register the join once all results are there. */
    method Check(i: nat, core: RunQueue.RunQueue<Entry>)
      requires Valid() && Enabled(Abs(), LockedCheck(i))
      modifies this, core
      ensures Valid() && ready == old(ready) && Abs() == Next(old(Abs()), LockedCheck(i))
      ensures RunQueue.Order(core.handles)
           == old(RunQueue.Order(core.handles)) + if scheduled > old(scheduled) then [Self] else []
    {
      StepKeeps(Abs(), LockedCheck(i), |results|);
      pcs := pcs[i := Checked];
      if registered {
        return;
      }
      var allCompleted := true;
      for j := 0 to |results|
        invariant allCompleted <==> forall k :: 0 <= k < j ==> results[k].Some?
      {
        if results[j].None? {
          allCompleted := false;
        }
      }
      if allCompleted {
        registered := true;
        scheduled := scheduled + 1;
        core.Register(Self);
      }
    }

    /** Second poll: left to right, stopping at the first exception. */
    method Finish() returns (answer: Answer<T>)
      requires ready && AllStored(results)
      ensures answer == Extract(results)
    {
      var values := [];
      for i := 0 to |results|
        invariant |values| == i && forall j :: 0 <= j < i ==> results[j] == Some(Value(values[j]))
      {
        if results[i].value.Exception? {
          ExtractThrows(results, i);
          return Thrown(results[i].value.error);
        }
        values := values + [results[i].value.value];
      }
      ExtractValues(results, values);
      return Values(values);
    }
  }

  lemma {:induction false} ExtractThrows<T>(results: Results<T>, i: nat)
    requires AllStored(results) && i < |results| && results[i].value.Exception?
    requires forall j :: 0 <= j < i ==> results[j].value.Value?
    ensures Extract(results) == Thrown(results[i].value.error)
  {
    if i != 0 {
      ExtractThrows(results[1..], i - 1);
    }
  }

  lemma {:induction false} ExtractValues<T>(results: Results<T>, values: seq<T>)
    requires |values| == |results| && forall j :: 0 <= j < |results| ==> results[j] == Some(Value(values[j]))
    ensures Extract(results) == Values(values)
  {
    if results != [] {
      ExtractValues(results[1..], values[1..]);
      assert values == [values[0]] + values[1..];
    }
  }

  // ---------- every interleaving ----------

  datatype Pc = Running | Stored | Checked

  datatype State<T> = State(pcs: seq<Pc>, results: Results<T>, registered: bool, scheduled: nat)

  datatype Step<T> = StoreResult(branch: nat, outcome: Outcome<T>) | LockedCheck(branch: nat)

  predicate Enabled<T>(s: State<T>, a: Step<T>) {
    match a
    case StoreResult(i, _) => i < |s.pcs| == |s.results| && s.pcs[i] == Running
    case LockedCheck(i) => i < |s.pcs| && s.pcs[i] == Stored
  }

  function Next<T>(s: State<T>, a: Step<T>): State<T>
    requires Enabled(s, a)
  {
    match a
    case StoreResult(i, r) => s.(pcs := s.pcs[i := Stored], results := s.results[i := Some(r)])
    case LockedCheck(i) =>
      var t := s.(pcs := s.pcs[i := Checked]);
      if !s.registered && AllStored(s.results) then t.(registered := true, scheduled := s.scheduled + 1) else t
  }

  function Start<T>(n: nat): State<T> {
    State(seq(n, _ => Running), seq(n, _ => None), false, 0)
  }

  ghost predicate IsRun<T>(n: nat, states: seq<State<T>>, steps: seq<Step<T>>) {
    && |states| == |steps| + 1 && states[0] == Start(n)
    && forall i :: 0 <= i < |steps| ==> Enabled(states[i], steps[i]) && states[i + 1] == Next(states[i], steps[i])
  }

  ghost predicate Inv<T>(s: State<T>, n: nat) {
    && |s.pcs| == |s.results| == n
    && (forall i :: 0 <= i < n ==> (s.pcs[i] == Running <==> s.results[i].None?))
    && s.scheduled == (if s.registered then 1 else 0)
    && (s.registered ==> AllStored(s.results))
    && (n > 0 && AllStored(s.results) && !s.registered ==> exists i :: 0 <= i < n && s.pcs[i] == Stored)
  }

  lemma StepKeeps<T>(s: State<T>, a: Step<T>, n: nat)
    requires Inv(s, n) && Enabled(s, a)
    ensures Inv(Next(s, a), n)
  {
    var t := Next(s, a);
    if a.StoreResult? {
      assert t.pcs[a.branch] == Stored;
      assert s.results[a.branch].None?;
    }
  }

  /**
    In every interleaving the join is scheduled at most once and only with every
    result stored; once all branches are through it was scheduled exactly once.
   */
  lemma {:induction false} ScheduledOnce<T>(n: nat, states: seq<State<T>>, steps: seq<Step<T>>, k: nat)
    requires IsRun(n, states, steps) && k < |states|
    ensures Inv(states[k], n)
    ensures states[k].scheduled <= 1 && (states[k].scheduled == 1 ==> AllStored(states[k].results))
    ensures n > 0 && (forall i :: 0 <= i < n ==> states[k].pcs[i] == Checked) ==> states[k].scheduled == 1
  {
    if k == 0 {
      assert states[0] == Start(n);
      if n > 0 {
        assert states[0].results[0] == None;
      }
    } else {
      ScheduledOnce(n, states, steps, k - 1);
      StepKeeps(states[k - 1], steps[k - 1], n);
    }
    if n > 0 && forall i :: 0 <= i < n ==> states[k].pcs[i] == Checked {
      AllChecked(states[k], n);
    }
  }

  /** The last branch to check has seen every result. */
  lemma AllChecked<T>(s: State<T>, n: nat)
    requires Inv(s, n) && n > 0 && forall i :: 0 <= i < n ==> s.pcs[i] == Checked
    ensures s.scheduled == 1
  {
    forall i | 0 <= i < |s.results| ensures s.results[i].Some? {
      assert s.pcs[i] == Checked;
    }
  }

  lemma ResultStays<T>(s: State<T>, a: Step<T>, n: nat, i: nat)
    requires Inv(s, n) && Enabled(s, a) && i < n && s.results[i].Some?
    ensures Next(s, a).results[i] == s.results[i]
  {
  }

  /** Once scheduled, the join's answer is fixed: whenever it is polled it sees what every branch stored. */
  lemma {:induction false} AnswerIsFixed<T>(n: nat, states: seq<State<T>>, steps: seq<Step<T>>, k: nat, m: nat)
    requires IsRun(n, states, steps) && k <= m < |states| && states[k].scheduled == 1
    ensures AllStored(states[k].results) && states[m].results == states[k].results
    decreases m
  {
    ScheduledOnce(n, states, steps, k);
    if k < m {
      AnswerIsFixed(n, states, steps, k, m - 1);
      ScheduledOnce(n, states, steps, m - 1);
      forall i | 0 <= i < n ensures states[m].results[i] == states[k].results[i] {
        ResultStays(states[m - 1], steps[m - 1], n, i);
      }
    }
  }

  // ---------- what the branches produced ----------

  /** Branch i produced r in the first m steps. */
  ghost predicate Produced<T>(steps: seq<Step<T>>, m: nat, i: nat, r: Outcome<T>) {
    exists k :: 0 <= k < m && k < |steps| && steps[k] == StoreResult(i, r)
  }

  /** Branch i went through its locked section in the first m steps. */
  ghost predicate Through<T>(steps: seq<Step<T>>, m: nat, i: nat) {
    exists k :: 0 <= k < m && k < |steps| && steps[k] == LockedCheck(i)
  }

  lemma ProducedStep<T>(steps: seq<Step<T>>, m: nat, i: nat, r: Outcome<T>)
    requires 0 < m <= |steps|
    ensures Produced(steps, m, i, r) <==> Produced(steps, m - 1, i, r) || steps[m - 1] == StoreResult(i, r)
    ensures Through(steps, m, i) <==> Through(steps, m - 1, i) || steps[m - 1] == LockedCheck(i)
  {
  }

  lemma StoreStep<T>(s: State<T>, a: Step<T>, n: nat, i: nat, r: Outcome<T>)
    requires Inv(s, n) && Enabled(s, a) && i < n
    ensures |Next(s, a).results| == |Next(s, a).pcs| == n
    ensures Next(s, a).results[i] == Some(r) <==> s.results[i] == Some(r) || a == StoreResult(i, r)
    ensures Next(s, a).pcs[i] == Checked <==> s.pcs[i] == Checked || a == LockedCheck(i)
  {
  }

  /** In every run a branch's result is stored if and only if the branch produced it. */
  lemma {:induction false} StoredIffProduced<T>(n: nat, states: seq<State<T>>, steps: seq<Step<T>>, m: nat, i: nat,
                                                r: Outcome<T>)
    requires IsRun(n, states, steps) && m < |states| && i < n
    ensures |states[m].results| == |states[m].pcs| == n
    ensures states[m].results[i] == Some(r) <==> Produced(steps, m, i, r)
    ensures states[m].pcs[i] == Checked <==> Through(steps, m, i)
  {
    ScheduledOnce(n, states, steps, m);
    if m != 0 {
      StoredIffProduced(n, states, steps, m - 1, i, r);
      ScheduledOnce(n, states, steps, m - 1);
      ProducedStep(steps, m, i, r);
      StoreStep(states[m - 1], steps[m - 1], n, i, r);
      assert states[m] == Next(states[m - 1], steps[m - 1]);
    }
  }

  /** Once every branch went through, the join was scheduled exactly once. */
  lemma ThroughSchedules<T>(n: nat, states: seq<State<T>>, steps: seq<Step<T>>, m: nat)
    requires IsRun(n, states, steps) && m < |states| && n > 0 && forall i :: 0 <= i < n ==> Through(steps, m, i)
    ensures states[m].scheduled == 1
  {
    forall i | 0 <= i < n ensures |states[m].pcs| == n && states[m].pcs[i] == Checked {
      assert Through(steps, m, i);
      var k :| 0 <= k < m && k < |steps| && steps[k] == LockedCheck(i);
      StoredIffProduced(n, states, steps, m, i, Exception(0));
    }
    ScheduledOnce(n, states, steps, m);
  }

  /**
    Whenever the join is polled after it was scheduled, every branch has produced an
    outcome and the answer is made of these: all the values in branch order, or the
    exception of the leftmost branch that threw.
   */
  lemma JoinYields<T>(n: nat, states: seq<State<T>>, steps: seq<Step<T>>, m: nat) returns (outcomes: seq<Outcome<T>>)
    requires IsRun(n, states, steps) && m < |states| && states[m].scheduled == 1
    ensures AllStored(states[m].results) && |outcomes| == n
    ensures forall i :: 0 <= i < n ==> Produced(steps, m, i, outcomes[i])
    ensures (forall i :: 0 <= i < n ==> outcomes[i].Value?) ==>
      Extract(states[m].results) == Values(seq(n, i requires 0 <= i < n && outcomes[i].Value? => outcomes[i].value))
    ensures forall i :: 0 <= i < n && outcomes[i].Exception? && (forall j :: 0 <= j < i ==> outcomes[j].Value?) ==>
      Extract(states[m].results) == Thrown(outcomes[i].error)
  {
    ScheduledOnce(n, states, steps, m);
    var rs := states[m].results;
    outcomes := seq(n, i requires 0 <= i < n => rs[i].value);
    forall i | 0 <= i < n ensures Produced(steps, m, i, outcomes[i]) {
      StoredIffProduced(n, states, steps, m, i, outcomes[i]);
    }
    if forall i :: 0 <= i < n ==> outcomes[i].Value? {
      ExtractValues(rs, seq(n, i requires 0 <= i < n && outcomes[i].Value? => outcomes[i].value));
    }
    forall i | 0 <= i < n && outcomes[i].Exception? && forall j :: 0 <= j < i ==> outcomes[j].Value?
      ensures Extract(rs) == Thrown(outcomes[i].error)
    {
      forall j | 0 <= j < i ensures rs[j].value.Value? {
        assert outcomes[j].Value?;
      }
      ExtractThrows(rs, i);
    }
  }
}
