/**
  The blocking registry: registering appends the event and hands its closure to
  the least loaded worker of a pool; workers run closures, which mark the event;
  `select` hands out the marked events and keeps the others.
 */
module BlockingRegistry {
  import opened Common

  type Id = nat

  /** Those of the events that are, or are not, in `finished`, in order. */
  function Pick(events: seq<Id>, finished: set<Id>, want: bool): seq<Id> {
    if events == [] then []
    else (if (events[0] in finished) == want then [events[0]] else []) + Pick(events[1..], finished, want)
  }

  /** A later event is picked after the earlier ones. */
  lemma {:induction false} PickAppend(events: seq<Id>, e: Id, finished: set<Id>, want: bool)
    ensures Pick(events + [e], finished, want)
         == Pick(events, finished, want) + if (e in finished) == want then [e] else []
  {
    if events == [] {
      assert events + [e] == [e];
    } else {
      var x, rest, appended := events[0], events[1..], events + [e];
      assert appended[0] == x && appended[1..] == rest + [e];
      PickAppend(rest, e, finished, want);
      var head: seq<Id> := if (x in finished) == want then [x] else [];
      var last: seq<Id> := if (e in finished) == want then [e] else [];
      assert Pick(appended, finished, want) == head + (Pick(rest, finished, want) + last);
    }
  }

  lemma CountCons(x: Id, s: seq<Id>, e: Id)
    ensures multiset([x] + s)[e] == multiset(s)[e] + (if x == e then 1 else 0)
  {
  }

  lemma {:induction false} PickCount(events: seq<Id>, finished: set<Id>, want: bool, e: Id)
    ensures multiset(Pick(events, finished, want))[e] == if (e in finished) == want then multiset(events)[e] else 0
  {
    if events != [] {
      var x, rest := events[0], events[1..];
      var picked := Pick(rest, finished, want);
      PickCount(rest, finished, want, e);
      CountCons(x, rest, e);
      assert events == [x] + rest;
      if (x in finished) == want {
        CountCons(x, picked, e);
        assert Pick(events, finished, want) == [x] + picked;
      } else {
        assert Pick(events, finished, want) == picked;
      }
    }
  }

  /** The two selections share the events out. */
  lemma PickSplits(events: seq<Id>, finished: set<Id>, e: Id)
    ensures multiset(Pick(events, finished, true))[e] == if e in finished then multiset(events)[e] else 0
    ensures multiset(Pick(events, finished, false))[e] == if e in finished then 0 else multiset(events)[e]
  {
    PickCount(events, finished, true, e);
    PickCount(events, finished, false, e);
  }

  /** The registry with its pool; every method takes steps of the step system below. */
  class Registry {
    var events: seq<Id>
    var finished: set<Id>         // events whose closure has set after_extra_
    var queues: seq<seq<Id>>      // the workers' task queues
    var running: seq<seq<Id>>     // the task each worker runs, if any
    ghost var registered: seq<Id>
    ghost var delivered: seq<Id>

    ghost function Abs(): Pool
      reads this
    {
      Pool(events, [], queues, running, finished, registered, delivered)
    }

    /** Every event is accounted for. */
    ghost predicate Valid()
      reads this
    {
      AllTracked(Abs())
    }

    constructor (workers: nat)
      ensures Valid() && Abs() == Start(workers)
    {
      events, finished, queues, running := [], {}, seq(workers, _ => []), seq(workers, _ => []);
      registered, delivered := [], [];
      new;
      StartTracked(workers);
      assert Abs() == Start(workers);
    }

    /** min_element: the first worker with the fewest tasks. */
    method LeastLoaded() returns (w: nat)
      requires queues != []
      ensures w < |queues|
      ensures forall k :: 0 <= k < |queues| ==> |queues[w]| <= |queues[k]|
      ensures forall k :: 0 <= k < w ==> |queues[w]| < |queues[k]|
    {
      w := 0;
      for i := 1 to |queues|
        invariant w < i
        invariant forall k :: 0 <= k < i ==> |queues[w]| <= |queues[k]|
        invariant forall k :: 0 <= k < w ==> |queues[w]| < |queues[k]|
      {
        if |queues[i]| < |queues[w]| {
          w := i;
        }
      }
    }

    /** Append, then hand the closure to a least loaded worker. */
    method Register(e: Id) returns (w: nat)
      requires Valid() && queues != [] && Enabled(Abs(), Append(e))
      modifies this
      ensures Valid() && w < |old(queues)|
      ensures Abs() == Next(Next(old(Abs()), Append(e)), Spawn(0, w))
      ensures forall k :: 0 <= k < |old(queues)| ==> |old(queues)[w]| <= |old(queues)[k]|
    {
      ghost var p := Abs();
      events := events + [e];
      w := LeastLoaded();
      AllKept(p, Append(e));
      AllKept(Next(p, Append(e)), Spawn(0, w));
      queues := queues[w := queues[w] + [e]];
      registered := registered + [e];
      assert Abs() == Next(Next(p, Append(e)), Spawn(0, w));
    }

    /** A worker takes the oldest task of its queue. */
    method TakeTask(w: nat) returns (e: Id)
      requires Valid() && Enabled(Abs(), Take(w))
      modifies this
      ensures Valid() && Abs() == Next(old(Abs()), Take(w)) && e == old(queues)[w][0]
    {
      ghost var p := Abs();
      AllKept(p, Take(w));
      e := queues[w][0];
      queues := queues[w := queues[w][1..]];
      running := running[w := [e]];
      assert Abs() == Next(p, Take(w));
    }

    /** The task sets after_extra_ of its event. */
    method RunTask(w: nat)
      requires Valid() && Enabled(Abs(), Finish(w))
      modifies this
      ensures Valid() && Abs() == Next(old(Abs()), Finish(w))
    {
      ghost var p := Abs();
      AllKept(p, Finish(w));
      finished := finished + {running[w][0]};
      running := running[w := running[w][1..]];
      assert Abs() == Next(p, Finish(w));
    }

    /** Hands out exactly the events whose closure ran, each for the first and only time. */
    method Select() returns (out: seq<Id>)
      requires Valid()
      modifies this
      ensures Valid() && Abs() == Next(old(Abs()), SelectReady) && delivered == old(delivered) + out
      ensures forall e :: e in out <==> e in old(events) && e in finished
      ensures forall e :: e in out ==> e !in old(delivered) && multiset(out)[e] == 1
    {
      ghost var p := Abs();
      AllKept(p, SelectReady);
      SelectedOnce(p);
      var kept;
      out, kept := Split();
      events := kept;
      delivered := delivered + out;
      assert Abs() == Next(p, SelectReady);
    }

    /** The two copy_if passes. */
    method Split() returns (out: seq<Id>, kept: seq<Id>)
      ensures out == Pick(events, finished, true) && kept == Pick(events, finished, false)
    {
      out, kept := [], [];
      for i := 0 to |events|
        invariant kept == Pick(events[..i], finished, false) && out == Pick(events[..i], finished, true)
      {
        assert events[..i + 1] == events[..i] + [events[i]];
        PickAppend(events[..i], events[i], finished, false);
        PickAppend(events[..i], events[i], finished, true);
        if events[i] in finished {
          out := out + [events[i]];
        } else {
          kept := kept + [events[i]];
        }
      }
      assert events[..|events|] == events;
    }
  }

  // ---------- any number of workers ----------

  datatype Pool = Pool(
    events: seq<Id>,
    spawning: seq<Id>,          // appended to events_, closure not yet in a queue
    queues: seq<seq<Id>>,
    running: seq<seq<Id>>,      // at most one per worker
    finished: set<Id>,
    registered: seq<Id>,        // history
    delivered: seq<Id>)

  datatype Step = Append(e: Id) | Spawn(i: nat, worker: nat) | Take(worker: nat) | Finish(worker: nat) | SelectReady

  predicate Enabled(p: Pool, a: Step) {
    match a
    case Append(e) => e !in p.registered
    case Spawn(i, w) => i < |p.spawning| && w < |p.queues|
    case Take(w) => w < |p.queues| == |p.running| && p.queues[w] != [] && p.running[w] == []
    case Finish(w) => w < |p.running| && p.running[w] != []
    case SelectReady => true
  }

  /** Appending and spawning are separate steps, and any worker may be the one chosen. */
  function Next(p: Pool, a: Step): Pool
    requires Enabled(p, a)
  {
    match a
    case Append(e) => p.(events := p.events + [e], spawning := p.spawning + [e], registered := p.registered + [e])
    case Spawn(i, w) =>
      p.(spawning := p.spawning[..i] + p.spawning[i + 1..], queues := p.queues[w := p.queues[w] + [p.spawning[i]]])
    case Take(w) => p.(queues := p.queues[w := p.queues[w][1..]], running := p.running[w := [p.queues[w][0]]])
    case Finish(w) => p.(running := p.running[w := p.running[w][1..]], finished := p.finished + {p.running[w][0]})
    case SelectReady =>
      p.(events := Pick(p.events, p.finished, false), delivered := p.delivered + Pick(p.events, p.finished, true))
  }

  function Start(workers: nat): Pool {
    Pool([], [], seq(workers, _ => []), seq(workers, _ => []), {}, [], [])
  }

  ghost predicate IsRun(workers: nat, states: seq<Pool>, steps: seq<Step>) {
    && |states| == |steps| + 1 && states[0] == Start(workers)
    && forall i :: 0 <= i < |steps| ==> Enabled(states[i], steps[i]) && states[i + 1] == Next(states[i], steps[i])
  }

  /** How often e occurs in any of the queues. */
  ghost function InQueues(queues: seq<seq<Id>>, e: Id): nat {
    if queues == [] then 0 else multiset(queues[0])[e] + InQueues(queues[1..], e)
  }

  lemma {:induction false} InQueuesUpdate(queues: seq<seq<Id>>, w: nat, q: seq<Id>, e: Id)
    requires w < |queues|
    ensures InQueues(queues[w := q], e) + multiset(queues[w])[e] == InQueues(queues, e) + multiset(q)[e]
  {
    if w != 0 {
      InQueuesUpdate(queues[1..], w - 1, q, e);
      assert queues[w := q][1..] == queues[1..][w - 1 := q];
    } else {
      assert queues[w := q][1..] == queues[1..];
    }
  }

  lemma {:induction false} InQueuesNone(queues: seq<seq<Id>>, e: Id)
    requires forall i :: 0 <= i < |queues| ==> queues[i] == []
    ensures InQueues(queues, e) == 0
  {
    if queues != [] {
      InQueuesNone(queues[1..], e);
      assert queues[0] == [];
    }
  }

  /** The places e's closure is in: about to be queued, queued, or running. */
  ghost function Places(p: Pool, e: Id): nat {
    multiset(p.spawning)[e] + InQueues(p.queues, e) + InQueues(p.running, e)
  }

  /** e was registered at most once; its closure ran or is in exactly one place; it waits in events_ or was delivered. */
  ghost predicate Tracked(p: Pool, e: Id) {
    && multiset(p.registered)[e] <= 1
    && Places(p, e) + (if e in p.finished then 1 else 0) == multiset(p.registered)[e]
    && multiset(p.events)[e] + multiset(p.delivered)[e] == multiset(p.registered)[e]
    && (e in p.delivered ==> e in p.finished)
  }

  lemma CountConcat(s: seq<Id>, t: seq<Id>, e: Id)
    ensures multiset(s + t)[e] == multiset(s)[e] + multiset(t)[e]
    ensures e in s + t ==> e in s || multiset(t)[e] > 0
  {
    assert e in t ==> e in multiset(t);
  }

  lemma CountHead(s: seq<Id>, e: Id)
    requires s != []
    ensures multiset(s)[e] == multiset(s[1..])[e] + if s[0] == e then 1 else 0
  {
    assert s == [s[0]] + s[1..];
  }

  lemma CountRemove(s: seq<Id>, i: nat, e: Id)
    requires i < |s|
    ensures multiset(s)[e] == multiset(s[..i] + s[i + 1..])[e] + if s[i] == e then 1 else 0
  {
    assert s == s[..i] + [s[i]] + s[i + 1..];
  }

  lemma CountOne(x: Id, e: Id)
    ensures multiset([x])[e] == if x == e then 1 else 0
  {
  }

  lemma MoveKeeps(p: Pool, a: Step, e: Id)
    requires Enabled(p, a) && (a.Spawn? || a.Take? || a.Finish?) && Tracked(p, e)
    ensures Tracked(Next(p, a), e)
  {
    var q := Next(p, a);
    match a
    case Spawn(i, w) =>
      CountRemove(p.spawning, i, e);
      CountAppend(p.queues[w], p.spawning[i], e);
      InQueuesUpdate(p.queues, w, q.queues[w], e);
    case Take(w) =>
      CountHead(p.queues[w], e);
      CountOne(p.queues[w][0], e);
      InQueuesUpdate(p.queues, w, q.queues[w], e);
      InQueuesUpdate(p.running, w, q.running[w], e);
    case Finish(w) =>
      CountHead(p.running[w], e);
      InQueuesUpdate(p.running, w, q.running[w], e);
  }

  lemma AppendKeeps(p: Pool, x: Id, e: Id)
    requires Enabled(p, Append(x)) && Tracked(p, e)
    ensures Tracked(Next(p, Append(x)), e)
  {
    CountAppend(p.events, x, e);
    CountAppend(p.spawning, x, e);
    CountAppend(p.registered, x, e);
    assert x == e ==> e !in multiset(p.registered);
  }

  lemma SelectKeeps(p: Pool, e: Id)
    requires Tracked(p, e)
    ensures Tracked(Next(p, SelectReady), e)
  {
    PickSplits(p.events, p.finished, e);
    CountConcat(p.delivered, Pick(p.events, p.finished, true), e);
  }

  lemma StepKeeps(p: Pool, a: Step, e: Id)
    requires Enabled(p, a) && Tracked(p, e)
    ensures Tracked(Next(p, a), e)
  {
    match a
    case Append(x) => AppendKeeps(p, x, e);
    case SelectReady => SelectKeeps(p, e);
    case _ => MoveKeeps(p, a, e);
  }

  ghost predicate AllTracked(p: Pool) {
    forall e :: Tracked(p, e)
  }

  lemma AllKept(p: Pool, a: Step)
    requires Enabled(p, a) && AllTracked(p)
    ensures AllTracked(Next(p, a))
  {
    forall e ensures Tracked(Next(p, a), e) {
      StepKeeps(p, a, e);
    }
  }

  lemma StartTracked(workers: nat)
    ensures AllTracked(Start(workers))
  {
    forall e: Id ensures Tracked(Start(workers), e) {
      InQueuesNone(Start(workers).queues, e);
      InQueuesNone(Start(workers).running, e);
    }
  }

  /** What a selection hands out: each event whose closure ran, once, and none that was handed out before. */
  lemma SelectedOnce(p: Pool)
    requires AllTracked(p)
    ensures var out := Pick(p.events, p.finished, true);
      && (forall e :: e in out <==> e in p.events && e in p.finished)
      && (forall e :: e in out ==> e !in p.delivered && multiset(out)[e] == 1)
  {
    var out := Pick(p.events, p.finished, true);
    forall e
      ensures e in out <==> e in p.events && e in p.finished
      ensures e in out ==> e !in p.delivered && multiset(out)[e] == 1
    {
      PickSplits(p.events, p.finished, e);
      assert Tracked(p, e);
      assert e in out <==> e in multiset(out);
      assert e in p.events <==> e in multiset(p.events);
      assert e in p.delivered <==> e in multiset(p.delivered);
    }
  }

  /**
    In every run each registered event whose closure has not run has it in exactly
    one place, and each event is delivered at most once, only after its closure ran.
   */
  lemma {:induction false} EachEventOnce(workers: nat, states: seq<Pool>, steps: seq<Step>, n: nat, e: Id)
    requires IsRun(workers, states, steps) && n < |states|
    ensures Tracked(states[n], e)
  {
    if n == 0 {
      StartTracked(workers);
    } else {
      EachEventOnce(workers, states, steps, n - 1, e);
      StepKeeps(states[n - 1], steps[n - 1], e);
    }
  }

  /** After a selection every registered event whose closure ran has been delivered exactly once. */
  lemma SelectDelivers(workers: nat, states: seq<Pool>, steps: seq<Step>, n: nat, e: Id)
    requires IsRun(workers, states, steps) && n < |steps| && steps[n] == SelectReady
    requires e in states[n].registered && e in states[n].finished
    ensures multiset(states[n + 1].delivered)[e] == 1
  {
    EachEventOnce(workers, states, steps, n, e);
    EachEventOnce(workers, states, steps, n + 1, e);
    assert states[n + 1] == Next(states[n], steps[n]);
    PickSplits(states[n].events, states[n].finished, e);
    assert multiset(states[n].registered)[e] > 0;
  }

  // ---------- in what order ----------

  /** What a step queues at worker w, and what w finishes with it. */
  function QueuedAt(p: Pool, a: Step, w: nat): seq<Id> {
    if a.Spawn? && a.worker == w && a.i < |p.spawning| then [p.spawning[a.i]] else []
  }

  function RanAt(p: Pool, a: Step, w: nat): seq<Id> {
    if a == Finish(w) && w < |p.running| && p.running[w] != [] then p.running[w][..1] else []
  }

  function Held(p: Pool, w: nat): seq<Id> {
    if w < |p.running| && w < |p.queues| then p.running[w] + p.queues[w] else []
  }

  /** The tasks worker w holds, the running one first: new ones join at the end and leave at the front. */
  predicate InTurn(p: Pool, a: Step, q: Pool, w: nat) {
    && |q.queues| == |p.queues| && |q.running| == |p.running|
    && (w < |p.queues| == |p.running| ==> Held(p, w) + QueuedAt(p, a, w) == RanAt(p, a, w) + Held(q, w))
  }

  lemma InTurnStep(p: Pool, a: Step, w: nat)
    requires Enabled(p, a)
    ensures InTurn(p, a, Next(p, a), w)
  {
    var q := Next(p, a);
    if a.Take? && a.worker == w {
      assert p.queues[w] == [p.queues[w][0]] + p.queues[w][1..];
      assert p.running[w] + p.queues[w] == q.running[w] + q.queues[w];
    } else if a.Finish? && a.worker == w && w < |p.queues| == |p.running| {
      assert p.running[w] == p.running[w][..1] + p.running[w][1..];
    }
  }

  /** What was queued at worker w in the first n steps, and what w ran to its end, in order. */
  function QueuedIn(states: seq<Pool>, steps: seq<Step>, n: nat, w: nat): seq<Id>
    requires n <= |steps| < |states|
  {
    if n == 0 then [] else QueuedIn(states, steps, n - 1, w) + QueuedAt(states[n - 1], steps[n - 1], w)
  }

  function RanIn(states: seq<Pool>, steps: seq<Step>, n: nat, w: nat): seq<Id>
    requires n <= |steps| < |states|
  {
    if n == 0 then [] else RanIn(states, steps, n - 1, w) + RanAt(states[n - 1], steps[n - 1], w)
  }

  lemma Regroup(all: seq<Id>, ran: seq<Id>, held: seq<Id>, more: seq<Id>, done: seq<Id>, left: seq<Id>)
    requires all == ran + held && held + more == done + left
    ensures all + more == (ran + done) + left
  {
    assert all + more == ran + (held + more) && (ran + done) + left == ran + (done + left);
  }

  lemma {:induction false} InTurnAlong(states: seq<Pool>, steps: seq<Step>, n: nat, w: nat)
    requires |states| == |steps| + 1 && n <= |steps| && w < |states[0].queues| == |states[0].running|
    requires states[0].running[w] == [] && states[0].queues[w] == []
    requires forall i :: 0 <= i < n ==> InTurn(states[i], steps[i], states[i + 1], w)
    ensures w < |states[n].queues| == |states[n].running| && |states[n].queues| == |states[0].queues|
    ensures QueuedIn(states, steps, n, w) == RanIn(states, steps, n, w) + Held(states[n], w)
  {
    if n != 0 {
      InTurnAlong(states, steps, n - 1, w);
      assert InTurn(states[n - 1], steps[n - 1], states[(n - 1) + 1], w);
      Regroup(QueuedIn(states, steps, n - 1, w), RanIn(states, steps, n - 1, w), Held(states[n - 1], w),
        QueuedAt(states[n - 1], steps[n - 1], w), RanAt(states[n - 1], steps[n - 1], w), Held(states[n], w));
    }
  }

  /** In every run each worker runs its tasks in the order they were queued there. */
  lemma TasksInOrder(workers: nat, states: seq<Pool>, steps: seq<Step>, n: nat, w: nat)
    requires IsRun(workers, states, steps) && n <= |steps| && w < workers
    ensures QueuedIn(states, steps, n, w) == RanIn(states, steps, n, w) + Held(states[n], w)
  {
    forall i | 0 <= i < n ensures InTurn(states[i], steps[i], states[i + 1], w) {
      InTurnStep(states[i], steps[i], w);
    }
    InTurnAlong(states, steps, n, w);
  }

  /** Events are registered by appending and in no other way. */
  lemma {:induction false} RegisteredIsAppended(workers: nat, states: seq<Pool>, steps: seq<Step>, n: nat, e: Id)
    requires IsRun(workers, states, steps) && n < |states|
    ensures e in states[n].registered <==> exists k :: 0 <= k < n && steps[k] == Append(e)
  {
    if n != 0 {
      RegisteredIsAppended(workers, states, steps, n - 1, e);
      assert Enabled(states[n - 1], steps[n - 1]) && states[n] == Next(states[n - 1], steps[n - 1]);
    }
  }

  function Members(q: seq<Id>): set<Id> {
    set x | x in q
  }

  lemma {:induction false} PickAgain(q: seq<Id>, before: set<Id>, finished: set<Id>, after: set<Id>)
    requires forall x :: x in q ==> (x in after <==> x in before || x in finished)
    ensures Pick(Pick(q, before, false), finished, false) == Pick(q, after, false)
  {
    if q != [] {
      var x, rest := q[0], q[1..];
      PickAgain(rest, before, finished, after);
      if x !in before {
        assert Pick(q, before, false) == [x] + Pick(rest, before, false);
        assert ([x] + Pick(rest, before, false))[1..] == Pick(rest, before, false);
      } else {
        assert Pick(q, before, false) == Pick(rest, before, false);
      }
    }
  }

  /** The waiting events are the registered ones not yet delivered, in the order they were registered. */
  ghost predicate InOrder(p: Pool) {
    p.events == Pick(p.registered, Members(p.delivered), false)
  }

  lemma {:induction false} PickSame(q: seq<Id>, a: set<Id>, b: set<Id>, want: bool)
    requires forall x :: x in q ==> (x in a <==> x in b)
    ensures Pick(q, a, want) == Pick(q, b, want)
  {
    if q != [] {
      PickSame(q[1..], a, b, want);
    }
  }

  lemma PickedIs(p: Pool, x: Id)
    requires InOrder(p) && x in p.registered
    ensures x in Members(p.delivered + Pick(p.events, p.finished, true)) <==> x in Members(p.delivered) || x in p.finished
  {
    var d, out := Members(p.delivered), Pick(p.events, p.finished, true);
    PickCount(p.registered, d, false, x);
    PickCount(p.events, p.finished, true, x);
    assert x in p.registered <==> x in multiset(p.registered);
    assert x in p.events <==> x in multiset(p.events);
    assert x in out <==> x in multiset(out);
    assert x in p.delivered + out <==> x in p.delivered || x in out;
  }

  lemma InOrderStep(p: Pool, a: Step)
    requires Enabled(p, a) && InOrder(p) && AllTracked(p)
    ensures InOrder(Next(p, a))
  {
    match a
    case Append(e) =>
      assert Tracked(p, e);
      assert e !in multiset(p.registered) && e !in multiset(p.delivered);
      PickAppend(p.registered, e, Members(p.delivered), false);
    case SelectReady =>
      var after := Members(p.delivered + Pick(p.events, p.finished, true));
      forall x | x in p.registered ensures x in after <==> x in Members(p.delivered) || x in p.finished {
        PickedIs(p, x);
      }
      PickAgain(p.registered, Members(p.delivered), p.finished, after);
    case _ =>
  }

  /** In every run events wait in the order they were registered, and so each selection hands them out in that order. */
  lemma {:induction false} EventsInOrder(workers: nat, states: seq<Pool>, steps: seq<Step>, n: nat)
    requires IsRun(workers, states, steps) && n < |states|
    ensures InOrder(states[n])
    ensures n < |steps| && steps[n] == SelectReady ==>
      states[n + 1].delivered == states[n].delivered + Pick(states[n].events, states[n].finished, true)
  {
    if n != 0 {
      EventsInOrder(workers, states, steps, n - 1);
      var p := states[n - 1];
      forall e ensures Tracked(p, e) {
        EachEventOnce(workers, states, steps, n - 1, e);
      }
      InOrderStep(states[n - 1], steps[n - 1]);
      assert states[n] == Next(states[n - 1], steps[n - 1]);
    }
  }
}
