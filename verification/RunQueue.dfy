/**
  The run queue every wake-up schedules into: entries are inserted at the front
  of a vector and taken from its back, under a lock, by any number of workers.
 */
module RunQueue {
  import opened Common

  /** Oldest entry first. */
  function Order<T>(handles: seq<T>): seq<T> {
    if handles == [] then [] else Order(handles[1..]) + [handles[0]]
  }

  lemma {:induction false} OrderLast<T>(handles: seq<T>)
    requires handles != []
    ensures Order(handles) == [handles[|handles| - 1]] + Order(handles[..|handles| - 1])
  {
    if |handles| > 1 {
      OrderLast(handles[1..]);
      var front := handles[..|handles| - 1];
      assert handles[1..][..|handles| - 2] == front[1..];
      assert Order(front) == Order(front[1..]) + [front[0]];
    }
  }

  class RunQueue<T> {
    var handles: seq<T>

    constructor ()
      ensures handles == []
    {
      handles := [];
    }

    /** spawn_impl and register_future: one entry at the front. */
    method Register(entry: T)
      modifies this
      ensures Order(handles) == old(Order(handles)) + [entry]
    {
      handles := [entry] + handles;
    }

    /** One turn of the resume loop: the back entry, unless the queue is empty. */
    method Take() returns (entry: T)
      requires handles != []
      modifies this
      ensures old(Order(handles)) == [entry] + Order(handles)
    {
      OrderLast(handles);
      entry := handles[|handles| - 1];
      handles := handles[..|handles| - 1];
    }

    /** wake: the futures of a list of events, in the list's order. */
    method Wake(events: seq<T>)
      modifies this
      ensures Order(handles) == old(Order(handles)) + events
    {
      for i := 0 to |events|
        invariant Order(handles) == old(Order(handles)) + events[..i]
      {
        Register(events[i]);
        assert events[..i + 1] == events[..i] + [events[i]];
      }
    }
  }

  // ---------- any number of workers ----------

  datatype Queue<T> = Queue(
    handles: seq<T>,
    held: map<nat, T>,        // what each busy worker took and has not finished
    suspended: set<nat>,
    pushed: seq<T>,           // history: everything ever inserted
    taken: seq<T>,            // history: everything ever taken, in order
    finished: seq<T>)         // history: everything polled or resumed

  datatype Action<T> = Push(entry: T) | Pop(worker: nat) | Finish(worker: nat) | Suspend(worker: nat)

  predicate Enabled<T>(q: Queue<T>, a: Action<T>) {
    match a
    case Push(_) => true
    case Pop(w) => w !in q.suspended && w !in q.held && q.handles != []
    case Finish(w) => w in q.held
    case Suspend(_) => true
  }

  function Next<T>(q: Queue<T>, a: Action<T>): Queue<T>
    requires Enabled(q, a)
  {
    match a
    case Push(e) => q.(handles := [e] + q.handles, pushed := q.pushed + [e])
    case Pop(w) =>
      var e := q.handles[|q.handles| - 1];
      q.(handles := q.handles[..|q.handles| - 1], held := q.held[w := e], taken := q.taken + [e])
    case Finish(w) => q.(held := q.held - {w}, finished := q.finished + [q.held[w]])
    case Suspend(w) => q.(suspended := q.suspended + {w})
  }

  predicate Initial<T(==)>(q: Queue<T>) {
    q.handles == [] && q.held == map[] && q.pushed == [] && q.taken == [] && q.finished == []
  }

  ghost predicate IsRun<T>(states: seq<Queue<T>>, actions: seq<Action<T>>) {
    && |states| == |actions| + 1 && Initial(states[0])
    && forall i :: 0 <= i < |actions| ==> Enabled(states[i], actions[i]) && states[i + 1] == Next(states[i], actions[i])
  }

  ghost function Holders<T>(held: map<nat, T>, e: T): set<nat> {
    set w | w in held && held[w] == e
  }

  /** How many busy workers hold entry e. */
  ghost function Holding<T>(held: map<nat, T>, e: T): nat {
    |Holders(held, e)|
  }

  lemma NobodyHolds<T>(held: map<nat, T>, e: T)
    requires held == map[]
    ensures Holding(held, e) == 0
  {
    assert Holders(held, e) == {};
  }

  ghost predicate Fifo<T>(q: Queue<T>) {
    q.pushed == q.taken + Order(q.handles)
  }

  ghost predicate Counted<T>(q: Queue<T>, e: T) {
    multiset(q.taken)[e] == multiset(q.finished)[e] + Holding(q.held, e)
  }

  /** The entries registered in the first n steps. */
  function PushedBy<T>(actions: seq<Action<T>>, n: nat): seq<T>
    requires n <= |actions|
  {
    if n == 0 then [] else PushedBy(actions, n - 1) + if actions[n - 1].Push? then [actions[n - 1].entry] else []
  }

  /**
    In every run, entries leave the queue in the order they entered it, and each
    entry taken is held by a worker or was finished, as often as it was taken:
    suspending a worker drops nothing.
   */
  lemma {:induction false} FirstInFirstOut<T>(states: seq<Queue<T>>, actions: seq<Action<T>>, n: nat, e: T)
    requires IsRun(states, actions) && n < |states|
    ensures Fifo(states[n]) && Counted(states[n], e) && states[n].pushed == PushedBy(actions, n)
  {
    if n == 0 {
      NobodyHolds(states[0].held, e);
    } else {
      FirstInFirstOut(states, actions, n - 1, e);
      assert states[n] == Next(states[n - 1], actions[n - 1]);
      FifoStep(states[n - 1], actions[n - 1]);
      CountedStep(states[n - 1], actions[n - 1], e);
    }
  }

  lemma FifoStep<T>(q: Queue<T>, a: Action<T>)
    requires Enabled(q, a) && Fifo(q)
    ensures Fifo(Next(q, a))
  {
    if a.Push? {
      assert Order([a.entry] + q.handles) == Order(q.handles) + [a.entry];
    } else if a.Pop? {
      OrderLast(q.handles);
    }
  }

  lemma HoldingAdd<T>(held: map<nat, T>, w: nat, x: T, e: T)
    requires w !in held
    ensures Holding(held[w := x], e) == Holding(held, e) + if x == e then 1 else 0
  {
    if x == e {
      assert Holders(held[w := x], e) == Holders(held, e) + {w} && w !in Holders(held, e);
    } else {
      assert Holders(held[w := x], e) == Holders(held, e);
    }
  }

  lemma HoldingRemove<T>(held: map<nat, T>, w: nat, e: T)
    requires w in held
    ensures Holding(held, e) == Holding(held - {w}, e) + if held[w] == e then 1 else 0
  {
    HoldingAdd(held - {w}, w, held[w], e);
    assert (held - {w})[w := held[w]] == held;
  }

  lemma CountedStep<T>(q: Queue<T>, a: Action<T>, e: T)
    requires Enabled(q, a) && Counted(q, e)
    ensures Counted(Next(q, a), e)
  {
    match a
    case Push(_) =>
    case Suspend(_) =>
    case Pop(w) =>
      var x := q.handles[|q.handles| - 1];
      CountAppend(q.taken, x, e);
      HoldingAdd(q.held, w, x, e);
    case Finish(w) =>
      CountAppend(q.finished, q.held[w], e);
      HoldingRemove(q.held, w, e);
  }
}
