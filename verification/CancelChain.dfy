/**
  Awaiting and cancelling. Each future points to the frame that awaits it
  (`waiting`) and each frame to the async function it awaits (`waited`);
  `cancel` follows the latter. The outermost frame of a task runs on after its
  future was dropped, and then records nothing.
 */
module CancelChain {
  import opened Common

  type Id = nat

  // ---------- the objects ----------

  class Future<T> {
    var waiting: Future?<T>
    var waited: Future?<T>
    var cancelled: bool

    /** Each future awaits the next one and the last awaits no async function. */
    static ghost predicate IsChain(chain: seq<Future<T>>)
      reads chain
    {
      && chain != []
      && (forall i :: 0 <= i < |chain| - 1 ==> chain[i].waited == chain[i + 1])
      && chain[|chain| - 1].waited == null
    }

    /** What is left of a chain whose first future awaits another one. */
    static lemma TailOf(chain: seq<Future<T>>)
      requires IsChain(chain)
      ensures chain[0].waited == null <==> |chain| == 1
      ensures |chain| > 1 ==> IsChain(chain[1..]) && chain[1..][0] == chain[0].waited
    {
      if |chain| > 1 {
        var rest := chain[1..];
        assert chain[0].waited == chain[0 + 1];
        forall i | 0 <= i < |rest| - 1 ensures rest[i].waited == rest[i + 1] {
          assert chain[i + 1].waited == chain[(i + 1) + 1];
        }
      }
    }

    method Cancel(ghost chain: seq<Future<T>>)
      requires IsChain(chain) && chain[0] == this
      modifies (set f | f in chain)`cancelled
      ensures forall f :: f in chain ==> f.cancelled
      decreases |chain|
    {
      TailOf(chain);
      cancelled := true;
      if waited != null {
        TailOf(chain);
        waited.Cancel(chain[1..]);
      }
      assert forall f :: f in chain ==> f == this || f in chain[1..];
    }

    static ghost function At(objs: map<Id, Future<T>>, pointers: map<Id, Id>, f: Id): Future?<T> {
      if f in pointers && pointers[f] in objs then objs[pointers[f]] else null
    }

    static ghost predicate Distinct(objs: map<Id, Future<T>>) {
      forall f, g :: f in objs && g in objs && f != g ==> objs[f] != objs[g]
    }

    static ghost predicate WaitingIs(objs: map<Id, Future<T>>, pointers: map<Id, Id>)
      reads objs.Values`waiting
    {
      forall f :: f in objs ==> objs[f].waiting == At(objs, pointers, f)
    }

    static ghost predicate WaitedIs(objs: map<Id, Future<T>>, pointers: map<Id, Id>)
      reads objs.Values`waited
    {
      forall f :: f in objs ==> objs[f].waited == At(objs, pointers, f)
    }

    static ghost predicate FlagsAre(objs: map<Id, Future<T>>, cancelled: set<Id>)
      reads objs.Values`cancelled
    {
      forall f :: f in objs ==> objs[f].cancelled == (f in cancelled)
    }

    /** The objects are those of the system's frames, with the pointers and flags it says. */
    static ghost predicate Mirrors(objs: map<Id, Future<T>>, s: Frames<T>)
      reads objs.Values
    {
      && objs.Keys == s.status.Keys && Distinct(objs)
      && WaitingIs(objs, s.waiting) && WaitedIs(objs, s.waited) && FlagsAre(objs, s.cancelled)
    }

    method SetWaiting(awaiter: Future<T>, ghost objs: map<Id, Future<T>>, ghost pointers: map<Id, Id>, ghost f: Id,
                      ghost g: Id)
      requires f in objs && g in objs && objs[f] == awaiter && objs[g] == this
      requires Distinct(objs) && WaitingIs(objs, pointers)
      modifies this`waiting
      ensures WaitingIs(objs, pointers[g := f])
    {
      waiting := awaiter;
    }

    method SetWaited(callee: Future<T>, ghost objs: map<Id, Future<T>>, ghost pointers: map<Id, Id>, ghost f: Id,
                     ghost g: Id)
      requires f in objs && g in objs && objs[f] == this && objs[g] == callee
      requires Distinct(objs) && WaitedIs(objs, pointers)
      modifies this`waited
      ensures WaitedIs(objs, pointers[f := g])
    {
      waited := callee;
    }

    method ClearWaited(ghost objs: map<Id, Future<T>>, ghost pointers: map<Id, Id>, ghost f: Id)
      requires f in objs && objs[f] == this && Distinct(objs) && WaitedIs(objs, pointers)
      modifies this`waited
      ensures WaitedIs(objs, pointers - {f})
    {
      waited := null;
    }

    /** await_suspend on an async function sets both pointers, only `waiting` if the awaiter's future was dropped. */
    method Await(awaiter: Future<T>, dropped: bool, ghost objs: map<Id, Future<T>>, ghost s: Frames<T>, ghost f: Id,
                 ghost g: Id)
      requires Mirrors(objs, s) && Enabled(s, Step.Await(f, g)) && dropped == (f in s.dropped)
      requires objs[f] == awaiter && objs[g] == this
      modifies this`waiting, awaiter`waited
      ensures Mirrors(objs, Next(s, Step.Await(f, g)))
    {
      SetWaiting(awaiter, objs, s.waiting, f, g);
      if !dropped {
        awaiter.SetWaited(this, objs, s.waited, f, g);
      }
      assert Next(s, Step.Await(f, g)).status.Keys == s.status.Keys;
    }

    /** The end of an awaited frame and its awaiter's await_resume: an exception, a cancellation or the value. */
    method Finish(outcome: Outcome<T>, dropped: bool, ghost objs: map<Id, Future<T>>, ghost s: Frames<T>, ghost g: Id)
      returns (got: Got<T>)
      requires Mirrors(objs, s) && Sound(s) && Enabled(s, Complete(g, outcome)) && objs[g] == this && waiting != null
      requires g in s.waiting && dropped == (s.waiting[g] in s.dropped)
      modifies waiting`waited
      ensures Mirrors(objs, Next(s, Complete(g, outcome)))
      ensures g in Next(s, Complete(g, outcome)).got && Next(s, Complete(g, outcome)).got[g] == got
    {
      AwaiterExists(s, g);
      CompleteFrame(s, g, outcome);
      Forget(dropped, objs, s.waited, s.waiting[g]);
      match outcome
      case Exception(e) => return GotException(e);
      case Value(v) => return if cancelled then GotCancel else GotValue(v);
    }

    /** await_resume first makes the awaiter forget the await, unless its future was dropped. */
    method Forget(dropped: bool, ghost objs: map<Id, Future<T>>, ghost pointers: map<Id, Id>, ghost h: Id)
      requires h in objs && waiting == objs[h] && Distinct(objs) && WaitedIs(objs, pointers)
      modifies waiting`waited
      ensures WaitedIs(objs, if dropped then pointers else pointers - {h})
    {
      if !dropped {
        waiting.ClearWaited(objs, pointers, h);
      }
    }

    static lemma CompleteFrame(s: Frames<T>, g: Id, outcome: Outcome<T>)
      requires Enabled(s, Complete(g, outcome)) && g in s.waiting && s.waiting[g] in s.status
      ensures var t := Next(s, Complete(g, outcome));
        && t.status.Keys == s.status.Keys && t.waiting == s.waiting && t.cancelled == s.cancelled
        && t.waited == (if s.waiting[g] in s.dropped then s.waited else s.waited - {s.waiting[g]})
        && t.got == s.got[g := Resume(outcome, g in s.cancelled)]
    {
    }

    static lemma AwaiterExists(s: Frames<T>, g: Id)
      requires Inverse(s) && Ranked(s) && g in s.waiting && Live(s, g)
      ensures s.waiting[g] in s.status && s.waiting[g] != g
    {
      assert Edge(s, s.waiting[g], g);
      assert s.started[s.waiting[g]] < s.started[g];
    }

    /** `cancel` called on a frame's future: the objects take the system's step. */
    method CancelFrame(ghost objs: map<Id, Future<T>>, ghost s: Frames<T>, ghost f: Id)
      requires Mirrors(objs, s) && Sound(s) && Enabled(s, Step.Cancel(f)) && objs[f] == this
      modifies objs.Values`cancelled
      ensures Mirrors(objs, Next(s, Step.Cancel(f)))
    {
      ghost var ids := CancelReaches(s, f, s.clock);
      ghost var chain := ObjectChain(objs, s, ids);
      CancelFlags(objs, s.cancelled, ids, chain);
    }

    /** The flags a walk sets are those of the walk's frames. */
    method CancelFlags(ghost objs: map<Id, Future<T>>, ghost before: set<Id>, ghost ids: seq<Id>,
                       ghost chain: seq<Future<T>>)
      requires IsChain(chain) && chain[0] == this && Distinct(objs) && FlagsAre(objs, before) && |chain| == |ids|
      requires forall i :: 0 <= i < |ids| ==> ids[i] in objs && chain[i] == objs[ids[i]]
      modifies objs.Values`cancelled
      ensures FlagsAre(objs, before + Members(ids))
    {
      assert forall x :: x in chain ==> x in objs.Values;
      Cancel(chain);
      forall f | f in objs ensures objs[f].cancelled == (f in before || f in ids) {
        if f in ids {
          assert objs[f] in chain;
        }
      }
    }

    /** The objects of a walk over the system's pointers form a chain of pointers. */
    static lemma ObjectChain(objs: map<Id, Future<T>>, s: Frames<T>, ids: seq<Id>) returns (chain: seq<Future<T>>)
      requires objs.Keys == s.status.Keys && WaitedIs(objs, s.waited) && Follows(s, ids)
      ensures |chain| == |ids| && IsChain(chain)
      ensures forall i :: 0 <= i < |ids| ==> ids[i] in objs && chain[i] == objs[ids[i]]
    {
      chain := seq(|ids|, i requires 0 <= i < |ids| => objs[ids[i]]);
      forall i | 0 <= i < |chain| - 1 ensures chain[i].waited == chain[i + 1] {
        assert ids[i + 1] in s.status && s.waited[ids[i]] == ids[i + 1];
      }
    }
  }

  // ---------- frames over time ----------

  datatype Status<T> = Fresh | Running | OnFrame(callee: Id) | OnLeaf | Done(outcome: Outcome<T>)

  /** What an await hands to the frame that was suspended on it. */
  datatype Got<T> = GotValue(value: T) | GotException(error: nat) | GotCancel

  datatype Frames<T> = Frames(
    status: map<Id, Status<T>>,    // what each frame really does
    waiting: map<Id, Id>,          // the pointers the futures hold
    waited: map<Id, Id>,
    cancelled: set<Id>,
    dropped: set<Id>,
    started: map<Id, nat>,         // in what order frames started
    clock: nat,
    got: map<Id, Got<T>>)          // per awaited frame, what its awaiter got

  datatype Step<T> =
    | Create(frame: Id)
    | Spawn(frame: Id)
    | Await(frame: Id, callee: Id)
    | AwaitLeaf(frame: Id)
    | LeafReady(frame: Id)
    | Complete(frame: Id, outcome: Outcome<T>)
    | AwaitDone(frame: Id, callee: Id)
    | Cancel(frame: Id)

  predicate Is<T(==)>(s: Frames<T>, f: Id, status: Status<T>) {
    f in s.status && s.status[f] == status
  }

  predicate Enabled<T(==)>(s: Frames<T>, a: Step<T>) {
    match a
    case Create(f) => f !in s.status
    case Spawn(f) => Is(s, f, Fresh)
    case Await(f, g) => Is(s, f, Running) && Is(s, g, Fresh)
    case AwaitLeaf(f) => Is(s, f, Running)
    case LeafReady(f) => Is(s, f, OnLeaf)
    case Complete(f, _) => Is(s, f, Running)
    case AwaitDone(f, g) => Is(s, f, Running) && g in s.status && s.status[g].Done?
    case Cancel(f) => f in s.status && f !in s.dropped
  }

  function SetWaited<T>(s: Frames<T>, f: Id, g: Id): Frames<T> {
    if f in s.dropped then s else s.(waited := s.waited[f := g])
  }

  function ClearWaited<T>(s: Frames<T>, f: Id): Frames<T> {
    if f in s.dropped then s else s.(waited := s.waited - {f})
  }

  /** await_resume: a stored exception first, then cancellation, then the value. */
  function Resume<T>(outcome: Outcome<T>, cancelled: bool): Got<T> {
    match outcome
    case Exception(e) => GotException(e)
    case Value(v) => if cancelled then GotCancel else GotValue(v)
  }

  /** `cancel` on the pointers it has; `fuel` bounds the walk and is shown never to run out. */
  function Mark<T>(s: Frames<T>, f: Id, fuel: nat): set<Id>
    decreases fuel
  {
    if fuel == 0 || f !in s.waited then {f} else {f} + Mark(s, s.waited[f], fuel - 1)
  }

  function Next<T>(s: Frames<T>, a: Step<T>): Frames<T>
    requires Enabled(s, a)
  {
    match a
    case Create(f) => s.(status := s.status[f := Fresh])
    case Spawn(f) =>
      s.(status := s.status[f := Running], dropped := s.dropped + {f},
        started := s.started[f := s.clock], clock := s.clock + 1)
    case Await(f, g) =>
      SetWaited(s, f, g).(status := s.status[f := OnFrame(g)][g := Running], waiting := s.waiting[g := f],
        started := s.started[g := s.clock], clock := s.clock + 1)
    case AwaitLeaf(f) => ClearWaited(s, f).(status := s.status[f := OnLeaf])
    case LeafReady(f) => ClearWaited(s, f).(status := s.status[f := Running])
    case Complete(g, r) =>
      if g in s.waiting then
        ClearWaited(s, s.waiting[g]).(status := s.status[g := Done(r)][s.waiting[g] := Running],
          got := s.got[g := Resume(r, g in s.cancelled)])
      else s.(status := s.status[g := Done(r)])
    case AwaitDone(f, g) => if g in s.waiting then ClearWaited(s, s.waiting[g]) else s
    case Cancel(f) => s.(cancelled := s.cancelled + Mark(s, f, s.clock))
  }

  function Start<T>(): Frames<T> {
    Frames(map[], map[], map[], {}, {}, map[], 0, map[])
  }

  /**
    A completed future is awaited again, by whatever frame, only while the frame
    that awaited it first is not suspended on an async function.
   */
  predicate Undisturbed<T>(s: Frames<T>, a: Step<T>) {
    a.AwaitDone? && a.callee in s.waiting ==> s.waiting[a.callee] !in s.waited
  }

  /** The step makes f forget the async function it is suspended on. */
  predicate Takes<T>(s: Frames<T>, a: Step<T>, f: Id) {
    a.AwaitDone? && a.callee in s.waiting && s.waiting[a.callee] == f && f in s.waited
  }

  /** Any run at all. */
  ghost predicate IsAnyRun<T>(states: seq<Frames<T>>, steps: seq<Step<T>>) {
    && |states| == |steps| + 1 && states[0] == Start()
    && forall i :: 0 <= i < |steps| ==> Enabled(states[i], steps[i]) && states[i + 1] == Next(states[i], steps[i])
  }

  /** A run up to its n-th step in which no await of a completed future disturbs another frame's pointer. */
  ghost predicate AllUndisturbed<T>(states: seq<Frames<T>>, steps: seq<Step<T>>, n: nat) {
    forall i :: 0 <= i < n && i < |steps| < |states| ==> Undisturbed(states[i], steps[i])
  }

  ghost predicate IsRun<T>(states: seq<Frames<T>>, steps: seq<Step<T>>) {
    IsAnyRun(states, steps) && AllUndisturbed(states, steps, |steps|)
  }

  // ---------- invariant ----------

  /** Frame f is suspended on async function g. */
  predicate Edge<T(==)>(s: Frames<T>, f: Id, g: Id) {
    Is(s, f, OnFrame(g))
  }

  predicate Live<T>(s: Frames<T>, g: Id) {
    g in s.status && !s.status[g].Done? && !s.status[g].Fresh?
  }

  /** `waited` names the async function the frame is really suspended on. */
  ghost predicate Pointing<T>(s: Frames<T>) {
    forall f :: f in s.waited ==> f !in s.dropped && Edge(s, f, s.waited[f])
  }

  /** Every frame suspended on an async function, whose future lives, has its `waited`. */
  ghost predicate Recorded<T>(s: Frames<T>) {
    forall f, g :: Edge(s, f, g) && f !in s.dropped ==> f in s.waited && s.waited[f] == g
  }

  /** `waited` says exactly which async function a frame (whose future lives) is suspended on. */
  ghost predicate Linked<T>(s: Frames<T>) {
    Pointing(s) && Recorded(s)
  }

  /** `waiting` says who awaits a frame, for as long as the await lasts. */
  ghost predicate Inverse<T>(s: Frames<T>) {
    && (forall f, g :: Edge(s, f, g) ==> g in s.waiting && s.waiting[g] == f && Live(s, g))
    && (forall g :: g in s.waiting ==> g !in s.dropped && (Live(s, g) ==> Edge(s, s.waiting[g], g)))
    && (forall g :: g in s.waiting ==> g in s.status && !s.status[g].Fresh?)
  }

  /** Awaits go from earlier started frames to later started ones. */
  ghost predicate Ranked<T>(s: Frames<T>) {
    && (forall f :: f in s.status ==> (s.status[f].Fresh? <==> f !in s.started))
    && (forall f :: f in s.started ==> f in s.status && s.started[f] < s.clock)
    && (forall f, g :: Edge(s, f, g) ==> f in s.started && g in s.started && s.started[f] < s.started[g])
  }

  ghost predicate Settled<T>(s: Frames<T>) {
    && s.dropped <= s.started.Keys
    && (forall g :: g in s.got ==> Yielded(s, g))
  }

  /** What the awaiter of g got: g's exception if it ended with one, else its value, or cancellation if g was marked. */
  predicate Yielded<T(==)>(s: Frames<T>, g: Id) {
    && g in s.got && g in s.status && s.status[g].Done?
    && match s.status[g].outcome
       case Exception(e) => s.got[g] == GotException(e)
       case Value(v) => s.got[g] == GotValue(v) || (s.got[g] == GotCancel && g in s.cancelled)
  }

  /** What every step keeps. */
  ghost predicate Sound<T>(s: Frames<T>) {
    Pointing(s) && Inverse(s) && Ranked(s) && Settled(s)
  }

  /** What every undisturbed step keeps besides. */
  ghost predicate Inv<T>(s: Frames<T>) {
    Sound(s) && Recorded(s)
  }

  /** How a step changes who is suspended on whom. */
  lemma EdgesAfter<T>(s: Frames<T>, a: Step<T>, f: Id, g: Id)
    requires Inverse(s) && Enabled(s, a)
    ensures Edge(Next(s, a), f, g) <==>
      match a
      case Await(f0, g0) => Edge(s, f, g) || (f == f0 && g == g0)
      case Complete(g0, _) => Edge(s, f, g) && g != g0
      case _ => Edge(s, f, g)
  {
    if a.Complete? {
      EdgesAfterComplete(s, a.frame, a.outcome, f, g);
    }
  }

  lemma EdgesAfterComplete<T>(s: Frames<T>, g0: Id, r: Outcome<T>, f: Id, g: Id)
    requires Inverse(s) && Is(s, g0, Running)
    ensures Edge(Next(s, Complete(g0, r)), f, g) <==> Edge(s, f, g) && g != g0
  {
    var t := Next(s, Complete(g0, r));
    assert Live(s, g0);
    if g0 in s.waiting {
      assert Edge(s, s.waiting[g0], g0);
      if f == s.waiting[g0] {
        assert t.status[f] == Running;
        assert s.status[f] == OnFrame(g0);
      }
    }
    if Edge(s, f, g) {
      assert g in s.waiting && s.waiting[g] == f;
    }
  }

  /** How a step changes `waited`: an await records the callee, the end of an await of the callee forgets it. */
  lemma WaitedAfter<T>(s: Frames<T>, a: Step<T>)
    requires Pointing(s) && Enabled(s, a)
    ensures Next(s, a).waited ==
      match a
      case Await(f, g) => if f in s.dropped then s.waited else s.waited[f := g]
      case Complete(g, _) =>
        if g in s.waiting && s.waiting[g] !in s.dropped then s.waited - {s.waiting[g]} else s.waited
      case AwaitDone(_, g) =>
        if g in s.waiting && s.waiting[g] !in s.dropped then s.waited - {s.waiting[g]} else s.waited
      case _ => s.waited
  {
    if !a.Create? && !a.Spawn? && a.frame in s.waited {
      assert Edge(s, a.frame, s.waited[a.frame]);
    }
    assert a.AwaitLeaf? || a.LeafReady? ==> s.waited - {a.frame} == s.waited;
  }

  lemma PointingFrame<T>(s: Frames<T>, a: Step<T>, f: Id)
    requires Pointing(s) && Inverse(s) && Enabled(s, a) && f in Next(s, a).waited
    ensures f !in Next(s, a).dropped && Edge(Next(s, a), f, Next(s, a).waited[f])
  {
    WaitedAfter(s, a);
    var g := Next(s, a).waited[f];
    EdgesAfter(s, a, f, g);
    if f in s.waited {
      assert Edge(s, f, s.waited[f]);
    }
  }

  lemma PointingStep<T>(s: Frames<T>, a: Step<T>)
    requires Pointing(s) && Inverse(s) && Enabled(s, a)
    ensures Pointing(Next(s, a))
  {
    var t := Next(s, a);
    forall f | f in t.waited ensures f !in t.dropped && Edge(t, f, t.waited[f]) {
      PointingFrame(s, a, f);
    }
  }

  /** A suspended frame keeps its pointer over a step, unless an await of a completed future takes it. */
  lemma RecordedEdge<T>(s: Frames<T>, a: Step<T>, f: Id, g: Id)
    requires Pointing(s) && Inverse(s) && Enabled(s, a) && f !in Next(s, a).dropped && Edge(Next(s, a), f, g)
    ensures f in Next(s, a).waited <==>
      a == Await(f, g) || (Edge(s, f, g) && f in s.waited && !Takes(s, a, f))
    ensures a != Await(f, g) ==> Edge(s, f, g)
    ensures f in Next(s, a).waited ==> Next(s, a).waited[f] == g
  {
    WaitedAfter(s, a);
    EdgesAfter(s, a, f, g);
    if f in s.waited {
      assert Edge(s, f, s.waited[f]);
    }
  }

  lemma RecordedStep<T>(s: Frames<T>, a: Step<T>)
    requires Inv(s) && Enabled(s, a) && Undisturbed(s, a)
    ensures Recorded(Next(s, a))
  {
    var t := Next(s, a);
    forall f, g | Edge(t, f, g) && f !in t.dropped ensures f in t.waited && t.waited[f] == g {
      RecordedEdge(s, a, f, g);
    }
  }

  lemma InverseEdge<T>(s: Frames<T>, a: Step<T>, f: Id, g: Id)
    requires Inverse(s) && Enabled(s, a) && Edge(Next(s, a), f, g)
    ensures g in Next(s, a).waiting && Next(s, a).waiting[g] == f && Live(Next(s, a), g)
  {
    EdgesAfter(s, a, f, g);
  }

  lemma InverseShape<T>(s: Frames<T>, a: Step<T>, g: Id)
    requires Inverse(s) && Enabled(s, a) && g in Next(s, a).waiting
    requires s.dropped <= s.status.Keys && forall f :: f in s.dropped ==> !s.status[f].Fresh?
    ensures g !in Next(s, a).dropped && g in Next(s, a).status && !Next(s, a).status[g].Fresh?
  {
    assert g in s.waiting || a == Await(Next(s, a).waiting[g], g);
  }

  lemma InverseLive<T>(s: Frames<T>, a: Step<T>, g: Id)
    requires Inverse(s) && Enabled(s, a) && g in Next(s, a).waiting && Live(Next(s, a), g)
    ensures Edge(Next(s, a), Next(s, a).waiting[g], g)
  {
    EdgesAfter(s, a, Next(s, a).waiting[g], g);
    if g in s.waiting {
      assert Live(s, g);
    }
  }

  lemma InverseStep<T>(s: Frames<T>, a: Step<T>)
    requires Sound(s) && Enabled(s, a)
    ensures Inverse(Next(s, a))
  {
    var t := Next(s, a);
    assert s.dropped <= s.status.Keys && forall f :: f in s.dropped ==> !s.status[f].Fresh?;
    forall f, g | Edge(t, f, g) ensures g in t.waiting && t.waiting[g] == f && Live(t, g) {
      InverseEdge(s, a, f, g);
    }
    forall g | g in t.waiting
      ensures g !in t.dropped && g in t.status && !t.status[g].Fresh? && (Live(t, g) ==> Edge(t, t.waiting[g], g))
    {
      InverseShape(s, a, g);
      if Live(t, g) {
        InverseLive(s, a, g);
      }
    }
  }

  lemma RankedEdge<T>(s: Frames<T>, a: Step<T>, f: Id, g: Id)
    requires Inverse(s) && Ranked(s) && Enabled(s, a) && Edge(Next(s, a), f, g)
    ensures var t := Next(s, a);
      f in t.started && g in t.started && t.started[f] < t.started[g]
  {
    EdgesAfter(s, a, f, g);
  }

  lemma RankedFrame<T>(s: Frames<T>, a: Step<T>, f: Id)
    requires Inverse(s) && Ranked(s) && Enabled(s, a)
    ensures var t := Next(s, a);
      && (f in t.status ==> (t.status[f].Fresh? <==> f !in t.started))
      && (f in t.started ==> f in t.status && t.started[f] < t.clock)
  {
    if a.Complete? && a.frame in s.waiting {
      assert Live(s, a.frame);
      assert Edge(s, s.waiting[a.frame], a.frame);
    }
  }

  lemma RankedStep<T>(s: Frames<T>, a: Step<T>)
    requires Inverse(s) && Ranked(s) && Enabled(s, a)
    ensures Ranked(Next(s, a))
  {
    var t := Next(s, a);
    forall f ensures (f in t.status ==> (t.status[f].Fresh? <==> f !in t.started))
      && (f in t.started ==> f in t.status && t.started[f] < t.clock)
    {
      RankedFrame(s, a, f);
    }
    forall f, g | Edge(t, f, g) ensures f in t.started && g in t.started && t.started[f] < t.started[g] {
      RankedEdge(s, a, f, g);
    }
  }

  lemma SettledFrame<T>(s: Frames<T>, a: Step<T>, g: Id)
    requires Inverse(s) && Settled(s) && Enabled(s, a) && g in Next(s, a).got
    ensures Yielded(Next(s, a), g)
  {
    if a.Complete? && a.frame in s.waiting {
      assert Live(s, a.frame);
      assert Edge(s, s.waiting[a.frame], a.frame);
    }
  }

  lemma SettledStep<T>(s: Frames<T>, a: Step<T>)
    requires Inverse(s) && Settled(s) && Enabled(s, a)
    ensures Settled(Next(s, a))
  {
    var t := Next(s, a);
    forall g | g in t.got ensures Yielded(t, g) {
      SettledFrame(s, a, g);
    }
  }

  lemma StepKeeps<T>(s: Frames<T>, a: Step<T>)
    requires Sound(s) && Enabled(s, a)
    ensures Sound(Next(s, a))
  {
    PointingStep(s, a);
    InverseStep(s, a);
    RankedStep(s, a);
    SettledStep(s, a);
  }

  /** In any run at all. */
  lemma {:induction false} AnyRunKeeps<T>(states: seq<Frames<T>>, steps: seq<Step<T>>, n: nat)
    requires IsAnyRun(states, steps) && n < |states|
    ensures Sound(states[n])
  {
    if n != 0 {
      AnyRunKeeps(states, steps, n - 1);
      StepKeeps(states[n - 1], steps[n - 1]);
    }
  }

  lemma {:induction false} PrefixKeeps<T>(states: seq<Frames<T>>, steps: seq<Step<T>>, n: nat)
    requires IsAnyRun(states, steps) && n < |states| && AllUndisturbed(states, steps, n)
    ensures Inv(states[n])
  {
    AnyRunKeeps(states, steps, n);
    if n != 0 {
      PrefixKeeps(states, steps, n - 1);
      assert Undisturbed(states[n - 1], steps[n - 1]);
      RecordedStep(states[n - 1], steps[n - 1]);
    }
  }

  lemma RunKeeps<T>(states: seq<Frames<T>>, steps: seq<Step<T>>, n: nat)
    requires IsRun(states, steps) && n < |states|
    ensures Inv(states[n])
  {
    PrefixKeeps(states, steps, n);
  }

  /** In any run at all an await hands on the awaited frame's exception, or its value unless that frame was cancelled. */
  lemma AwaitYields<T>(states: seq<Frames<T>>, steps: seq<Step<T>>, n: nat, g: Id)
    requires IsAnyRun(states, steps) && n < |states|
    ensures g in states[n].got ==> Yielded(states[n], g)
  {
    AnyRunKeeps(states, steps, n);
  }

  // ---------- what the frames did ----------

  predicate Awaits<T>(s: Frames<T>, f: Id, g: Id) {
    g in s.waiting && s.waiting[g] == f
  }

  /** How a step changes what is recorded about frames f and g. */
  predicate Records<T(==)>(s: Frames<T>, a: Step<T>, t: Frames<T>, f: Id, g: Id, r: Outcome<T>) {
    && (Is(t, g, Done(r)) <==> Is(s, g, Done(r)) || a == Complete(g, r))
    && (Awaits(t, f, g) <==> Awaits(s, f, g) || a == Await(f, g))
    && (f in t.dropped <==> f in s.dropped || a == Spawn(f))
    && (!a.Cancel? ==> t.cancelled == s.cancelled)
  }

  lemma RecordsStep<T>(s: Frames<T>, a: Step<T>, f: Id, g: Id, r: Outcome<T>)
    requires Inverse(s) && Enabled(s, a)
    ensures Records(s, a, Next(s, a), f, g, r)
  {
    DoneStep(s, a, g, r);
  }

  lemma DoneStep<T>(s: Frames<T>, a: Step<T>, g: Id, r: Outcome<T>)
    requires Inverse(s) && Enabled(s, a)
    ensures Is(Next(s, a), g, Done(r)) <==> Is(s, g, Done(r)) || a == Complete(g, r)
  {
    if a.Complete? && a.frame in s.waiting {
      assert Live(s, a.frame);
      assert Edge(s, s.waiting[a.frame], a.frame);
    }
  }

  /** What a step means for frame f: when it runs, waits for a leaf, or has not started. */
  predicate Moves<T(==)>(s: Frames<T>, a: Step<T>, t: Frames<T>, f: Id) {
    && (Is(t, f, Running) <==>
          || a == Spawn(f) || (a.Await? && a.callee == f) || a == LeafReady(f)
          || (a.Complete? && Awaits(s, f, a.frame))
          || (Is(s, f, Running) && !((a.Await? || a.AwaitLeaf? || a.Complete?) && a.frame == f)))
    && (Is(t, f, OnLeaf) <==> a == AwaitLeaf(f) || (Is(s, f, OnLeaf) && a != LeafReady(f)))
    && (Is(t, f, Fresh) <==> a == Create(f) || (Is(s, f, Fresh) && a != Spawn(f) && !(a.Await? && a.callee == f)))
  }

  /** In any run every frame moves so: an await suspends its frame until the callee completes, a leaf until it is ready. */
  lemma FramesMove<T>(states: seq<Frames<T>>, steps: seq<Step<T>>, n: nat, f: Id)
    requires IsAnyRun(states, steps) && n < |steps|
    ensures Moves(states[n], steps[n], states[n + 1], f)
  {
    AnyRunKeeps(states, steps, n);
    MovesStep(states[n], steps[n], f);
  }

  lemma MovesStep<T>(s: Frames<T>, a: Step<T>, f: Id)
    requires Inverse(s) && Enabled(s, a)
    ensures Moves(s, a, Next(s, a), f)
  {
    if a.Complete? && a.frame in s.waiting {
      assert Live(s, a.frame);
      assert Edge(s, s.waiting[a.frame], a.frame);
    }
  }

  ghost predicate Happened<T>(steps: seq<Step<T>>, n: nat, a: Step<T>) {
    exists k :: 0 <= k < n && k < |steps| && steps[k] == a
  }

  lemma HappenedStep<T>(steps: seq<Step<T>>, n: nat, a: Step<T>)
    requires 0 < n <= |steps|
    ensures Happened(steps, n, a) <==> Happened(steps, n - 1, a) || steps[n - 1] == a
  {
  }

  lemma {:induction false} RecordsAll<T>(states: seq<Frames<T>>, steps: seq<Step<T>>, n: nat, f: Id, g: Id, r: Outcome<T>)
    requires |states| == |steps| + 1 && n <= |steps| && states[0] == Start()
    requires forall i :: 0 <= i < n ==> Records(states[i], steps[i], states[i + 1], f, g, r)
    ensures Is(states[n], g, Done(r)) <==> Happened(steps, n, Complete(g, r))
    ensures Awaits(states[n], f, g) <==> Happened(steps, n, Await(f, g))
    ensures f in states[n].dropped <==> Happened(steps, n, Spawn(f))
  {
    if n != 0 {
      RecordsAll(states, steps, n - 1, f, g, r);
      assert Records(states[n - 1], steps[n - 1], states[(n - 1) + 1], f, g, r);
      HappenedStep(steps, n, Complete(g, r));
      HappenedStep(steps, n, Await(f, g));
      HappenedStep(steps, n, Spawn(f));
    }
  }

  /**
    In any run a frame is done with an outcome if and only if it completed with it,
    a frame is recorded as another's awaiter if and only if it awaited it, and a
    future was dropped if and only if it was spawned.
   */
  lemma History<T>(states: seq<Frames<T>>, steps: seq<Step<T>>, n: nat, f: Id, g: Id, r: Outcome<T>)
    requires IsAnyRun(states, steps) && n < |states|
    ensures Is(states[n], g, Done(r)) <==> Happened(steps, n, Complete(g, r))
    ensures Awaits(states[n], f, g) <==> Happened(steps, n, Await(f, g))
    ensures f in states[n].dropped <==> Happened(steps, n, Spawn(f))
  {
    forall i | 0 <= i < n ensures Records(states[i], steps[i], states[i + 1], f, g, r) {
      AnyRunKeeps(states, steps, i);
      RecordsStep(states[i], steps[i], f, g, r);
    }
    RecordsAll(states, steps, n, f, g, r);
  }

  /** From its completion with r on, frame g is done and its awaiter has got this, if it had one. */
  predicate Answered<T(==)>(s: Frames<T>, g: Id, r: Outcome<T>, awaited: bool, cancelled: bool) {
    && Is(s, g, Done(r)) && (g in s.got <==> awaited)
    && (awaited ==>
          s.got[g] == match r {
            case Exception(e) => GotException(e)
            case Value(v) => if cancelled then GotCancel else GotValue(v)
          })
  }

  predicate AnswerKept<T(==)>(s: Frames<T>, t: Frames<T>, g: Id, r: Outcome<T>, awaited: bool, cancelled: bool) {
    Answered(s, g, r, awaited, cancelled) ==> Answered(t, g, r, awaited, cancelled)
  }

  lemma AnsweredStep<T>(s: Frames<T>, a: Step<T>, g: Id, r: Outcome<T>, awaited: bool, cancelled: bool)
    requires Inverse(s) && Enabled(s, a)
    ensures AnswerKept(s, Next(s, a), g, r, awaited, cancelled)
  {
    DoneStep(s, a, g, r);
  }

  lemma AnsweredFirst<T>(s: Frames<T>, g: Id, r: Outcome<T>)
    requires Inverse(s) && Settled(s) && Enabled(s, Complete(g, r))
    ensures Answered(Next(s, Complete(g, r)), g, r, g in s.waiting, g in s.cancelled)
  {
    DoneStep(s, Complete(g, r), g, r);
    assert g in s.got ==> Yielded(s, g);
  }

  lemma {:induction false} AnsweredLater<T>(states: seq<Frames<T>>, k: nat, m: nat, g: Id, r: Outcome<T>, awaited: bool,
                                            cancelled: bool)
    requires k <= m < |states| && Answered(states[k], g, r, awaited, cancelled)
    requires forall i :: k <= i < m ==> AnswerKept(states[i], states[i + 1], g, r, awaited, cancelled)
    ensures Answered(states[m], g, r, awaited, cancelled)
  {
    if k < m {
      AnsweredLater(states, k, m - 1, g, r, awaited, cancelled);
      assert AnswerKept(states[m - 1], states[(m - 1) + 1], g, r, awaited, cancelled);
    }
  }

  /**
    In any run the awaiter of a frame gets exactly this when the frame completes, and
    for good: its exception, cancellation if the frame was marked by then, its value
    otherwise; nothing is handed on if nobody awaited it.
   */
  lemma AwaitAnswers<T>(states: seq<Frames<T>>, steps: seq<Step<T>>, k: nat, m: nat, g: Id, r: Outcome<T>)
    requires IsAnyRun(states, steps) && k < m < |states| && steps[k] == Complete(g, r)
    ensures Answered(states[m], g, r, g in states[k].waiting, g in states[k].cancelled)
  {
    var awaited, cancelled := g in states[k].waiting, g in states[k].cancelled;
    AnyRunKeeps(states, steps, k);
    AnsweredFirst(states[k], g, r);
    forall i | k + 1 <= i < m ensures AnswerKept(states[i], states[i + 1], g, r, awaited, cancelled) {
      AnyRunKeeps(states, steps, i);
      AnsweredStep(states[i], steps[i], g, r, awaited, cancelled);
    }
    AnsweredLater(states, k + 1, m, g, r, awaited, cancelled);
  }

  // ---------- what cancelling reaches ----------

  /** Frames suspended one on the next, down to one that is suspended on no async function. */
  ghost predicate Suspended<T>(s: Frames<T>, chain: seq<Id>) {
    && chain != []
    && (forall i :: 0 < i < |chain| ==> Edge(s, chain[i - 1], chain[i]))
    && Innermost(s, chain[|chain| - 1])
  }

  predicate Innermost<T>(s: Frames<T>, f: Id) {
    f in s.status && !s.status[f].OnFrame?
  }

  function Members(q: seq<Id>): set<Id> {
    set x | x in q
  }

  /** Frames each of whose `waited` is the next, up to one that has none. */
  ghost predicate Follows<T>(s: Frames<T>, walk: seq<Id>) {
    && walk != [] && walk[|walk| - 1] !in s.waited
    && (forall i :: 0 <= i < |walk| ==> walk[i] in s.status)
    && (forall i :: 0 <= i < |walk| - 1 ==> walk[i] in s.waited && s.waited[walk[i]] == walk[i + 1])
  }

  lemma Prepend<T>(s: Frames<T>, f: Id, rest: seq<Id>)
    requires Follows(s, rest) && f in s.status && f in s.waited && s.waited[f] == rest[0]
    ensures Follows(s, [f] + rest)
    ensures Members([f] + rest) == {f} + Members(rest)
  {
    var walk := [f] + rest;
    forall i | 0 <= i < |walk| - 1 ensures walk[i] in s.waited && s.waited[walk[i]] == walk[i + 1] {
      assert i > 0 ==> walk[i] == rest[i - 1] && rest[i - 1] in s.waited && s.waited[rest[i - 1]] == rest[i];
    }
    assert walk[|walk| - 1] == rest[|rest| - 1];
  }

  /** A pointer leads to a frame that started later. */
  predicate Rises<T>(s: Frames<T>, f: Id) {
    f in s.waited ==>
      var g := s.waited[f];
      g in s.status && f in s.started && g in s.started && s.started[f] < s.started[g] < s.clock
  }

  lemma PointsLater<T>(s: Frames<T>, f: Id)
    requires Sound(s)
    ensures Rises(s, f)
  {
    if f in s.waited {
      assert Edge(s, f, s.waited[f]);
    }
  }

  lemma {:induction false} WalkEnds<T>(s: Frames<T>, f: Id, fuel: nat) returns (walk: seq<Id>)
    requires (forall h :: Rises(s, h)) && f in s.status && (f in s.started ==> s.clock - s.started[f] <= fuel)
    ensures Follows(s, walk) && walk[0] == f && |walk| <= fuel + 1
    ensures Mark(s, f, fuel) == Members(walk)
    decreases fuel
  {
    walk := [f];
    if f in s.waited {
      assert Rises(s, f);
      var rest := WalkEnds(s, s.waited[f], fuel - 1);
      Prepend(s, f, rest);
      walk := [f] + rest;
    }
  }

  /**
    `cancel` terminates in any state of any run: its walk ends at a frame without a
    pointer, well within the bound, and it marks exactly the frames of the walk.
   */
  lemma CancelReaches<T>(s: Frames<T>, f: Id, fuel: nat) returns (walk: seq<Id>)
    requires Sound(s) && f in s.status && (f in s.started ==> s.clock - s.started[f] <= fuel)
    ensures Follows(s, walk) && walk[0] == f && |walk| <= fuel + 1
    ensures Mark(s, f, fuel) == Members(walk)
  {
    forall h ensures Rises(s, h) {
      PointsLater(s, h);
    }
    walk := WalkEnds(s, f, fuel);
  }

  /** Every frame heads one chain of suspended frames, down to the innermost. */
  lemma {:induction false} ChainExists<T>(s: Frames<T>, f: Id) returns (chain: seq<Id>)
    requires Inverse(s) && Ranked(s) && f in s.status
    ensures Suspended(s, chain) && chain[0] == f
    decreases if f in s.started then s.clock - s.started[f] else 0
  {
    chain := [f];
    if s.status[f].OnFrame? {
      var g := s.status[f].callee;
      assert Edge(s, f, g);
      assert Live(s, g);
      var rest := ChainExists(s, g);
      chain := [f] + rest;
      forall i | 0 < i < |chain| ensures Edge(s, chain[i - 1], chain[i]) {
        assert i > 1 ==> Edge(s, rest[(i - 1) - 1], rest[i - 1]);
      }
    }
  }

  /** A chain of awaits never comes back to a frame: it could not be walked forever. */
  lemma {:induction false} ChainAcyclic<T>(s: Frames<T>, chain: seq<Id>, i: nat, j: nat)
    requires Ranked(s) && Suspended(s, chain) && i < j < |chain|
    ensures chain[i] in s.started && chain[j] in s.started && s.started[chain[i]] < s.started[chain[j]]
    decreases j
  {
    assert Edge(s, chain[j - 1], chain[j]);
    if i + 1 < j {
      ChainAcyclic(s, chain, i, j - 1);
    }
  }

  /** The walk goes along the chain. */
  lemma {:induction false} WalkIsPrefix<T>(s: Frames<T>, walk: seq<Id>, chain: seq<Id>, k: nat)
    requires Pointing(s) && Follows(s, walk) && Suspended(s, chain) && walk[0] == chain[0] && 0 < k <= |walk|
    ensures k <= |chain| && walk[..k] == chain[..k]
  {
    if k == 1 {
      assert walk[..1] == [walk[0]] && chain[..1] == [chain[0]];
    } else {
      WalkIsPrefix(s, walk, chain, k - 1);
      var f := walk[k - 2];
      assert walk[..k - 1][k - 2] == chain[..k - 1][k - 2];
      assert f in s.waited && s.waited[f] == walk[(k - 2) + 1];
      assert Edge(s, f, walk[k - 1]);
      assert k - 1 < |chain|;
      assert Edge(s, chain[(k - 1) - 1], chain[k - 1]);
      assert walk[..k] == walk[..k - 1] + [walk[k - 1]] && chain[..k] == chain[..k - 1] + [chain[k - 1]];
    }
  }

  /** Each frame of the chain above the innermost still has its pointer. */
  ghost predicate Intact<T>(s: Frames<T>, chain: seq<Id>) {
    forall i :: 0 <= i < |chain| - 1 ==> chain[i] in s.waited
  }

  /** It is the whole chain if and only if it ends at the innermost frame; and if and only if no pointer is missing. */
  lemma WholeChain<T>(s: Frames<T>, walk: seq<Id>, chain: seq<Id>)
    requires Sound(s) && Follows(s, walk) && Suspended(s, chain) && walk[0] == chain[0]
    ensures |walk| <= |chain| && walk == chain[..|walk|]
    ensures |walk| == |chain| <==> Innermost(s, walk[|walk| - 1])
    ensures |walk| == |chain| <==> Intact(s, chain)
  {
    WalkIsPrefix(s, walk, chain, |walk|);
    assert walk[..|walk|] == walk;
    var last := walk[|walk| - 1];
    assert last == chain[|walk| - 1] && last !in s.waited;
    if |walk| < |chain| {
      assert Edge(s, chain[|walk| - 1], chain[|walk|]);
    } else {
      forall i | 0 <= i < |chain| - 1 ensures chain[i] in s.waited {
        assert walk[i] == chain[i];
      }
    }
  }

  /** A proper prefix of the chain is a proper part of it. */
  lemma PrefixMarks<T>(s: Frames<T>, chain: seq<Id>, k: nat)
    requires Ranked(s) && Suspended(s, chain) && k <= |chain|
    ensures Members(chain[..k]) == Members(chain) <==> k == |chain|
  {
    assert chain[..|chain|] == chain;
    if k < |chain| {
      var last := chain[k];
      forall i | 0 <= i < k ensures chain[..k][i] != last {
        ChainAcyclic(s, chain, i, k);
      }
      assert last in Members(chain) && last !in Members(chain[..k]);
    }
  }

  /** Live awaits: both pointers or neither, except that a dropped future records none. */
  lemma PointersAgree<T>(states: seq<Frames<T>>, steps: seq<Step<T>>, n: nat, f: Id, g: Id)
    requires IsRun(states, steps) && n < |states| && f !in states[n].dropped
    ensures f in states[n].waited && states[n].waited[f] == g
       <==> g in states[n].waiting && states[n].waiting[g] == f && Live(states[n], g)
  {
    RunKeeps(states, steps, n);
    var s := states[n];
    if f in s.waited && s.waited[f] == g {
      assert Edge(s, f, g);
    }
    if g in s.waiting && s.waiting[g] == f && Live(s, g) {
      assert Edge(s, f, g);
    }
  }

  /**
    In any run at all a cancel marks the frames of its walk, the first ones of the
    chain from its target to the innermost async function. It marks the whole chain
    if and only if every frame above the innermost still has its pointer.
   */
  lemma CancelMarks<T>(states: seq<Frames<T>>, steps: seq<Step<T>>, n: nat) returns (walk: seq<Id>, chain: seq<Id>)
    requires IsAnyRun(states, steps) && n < |steps| && steps[n].Cancel?
    ensures Suspended(states[n], chain) && chain[0] == steps[n].frame
    ensures Follows(states[n], walk) && |walk| <= |chain| && walk == chain[..|walk|]
    ensures states[n + 1].cancelled == states[n].cancelled + Members(walk)
    ensures Members(walk) == Members(chain) <==> Intact(states[n], chain)
    ensures Intact(states[n], chain) <==> Innermost(states[n], walk[|walk| - 1])
  {
    AnyRunKeeps(states, steps, n);
    var s, f := states[n], steps[n].frame;
    walk := CancelReaches(s, f, s.clock);
    chain := ChainExists(s, f);
    WholeChain(s, walk, chain);
    PrefixMarks(s, chain, |walk|);
    assert states[n + 1] == Next(s, steps[n]);
  }

  /** From state k to state n frame f is suspended on g. */
  ghost predicate Stays<T>(states: seq<Frames<T>>, k: nat, n: nat, f: Id, g: Id) {
    forall i :: k <= i <= n && i < |states| ==> Edge(states[i], f, g)
  }

  /** Some await of a completed future took f's pointer while f was suspended on g, as it still is in state n. */
  ghost predicate Taken<T>(states: seq<Frames<T>>, steps: seq<Step<T>>, n: nat, f: Id, g: Id) {
    exists k: nat :: k < n && TakenAt(states, steps, k, f) && Stays(states, k, n, f, g)
  }

  predicate TakenAt<T>(states: seq<Frames<T>>, steps: seq<Step<T>>, k: nat, f: Id) {
    k < |steps| && k < |states| && Takes(states[k], steps[k], f)
  }

  lemma TakenStep<T>(states: seq<Frames<T>>, steps: seq<Step<T>>, n: nat, f: Id, g: Id)
    requires 0 < n < |states| && Edge(states[n], f, g)
    ensures Taken(states, steps, n, f, g) <==>
      Edge(states[n - 1], f, g) && (Taken(states, steps, n - 1, f, g) || TakenAt(states, steps, n - 1, f))
  {
    if Taken(states, steps, n - 1, f, g) {
      var k: nat :| k < n - 1 && TakenAt(states, steps, k, f) && Stays(states, k, n - 1, f, g);
      assert Stays(states, k, n, f, g);
    }
    if TakenAt(states, steps, n - 1, f) && Edge(states[n - 1], f, g) {
      assert Stays(states, n - 1, n, f, g);
    }
    if Taken(states, steps, n, f, g) {
      var k: nat :| k < n && TakenAt(states, steps, k, f) && Stays(states, k, n, f, g);
      assert Stays(states, k, n - 1, f, g);
    }
  }

  /** State n lacks the pointer if and only if the state before lacked it, or it was taken just then. */
  predicate PointerLaw<T(==)>(states: seq<Frames<T>>, steps: seq<Step<T>>, n: nat, f: Id, g: Id)
    requires 0 < n < |states|
  {
    Edge(states[n], f, g) && f !in states[n].dropped ==>
      && f !in states[n - 1].dropped
      && (f !in states[n].waited <==>
            Edge(states[n - 1], f, g) && (f !in states[n - 1].waited || TakenAt(states, steps, n - 1, f)))
  }

  lemma PointerStep<T>(states: seq<Frames<T>>, steps: seq<Step<T>>, n: nat, f: Id, g: Id)
    requires IsAnyRun(states, steps) && 0 < n < |states|
    ensures PointerLaw(states, steps, n, f, g)
  {
    if Edge(states[n], f, g) && f !in states[n].dropped {
      AnyRunKeeps(states, steps, n - 1);
      assert states[n] == Next(states[n - 1], steps[n - 1]);
      RecordedEdge(states[n - 1], steps[n - 1], f, g);
    }
  }

  /** The same, going back step by step. */
  predicate Robbed<T(==)>(states: seq<Frames<T>>, steps: seq<Step<T>>, n: nat, f: Id, g: Id)
    requires n < |states|
  {
    n > 0 && Edge(states[n - 1], f, g) && (Robbed(states, steps, n - 1, f, g) || TakenAt(states, steps, n - 1, f))
  }

  lemma {:induction false} RobbedIsTaken<T>(states: seq<Frames<T>>, steps: seq<Step<T>>, n: nat, f: Id, g: Id)
    requires n < |states| && Edge(states[n], f, g)
    ensures Robbed(states, steps, n, f, g) <==> Taken(states, steps, n, f, g)
  {
    if n != 0 {
      TakenStep(states, steps, n, f, g);
      if Edge(states[n - 1], f, g) {
        RobbedIsTaken(states, steps, n - 1, f, g);
      }
    }
  }

  lemma {:induction false} PointerRobbed<T>(states: seq<Frames<T>>, steps: seq<Step<T>>, n: nat, f: Id, g: Id)
    requires n < |states| && states[0] == Start() && forall i :: 0 < i <= n ==> PointerLaw(states, steps, i, f, g)
    requires Edge(states[n], f, g) && f !in states[n].dropped
    ensures f !in states[n].waited <==> Robbed(states, steps, n, f, g)
  {
    if n != 0 {
      assert PointerLaw(states, steps, n, f, g);
      if Edge(states[n - 1], f, g) {
        PointerRobbed(states, steps, n - 1, f, g);
      }
    }
  }

  /** When a suspended frame lacks its pointer: if and only if it was taken during this very await. */
  lemma PointerMissing<T>(states: seq<Frames<T>>, steps: seq<Step<T>>, n: nat, f: Id, g: Id)
    requires IsAnyRun(states, steps) && n < |states| && Edge(states[n], f, g) && f !in states[n].dropped
    ensures f !in states[n].waited <==> Taken(states, steps, n, f, g)
  {
    forall i | 0 < i <= n ensures PointerLaw(states, steps, i, f, g) {
      PointerStep(states, steps, i, f, g);
    }
    PointerRobbed(states, steps, n, f, g);
    RobbedIsTaken(states, steps, n, f, g);
  }

  /** Frame g is marked and was awaited by f; if it completed, f did not get a value. */
  predicate Doomed<T>(s: Frames<T>, f: Id, g: Id) {
    && g in s.cancelled && g in s.status && !s.status[g].Fresh?
    && g in s.waiting && s.waiting[g] == f && (g in s.got ==> !s.got[g].GotValue?)
  }

  lemma StaysDoomed<T>(s: Frames<T>, a: Step<T>, f: Id, g: Id)
    requires Enabled(s, a) && Doomed(s, f, g)
    ensures Doomed(Next(s, a), f, g)
  {
  }

  /** Whoever is suspended on a marked frame gets an exception from that await, never a value. */
  lemma {:induction false} NoValueAfterCancel<T>(states: seq<Frames<T>>, steps: seq<Step<T>>, k: nat, m: nat, f: Id, g: Id)
    requires IsAnyRun(states, steps) && k <= m < |states| && g in states[k].cancelled && Edge(states[k], f, g)
    ensures Doomed(states[m], f, g)
    decreases m
  {
    if k == m {
      AnyRunKeeps(states, steps, k);
    } else {
      NoValueAfterCancel(states, steps, k, m - 1, f, g);
      StaysDoomed(states[m - 1], steps[m - 1], f, g);
    }
  }

  /**
    So in any run, after a cancel, every frame of the chain gets an exception from
    the await it was suspended on, down to the first frame without a pointer.
   */
  lemma CancelThrows<T>(states: seq<Frames<T>>, steps: seq<Step<T>>, n: nat, m: nat, chain: seq<Id>, i: nat)
    requires IsAnyRun(states, steps) && n < |steps| && steps[n].Cancel? && n < m < |states|
    requires Suspended(states[n], chain) && chain[0] == steps[n].frame && 0 < i < |chain|
    ensures chain[i] in states[n + 1].cancelled ==> Doomed(states[m], chain[i - 1], chain[i])
    ensures (forall j :: 0 <= j < i ==> chain[j] in states[n].waited) ==> Doomed(states[m], chain[i - 1], chain[i])
  {
    var s := states[n];
    assert states[n + 1] == Next(s, steps[n]);
    assert Edge(s, chain[i - 1], chain[i]);
    assert Edge(states[n + 1], chain[i - 1], chain[i]);
    if chain[i] in states[n + 1].cancelled {
      NoValueAfterCancel(states, steps, n + 1, m, chain[i - 1], chain[i]);
    } else {
      AnyRunKeeps(states, steps, n);
      var walk := CancelReaches(s, chain[0], s.clock);
      WholeChain(s, walk, chain);
      assert chain[i] !in walk;
      assert chain[|walk| - 1] !in s.waited;
    }
  }

  /**
    A completed future awaited again keeps the pointers right if and only if the
    frame that awaited it first is not itself suspended on an async function:
    await_resume clears that frame's `waited`, whoever it is.
   */
  lemma AwaitedAgain<T>(s: Frames<T>, f: Id, g: Id)
    requires Inv(s) && Enabled(s, AwaitDone(f, g))
    ensures Linked(Next(s, AwaitDone(f, g))) <==> Undisturbed(s, AwaitDone(f, g))
  {
    var a := AwaitDone(f, g);
    if Undisturbed(s, a) {
      PointingStep(s, a);
      RecordedStep(s, a);
    } else {
      var h, t := s.waiting[g], Next(s, a);
      assert Edge(s, h, s.waited[h]);
      assert Edge(t, h, s.waited[h]) && h !in t.waited;
    }
  }

  /** Over whole runs: the pointers are right at every point if and only if no step disturbed them. */
  lemma {:induction false} RightIffUndisturbed<T>(states: seq<Frames<T>>, steps: seq<Step<T>>, n: nat)
    requires IsAnyRun(states, steps) && n < |states|
    ensures (forall i :: 0 <= i <= n ==> Linked(states[i])) <==> AllUndisturbed(states, steps, n)
  {
    if n != 0 {
      RightIffUndisturbed(states, steps, n - 1);
      if AllUndisturbed(states, steps, n - 1) {
        PrefixKeeps(states, steps, n - 1);
        var s, a := states[n - 1], steps[n - 1];
        assert states[n] == Next(s, a);
        if Undisturbed(s, a) {
          PointingStep(s, a);
          RecordedStep(s, a);
        } else {
          AwaitedAgain(s, a.frame, a.callee);
        }
      }
    }
  }

  // ---------- a cancel that misses its target's callee ----------

  lemma Extend<T>(states: seq<Frames<T>>, steps: seq<Step<T>>, a: Step<T>, s: Frames<T>)
    requires IsAnyRun(states, steps) && Enabled(states[|steps|], a) && s == Next(states[|steps|], a)
    ensures IsAnyRun(states + [s], steps + [a])
  {
  }

  /** Frame 0, spawned, awaits frame 1. */
  lemma FirstAwait<T>() returns (states: seq<Frames<T>>, steps: seq<Step<T>>)
    ensures IsAnyRun(states, steps)
    ensures states[|steps|] == Frames(map[0 := OnFrame(1), 1 := Running], map[1 := 0], map[], {}, {0},
              map[0 := 0, 1 := 1], 2, map[])
  {
    var s0: Frames<T> := Start();
    var s1 := s0.(status := map[0 := Fresh]);
    Extend([s0], [], Create(0), s1);
    states, steps := [s0] + [s1], [] + [Create(0)];
    var s2 := s1.(status := map[0 := Running], dropped := {0}, started := map[0 := 0], clock := 1);
    Extend(states, steps, Spawn(0), s2);
    states, steps := states + [s2], steps + [Spawn(0)];
    var s3 := s2.(status := map[0 := Running, 1 := Fresh]);
    Extend(states, steps, Create(1), s3);
    states, steps := states + [s3], steps + [Create(1)];
    var s4 := s3.(status := map[0 := OnFrame(1), 1 := Running], waiting := map[1 := 0],
      started := map[0 := 0, 1 := 1], clock := 2);
    Extend(states, steps, Await(0, 1), s4);
    states, steps := states + [s4], steps + [Await(0, 1)];
  }

  /** Frame 1 awaits frame 2, which returns v. */
  lemma SecondAwait<T>(v: T) returns (states: seq<Frames<T>>, steps: seq<Step<T>>)
    ensures IsAnyRun(states, steps)
    ensures states[|steps|] == Frames(map[0 := OnFrame(1), 1 := Running, 2 := Done(Value(v))], map[1 := 0, 2 := 1],
              map[], {}, {0}, map[0 := 0, 1 := 1, 2 := 2], 3, map[2 := GotValue(v)])
  {
    states, steps := FirstAwait();
    var s := states[|steps|];
    var s1 := s.(status := map[0 := OnFrame(1), 1 := Running, 2 := Fresh]);
    Extend(states, steps, Create(2), s1);
    states, steps := states + [s1], steps + [Create(2)];
    var s2 := s.(status := map[0 := OnFrame(1), 1 := OnFrame(2), 2 := Running], waiting := map[1 := 0, 2 := 1],
      waited := map[1 := 2], started := map[0 := 0, 1 := 1, 2 := 2], clock := 3);
    Extend(states, steps, Await(1, 2), s2);
    states, steps := states + [s2], steps + [Await(1, 2)];
    var s3 := s2.(status := map[0 := OnFrame(1), 1 := Running, 2 := Done(Value(v))], waited := map[],
      got := map[2 := GotValue(v)]);
    Extend(states, steps, Complete(2, Value(v)), s3);
    states, steps := states + [s3], steps + [Complete(2, Value(v))];
  }

  /** Frame 1, first awaiter of the completed frame 2, is suspended on frame 3; nothing is cancelled. */
  predicate Poised<T(==)>(s: Frames<T>) {
    && Is(s, 1, OnFrame(3)) && 2 in s.status && s.status[2].Done? && 2 in s.waiting && s.waiting[2] == 1
    && s.waited == map[1 := 3] && 1 !in s.dropped && s.cancelled == {} && 4 !in s.status && 3 in s.status
  }

  /** Frame 1 goes on to await frame 3. */
  lemma ThirdAwait<T>(v: T) returns (states: seq<Frames<T>>, steps: seq<Step<T>>)
    ensures IsAnyRun(states, steps) && Poised(states[|steps|])
  {
    states, steps := SecondAwait(v);
    var s1 := Next(states[|steps|], Create(3));
    Extend(states, steps, Create(3), s1);
    states, steps := states + [s1], steps + [Create(3)];
    var s2 := Next(s1, Await(1, 3));
    Extend(states, steps, Await(1, 3), s2);
    states, steps := states + [s2], steps + [Await(1, 3)];
  }

  /** Another task, frame 4, starts. */
  lemma OtherTask<T>(v: T) returns (states: seq<Frames<T>>, steps: seq<Step<T>>)
    ensures IsAnyRun(states, steps) && Is(states[|steps|], 4, Running)
    ensures Poised(states[|steps|].(status := states[|steps|].status - {4}))
  {
    states, steps := ThirdAwait(v);
    var s1 := Next(states[|steps|], Create(4));
    Extend(states, steps, Create(4), s1);
    states, steps := states + [s1], steps + [Create(4)];
    var s2 := Next(s1, Spawn(4));
    Extend(states, steps, Spawn(4), s2);
    states, steps := states + [s2], steps + [Spawn(4)];
  }

  /** Frame 4 awaits frame 2 again. Cancelling frame 1 then marks it, but not frame 3, on which it is suspended. */
  lemma CancelMissesCallee<T>(v: T) returns (states: seq<Frames<T>>, steps: seq<Step<T>>)
    ensures IsAnyRun(states, steps)
    ensures var s := states[|steps|];
      Edge(s, 1, 3) && 1 !in s.dropped && 1 in s.cancelled && 3 !in s.cancelled
  {
    states, steps := OtherTask(v);
    var s1 := Next(states[|steps|], AwaitDone(4, 2));
    Extend(states, steps, AwaitDone(4, 2), s1);
    states, steps := states + [s1], steps + [AwaitDone(4, 2)];
    assert 1 !in s1.waited;
    assert Mark(s1, 1, s1.clock) == {1};
    var s2 := Next(s1, Cancel(1));
    Extend(states, steps, Cancel(1), s2);
    states, steps := states + [s2], steps + [Cancel(1)];
  }
}
