/**
  `sleep`, from its first poll through the timing wheel, the wake-up and the run
  queue to its second poll.
 */
module Sleep {
  import opened Odometer
  import opened WheelModel
  import opened WheelRuns
  import TimingWheel

  datatype PollResult = Pending | Threw | ReadyNow

  /** The future object: its first poll registers the event, its second is the wake-up. */
  class SleepFuture {
    var ready: bool
    const id: nat
    const ms: int

    constructor (id: nat, ms: int)
      ensures !ready && this.id == id && this.ms == ms
    {
      ready, this.id, this.ms := false, id, ms;
    }

    method Poll(clock: int, wheel: TimingWheel.TimingWheel) returns (r: PollResult)
      requires wheel.Valid() && wheel.Abs().Inv(false)
      modifies this, wheel.slots
      ensures wheel.Valid() && ready
      ensures old(ready) ==> r == ReadyNow && wheel.Abs() == old(wheel.Abs())
      ensures !old(ready) ==>
        var o := Apply(old(wheel.Abs()), InsertCall(Event(id, clock + ms * wheel.unit)));
        wheel.Abs() == o.wheel && r == if o.Done? then Pending else Threw
    {
      if !ready {
        ready := true;
        var ok := wheel.InsertEvent(Event(id, clock + ms * wheel.unit));
        return if ok then Pending else Threw;
      }
      return ReadyNow;
    }
  }

  datatype Phase = Waiting | Woken | Ready

  /** A sleep that was polled: when that was, for how many milliseconds, how far it got, and when it was woken. */
  datatype Sleeper = Sleeper(start: int, ms: int, phase: Phase, woke: int)

  datatype System = System(
    wheel: GoodWheel,
    clock: int,
    runQueue: seq<nat>,               // oldest first
    sleepers: map<nat, Sleeper>,
    refused: set<nat>) {              // sleeps whose registration threw

    function Deadline(id: nat): int
      requires id in sleepers
    {
      sleepers[id].start + sleepers[id].ms * wheel.unit
    }

    predicate IsIn(id: nat, phase: Phase) {
      id in sleepers && sleepers[id].phase == phase
    }
  }

  datatype Step =
    | Tick(clock: int)            // forward or backward
    | Begin(id: nat, ms: int)     // first poll: register the event, Pending
    | Drive                       // the driver expires the wheel and wakes what it emitted
    | Run                         // a worker polls the oldest entry again: Ready

  predicate Enabled(y: System, a: Step) {
    match a
    case Tick(c) => true
    case Begin(id, _) => id !in y.sleepers && id !in y.refused
    case Drive => true
    case Run => y.runQueue != []
  }

  function Ids(es: Events): seq<nat> {
    if es == [] then [] else [es[0].id] + Ids(es[1..])
  }

  function Wake(sleepers: map<nat, Sleeper>, ids: seq<nat>, clock: int): map<nat, Sleeper> {
    map id | id in sleepers :: if id in ids then sleepers[id].(phase := Woken, woke := clock) else sleepers[id]
  }

  /** The first poll, given how registering went; an event out of the wheel's range throws and leaves no sleep behind. */
  function Begun(y: System, w: GoodWheel, ok: bool, id: nat, ms: int): System {
    if ok then y.(wheel := w, sleepers := y.sleepers[id := Sleeper(y.clock, ms, Waiting, y.clock)])
    else y.(refused := y.refused + {id})
  }

  /** The driver's poll: es came out of the wheel and every one of its futures is scheduled. */
  function Driven(y: System, w: GoodWheel, es: Events): System {
    y.(wheel := w, runQueue := y.runQueue + Ids(es), sleepers := Wake(y.sleepers, Ids(es), y.clock))
  }

  function Next(y: System, a: Step): System
    requires Enabled(y, a)
  {
    match a
    case Tick(c) => y.(clock := c)
    case Begin(id, ms) =>
      var r := Apply(y.wheel, InsertCall(Event(id, y.clock + ms * y.wheel.unit)));
      Begun(y, r.wheel, r.Done?, id, ms)
    case Drive =>
      var r := Apply(y.wheel, ExpireCall(y.clock));
      Driven(y, r.wheel, Out(r))
    case Run =>
      var id := y.runQueue[0];
      var t := y.(runQueue := y.runQueue[1..]);
      if id in y.sleepers then t.(sleepers := y.sleepers[id := y.sleepers[id].(phase := Ready)]) else t
  }

  predicate Initial(y: System) {
    y.wheel.unit > 0 && y.wheel == Fresh(y.clock, y.wheel.unit) && y.runQueue == []
    && y.sleepers == map[] && y.refused == {}
  }

  // ---------- invariant ----------

  /** The wheel holds one event for each sleep that waits, and nothing else. */
  ghost predicate Stored(y: System) {
    forall e :: y.wheel.Bag()[e] == if y.IsIn(e.id, Waiting) && y.Deadline(e.id) == e.expire then 1 else 0
  }

  /** The run queue holds each woken sleep once, and nothing else. */
  ghost predicate Queued(y: System) {
    forall id :: multiset(y.runQueue)[id] == if y.IsIn(id, Woken) then 1 else 0
  }

  /** No sleep was woken a full millisecond or more early. */
  ghost predicate Timely(y: System) {
    forall id :: id in y.sleepers && y.sleepers[id].phase != Waiting ==>
      y.Deadline(id) - y.sleepers[id].woke < y.wheel.unit
  }

  ghost predicate Inv(y: System) {
    Stored(y) && Queued(y) && Timely(y)
  }

  lemma BeginKeeps(y: System, id: nat, ms: int)
    requires Inv(y) && Enabled(y, Begin(id, ms))
    ensures Inv(Next(y, Begin(id, ms)))
  {
    var e := Event(id, y.clock + ms * y.wheel.unit);
    var v, ok := InsertOutcome(y.wheel, e);
    if ok {
      BegunKeeps(y, v, e, ms);
    } else {
      RefusedKeeps(y, v, id, ms);
    }
    assert Next(y, Begin(id, ms)) == Begun(y, v, ok, id, ms);
  }

  lemma RefusedKeeps(y: System, w: GoodWheel, id: nat, ms: int)
    requires Inv(y)
    ensures Inv(Begun(y, w, false, id, ms))
  {
  }

  lemma BegunKeeps(y: System, w: GoodWheel, e: Event, ms: int)
    requires Inv(y) && e.expire == y.clock + ms * y.wheel.unit && e.id !in y.sleepers
    requires w.unit == y.wheel.unit && w.Bag() == y.wheel.Bag() + multiset{e}
    ensures Inv(Begun(y, w, true, e.id, ms))
  {
    BegunStored(y, w, e, ms);
  }

  lemma BegunStored(y: System, w: GoodWheel, e: Event, ms: int)
    requires Stored(y) && e.expire == y.clock + ms * y.wheel.unit && e.id !in y.sleepers
    requires w.unit == y.wheel.unit && w.Bag() == y.wheel.Bag() + multiset{e}
    ensures Stored(Begun(y, w, true, e.id, ms))
  {
    var z := Begun(y, w, true, e.id, ms);
    forall x ensures w.Bag()[x] == if z.IsIn(x.id, Waiting) && z.Deadline(x.id) == x.expire then 1 else 0 {
      assert w.Bag()[x] == y.wheel.Bag()[x] + if x == e then 1 else 0;
    }
  }

  /** What comes out of the wheel is the events of sleeps that waited, each once. */
  lemma {:induction false} IdsCount(y: System, es: Events, id: nat)
    requires y.wheel.unit > 0
    requires forall e :: multiset(es)[e] <= if y.IsIn(e.id, Waiting) && y.Deadline(e.id) == e.expire then 1 else 0
    ensures multiset(Ids(es))[id]
         == if y.IsIn(id, Waiting) then multiset(es)[Event(id, y.Deadline(id))] else 0
  {
    if es != [] {
      var rest := es[1..];
      assert es == [es[0]] + rest;
      forall e ensures multiset(rest)[e] <= multiset(es)[e] {
      }
      IdsCount(y, rest, id);
      assert multiset(es)[es[0]] >= 1;
      assert y.IsIn(es[0].id, Waiting) && y.Deadline(es[0].id) == es[0].expire;
      assert es[0] == Event(id, es[0].expire) <==> es[0].id == id;
    }
  }

  /** es came out of the wheel, and w is what stayed. */
  ghost predicate Took(y: System, w: GoodWheel, es: Events) {
    && 0 < w.unit == y.wheel.unit
    && forall e :: w.Bag()[e] + multiset(es)[e] == y.wheel.Bag()[e]
  }

  lemma TookIds(y: System, w: GoodWheel, es: Events, id: nat)
    requires Took(y, w, es) && Stored(y)
    ensures multiset(Ids(es))[id] == if y.IsIn(id, Waiting) then multiset(es)[Event(id, y.Deadline(id))] else 0
    ensures id in Ids(es) <==> multiset(Ids(es))[id] == 1
    ensures id !in Ids(es) <==> multiset(Ids(es))[id] == 0
  {
    forall e ensures multiset(es)[e] <= if y.IsIn(e.id, Waiting) && y.Deadline(e.id) == e.expire then 1 else 0 {
      assert w.Bag()[e] + multiset(es)[e] == y.wheel.Bag()[e];
    }
    IdsCount(y, es, id);
    assert id in Ids(es) <==> id in multiset(Ids(es));
  }

  lemma DriveStored(y: System, w: GoodWheel, es: Events)
    requires Took(y, w, es) && Stored(y)
    ensures Stored(Driven(y, w, es))
  {
    var z := Driven(y, w, es);
    forall e ensures w.Bag()[e] == if z.IsIn(e.id, Waiting) && z.Deadline(e.id) == e.expire then 1 else 0 {
      TookIds(y, w, es, e.id);
      assert w.Bag()[e] + multiset(es)[e] == y.wheel.Bag()[e];
    }
  }

  lemma DriveQueued(y: System, w: GoodWheel, es: Events)
    requires Took(y, w, es) && Stored(y) && Queued(y)
    ensures Queued(Driven(y, w, es))
  {
    var z := Driven(y, w, es);
    forall id ensures multiset(z.runQueue)[id] == if z.IsIn(id, Woken) then 1 else 0 {
      TookIds(y, w, es, id);
      assert multiset(y.runQueue + Ids(es))[id] == multiset(y.runQueue)[id] + multiset(Ids(es))[id];
    }
  }

  lemma DriveTimely(y: System, w: GoodWheel, es: Events)
    requires Took(y, w, es) && Stored(y) && Timely(y)
    requires forall e :: e in es ==> e.expire - y.clock < y.wheel.unit
    ensures Timely(Driven(y, w, es))
  {
    var z := Driven(y, w, es);
    forall id | id in z.sleepers && z.sleepers[id].phase != Waiting
      ensures z.Deadline(id) - z.sleepers[id].woke < z.wheel.unit
    {
      TookIds(y, w, es, id);
      if id in Ids(es) {
        assert Event(id, y.Deadline(id)) in multiset(es);
        assert Event(id, y.Deadline(id)) in es;
      }
    }
  }

  lemma DriveKeeps(y: System)
    requires Inv(y)
    ensures Inv(Next(y, Drive))
  {
    var c := ExpireCall(y.clock);
    var r := Apply(y.wheel, c);
    ApplyConserves(y.wheel, c);
    forall e | e in Out(r) ensures e.expire - y.clock < y.wheel.unit {
      ApplyNeverEarly(y.wheel, c, e);
    }
    forall e ensures r.wheel.Bag()[e] + multiset(Out(r))[e] == y.wheel.Bag()[e] {
      assert (r.wheel.Bag() + multiset(Out(r)))[e] == r.wheel.Bag()[e] + multiset(Out(r))[e];
    }
    DriveStored(y, r.wheel, Out(r));
    DriveQueued(y, r.wheel, Out(r));
    DriveTimely(y, r.wheel, Out(r));
  }

  lemma RunKeeps(y: System)
    requires Inv(y) && y.runQueue != []
    ensures Inv(Next(y, Run)) && y.IsIn(y.runQueue[0], Woken)
  {
    var id, z := y.runQueue[0], Next(y, Run);
    assert y.runQueue == [id] + y.runQueue[1..];
    assert multiset(y.runQueue)[id] >= 1;
    forall x ensures multiset(z.runQueue)[x] == if z.IsIn(x, Woken) then 1 else 0 {
      assert multiset(y.runQueue)[x] == multiset(y.runQueue[1..])[x] + if x == id then 1 else 0;
    }
    forall e ensures z.wheel.Bag()[e] == if z.IsIn(e.id, Waiting) && z.Deadline(e.id) == e.expire then 1 else 0 {
    }
  }

  lemma StepKeeps(y: System, a: Step)
    requires Inv(y) && Enabled(y, a)
    ensures Inv(Next(y, a))
  {
    match a
    case Tick(c) =>
    case Begin(id, ms) => BeginKeeps(y, id, ms);
    case Drive => DriveKeeps(y);
    case Run => RunKeeps(y);
  }

  lemma StartInv(y: System)
    requires Initial(y)
    ensures Inv(y)
  {
    FreshIsSynced(y.clock, y.wheel.unit);
  }

  /** Phases only advance, and a sleep keeps its deadline and the time it was woken. */
  predicate Advances(y: System, z: System, id: nat) {
    && z.wheel.unit == y.wheel.unit
    && (id in y.sleepers ==>
          var a, b := y.sleepers[id], if id in z.sleepers then z.sleepers[id] else y.sleepers[id];
          && id in z.sleepers && b.start == a.start && b.ms == a.ms
          && (a.phase != Waiting ==> b.phase != Waiting && b.woke == a.woke)
          && (a.phase == Ready ==> b.phase == Ready))
    && (id in y.refused ==> id in z.refused)
  }

  lemma StepAdvances(y: System, a: Step, id: nat)
    requires Inv(y) && Enabled(y, a)
    ensures Advances(y, Next(y, a), id)
  {
    if a.Drive? {
      var r := Apply(y.wheel, ExpireCall(y.clock));
      ApplyConserves(y.wheel, ExpireCall(y.clock));
      forall e ensures r.wheel.Bag()[e] + multiset(Out(r))[e] == y.wheel.Bag()[e] {
        assert (r.wheel.Bag() + multiset(Out(r)))[e] == r.wheel.Bag()[e] + multiset(Out(r))[e];
      }
      TookIds(y, r.wheel, Out(r), id);
    } else if a.Run? {
      RunKeeps(y);
    }
  }

  // ---------- what every run guarantees ----------

  ghost predicate IsRun(states: seq<System>, steps: seq<Step>) {
    && |states| == |steps| + 1 && Initial(states[0])
    && forall i :: 0 <= i < |steps| ==>
         Enabled(states[i], steps[i]) && states[i + 1] == Next(states[i], steps[i])
  }

  /**
    Over every run and under any clock: each sleep is Pending at its first poll,
    waits in the wheel, is woken at most once, and by then has less than a
    millisecond left.
   */
  lemma {:induction false} SleepsAreTimely(states: seq<System>, steps: seq<Step>, n: nat)
    requires IsRun(states, steps) && n < |states|
    ensures Inv(states[n])
  {
    if n == 0 {
      StartInv(states[0]);
    } else {
      SleepsAreTimely(states, steps, n - 1);
      StepKeeps(states[n - 1], steps[n - 1]);
    }
  }

  /** Over every run a sleep only moves from waiting to woken to ready, and keeps its deadline. */
  lemma {:induction false} PhasesAdvance(states: seq<System>, steps: seq<Step>, k: nat, m: nat, id: nat)
    requires IsRun(states, steps) && k <= m < |states|
    ensures Advances(states[k], states[m], id)
    decreases m
  {
    if k < m {
      PhasesAdvance(states, steps, k, m - 1, id);
      SleepsAreTimely(states, steps, m - 1);
      StepAdvances(states[m - 1], steps[m - 1], id);
    }
  }

  // ---------- what was asked for ----------

  /** The first poll records the clock's reading and the duration asked for, or the refusal. */
  lemma BeginRecords(y: System, id: nat, ms: int)
    requires Enabled(y, Begin(id, ms))
    ensures var z := Next(y, Begin(id, ms));
      if id in z.refused then id !in z.sleepers
      else id in z.sleepers && z.sleepers[id].start == y.clock && z.sleepers[id].ms == ms
    ensures id in Next(y, Begin(id, ms)).refused <==>
      Apply(y.wheel, InsertCall(Event(id, y.clock + ms * y.wheel.unit))).OutOfRange?
  {
  }

  /** In every run a sleep that was asked for keeps what was asked, or was refused. */
  lemma RequestIsKept(states: seq<System>, steps: seq<Step>, k: nat, m: nat, id: nat, ms: int)
    requires IsRun(states, steps) && k < m < |states| && steps[k] == Begin(id, ms)
    ensures var z := states[m];
      || id in z.refused
      || (id in z.sleepers && z.sleepers[id].start == states[k].clock && z.sleepers[id].ms == ms)
    ensures states[m].wheel.unit == states[k].wheel.unit
  {
    BeginRecords(states[k], id, ms);
    assert states[k + 1] == Next(states[k], steps[k]);
    PhasesAdvance(states, steps, k, m, id);
    PhasesAdvance(states, steps, k + 1, m, id);
  }

  /** From y to z sleep id kept its request, or it was made just then. */
  predicate Traced(y: System, a: Step, z: System, id: nat) {
    id in z.sleepers ==>
      && z.wheel.unit == y.wheel.unit
      && (if id in y.sleepers then z.sleepers[id].start == y.sleepers[id].start && z.sleepers[id].ms == y.sleepers[id].ms
          else a == Begin(id, z.sleepers[id].ms) && z.sleepers[id].start == y.clock)
  }

  lemma TracedStep(y: System, a: Step, id: nat)
    requires Inv(y) && Enabled(y, a)
    ensures Traced(y, a, Next(y, a), id)
  {
    StepAdvances(y, a, id);
    if a.Begin? && a.id == id {
      BeginRecords(y, id, a.ms);
    }
  }

  lemma {:induction false} TraceBack(states: seq<System>, steps: seq<Step>, n: nat, id: nat) returns (k: nat)
    requires |states| == |steps| + 1 && n < |states| && states[0].sleepers == map[] && id in states[n].sleepers
    requires forall i :: 0 <= i < n ==> Traced(states[i], steps[i], states[i + 1], id)
    ensures k < n && steps[k] == Begin(id, states[n].sleepers[id].ms) && states[n].sleepers[id].start == states[k].clock
    ensures states[n].wheel.unit == states[k].wheel.unit
  {
    assert Traced(states[n - 1], steps[n - 1], states[(n - 1) + 1], id);
    if id in states[n - 1].sleepers {
      k := TraceBack(states, steps, n - 1, id);
    } else {
      k := n - 1;
    }
  }

  /** And every sleep there is was asked for, at the time and for the duration it records. */
  lemma RequestOf(states: seq<System>, steps: seq<Step>, n: nat, id: nat) returns (k: nat)
    requires IsRun(states, steps) && n < |states| && id in states[n].sleepers
    ensures k < n && steps[k] == Begin(id, states[n].sleepers[id].ms) && states[n].sleepers[id].start == states[k].clock
    ensures states[n].Deadline(id) == states[k].clock + steps[k].ms * states[k].wheel.unit
  {
    forall i | 0 <= i < n ensures Traced(states[i], steps[i], states[i + 1], id) {
      SleepsAreTimely(states, steps, i);
      TracedStep(states[i], steps[i], id);
    }
    k := TraceBack(states, steps, n, id);
  }

  // ---------- in what order ----------

  lemma {:induction false} IdsAt(es: Events, i: nat)
    requires i < |es|
    ensures |Ids(es)| == |es| && Ids(es)[i] == es[i].id
  {
    if |es| > 1 {
      IdsAt(es[1..], if i > 0 then i - 1 else 0);
    }
  }

  /** The sleeps that come out of the wheel, in the order it emits them. */
  function Emitted(y: System): seq<nat> {
    Ids(Out(Apply(y.wheel, ExpireCall(y.clock))))
  }

  /** How a step changes the run queue: a drive appends what came out, a worker takes the oldest. */
  predicate Queues(y: System, a: Step, out: seq<nat>, z: System) {
    match a
    case Drive => z.runQueue == y.runQueue + out
    case Run => y.runQueue != [] && y.runQueue == y.runQueue[..1] + z.runQueue
    case _ => z.runQueue == y.runQueue
  }

  lemma QueueStep(y: System, a: Step)
    requires Enabled(y, a)
    ensures Queues(y, a, Emitted(y), Next(y, a))
    ensures Next(y, a).clock == if a.Tick? then a.clock else y.clock
  {
  }

  /** What came out in the first n steps, drive by drive. */
  function WokenIn(steps: seq<Step>, out: seq<seq<nat>>, n: nat): seq<nat>
    requires n <= |steps| == |out|
  {
    if n == 0 then [] else WokenIn(steps, out, n - 1) + if steps[n - 1] == Drive then out[n - 1] else []
  }

  /** The sleeps the workers polled again in the first n steps, in order. */
  function PolledIn(states: seq<System>, steps: seq<Step>, n: nat): seq<nat>
    requires n <= |steps| < |states|
  {
    if n == 0 then []
    else
      PolledIn(states, steps, n - 1) +
      if steps[n - 1] == Run && states[n - 1].runQueue != [] then states[n - 1].runQueue[..1] else []
  }

  lemma OneStepOrder(all: seq<nat>, taken: seq<nat>, queue: seq<nat>, more: seq<nat>, first: seq<nat>, rest: seq<nat>)
    requires all == taken + queue && queue + more == first + rest
    ensures all + more == (taken + first) + rest
  {
    assert all + more == taken + (queue + more) && (taken + first) + rest == taken + (first + rest);
  }

  lemma {:induction false} TakenInOrder(states: seq<System>, steps: seq<Step>, out: seq<seq<nat>>, n: nat)
    requires |states| == |steps| + 1 == |out| + 1 && n <= |steps| && states[0].runQueue == []
    requires forall i :: 0 <= i < n ==> Queues(states[i], steps[i], out[i], states[i + 1])
    ensures WokenIn(steps, out, n) == PolledIn(states, steps, n) + states[n].runQueue
  {
    if n != 0 {
      TakenInOrder(states, steps, out, n - 1);
      assert Queues(states[n - 1], steps[n - 1], out[n - 1], states[(n - 1) + 1]);
      OneStepOrder(WokenIn(steps, out, n - 1), PolledIn(states, steps, n - 1), states[n - 1].runQueue,
        if steps[n - 1] == Drive then out[n - 1] else [],
        if steps[n - 1] == Run then states[n - 1].runQueue[..1] else [], states[n].runQueue);
    }
  }

  /**
    Sleeps are polled again in the order they were woken, those of one drive in the
    order the wheel emitted them; those not polled yet are the run queue.
   */
  lemma PolledInOrder(states: seq<System>, steps: seq<Step>, out: seq<seq<nat>>, n: nat)
    requires IsRun(states, steps) && n <= |steps| == |out|
    requires forall i :: 0 <= i < |steps| ==> out[i] == Emitted(states[i])
    ensures WokenIn(steps, out, n) == PolledIn(states, steps, n) + states[n].runQueue
  {
    forall i | 0 <= i < n ensures Queues(states[i], steps[i], out[i], states[i + 1]) {
      QueueStep(states[i], steps[i]);
    }
    TakenInOrder(states, steps, out, n);
  }

  /** And exactly those polled again are ready. */
  lemma {:induction false} ReadyIffPolled(states: seq<System>, steps: seq<Step>, n: nat, id: nat)
    requires IsRun(states, steps) && n <= |steps|
    ensures states[n].IsIn(id, Ready) <==> id in PolledIn(states, steps, n)
  {
    if n != 0 {
      ReadyIffPolled(states, steps, n - 1, id);
      SleepsAreTimely(states, steps, n - 1);
      assert Enabled(states[n - 1], steps[n - 1]) && states[n] == Next(states[n - 1], steps[n - 1]);
      ReadyOne(states[n - 1], steps[n - 1], id);
    }
  }

  lemma ReadyOne(y: System, a: Step, id: nat)
    requires Inv(y) && Enabled(y, a)
    ensures Next(y, a).IsIn(id, Ready) <==> y.IsIn(id, Ready) || (a == Run && id == y.runQueue[0])
  {
    StepAdvances(y, a, id);
    if a.Run? {
      assert y.runQueue[0] in multiset(y.runQueue);
    }
  }

  // ---------- on time ----------

  /** The clock only shows whole milliseconds since `base`. */
  predicate WholeClock(states: seq<System>, base: int) {
    forall i :: 0 <= i < |states| ==> OnTick(states[i], base, states[i].clock)
  }

  predicate OnTick(y: System, base: int, time: int) {
    y.wheel.unit > 0 && (time - base) % y.wheel.unit == 0
  }

  /** The clock never goes back. */
  predicate Forward(states: seq<System>) {
    forall i :: 0 < i < |states| ==> states[i - 1].clock <= states[i].clock
  }

  /** What a step may set a sleep's times to: those it had, or the clock. */
  lemma TimesAreRead(y: System, a: Step, id: nat)
    requires Inv(y) && Enabled(y, a) && id in Next(y, a).sleepers
    ensures var z := Next(y, a);
      && ((id in y.sleepers && z.sleepers[id].start == y.sleepers[id].start) || z.sleepers[id].start == y.clock)
      && ((id in y.sleepers && z.sleepers[id].woke == y.sleepers[id].woke) || z.sleepers[id].woke == y.clock)
      && z.wheel.unit == y.wheel.unit
  {
    StepAdvances(y, a, id);
  }

  lemma {:induction false} TimesOnTick(states: seq<System>, steps: seq<Step>, base: int, n: nat, id: nat)
    requires IsRun(states, steps) && WholeClock(states, base) && n < |states| && id in states[n].sleepers
    ensures OnTick(states[n], base, states[n].sleepers[id].start) && OnTick(states[n], base, states[n].sleepers[id].woke)
  {
    if n != 0 {
      SleepsAreTimely(states, steps, n - 1);
      TimesAreRead(states[n - 1], steps[n - 1], id);
      assert OnTick(states[n - 1], base, states[n - 1].clock);
      if id in states[n - 1].sleepers {
        TimesOnTick(states, steps, base, n - 1, id);
      }
    }
  }

  /** One step of the following. */
  lemma WokenStep(y: System, a: Step, id: nat)
    requires Inv(y) && Enabled(y, a) && id in Next(y, a).sleepers && y.clock <= Next(y, a).clock
    requires id in y.sleepers ==> y.sleepers[id].woke <= y.clock
    ensures Next(y, a).sleepers[id].woke <= Next(y, a).clock
  {
    TimesAreRead(y, a, id);
  }

  lemma {:induction false} WokenBefore(states: seq<System>, steps: seq<Step>, n: nat, id: nat)
    requires IsRun(states, steps) && Forward(states) && n < |states| && id in states[n].sleepers
    ensures states[n].sleepers[id].woke <= states[n].clock
  {
    if n != 0 {
      SleepsAreTimely(states, steps, n - 1);
      if id in states[n - 1].sleepers {
        WokenBefore(states, steps, n - 1, id);
      }
      assert states[n - 1].clock <= states[n].clock;
      assert states[n] == Next(states[n - 1], steps[n - 1]);
      WokenStep(states[n - 1], steps[n - 1], id);
    }
  }

  lemma LessThanOneTick(start: int, ms: int, clock: int, base: int, unit: int)
    requires unit > 0 && (start - base) % unit == 0 && (clock - base) % unit == 0
    requires start + ms * unit - clock < unit
    ensures start + ms * unit <= clock
  {
    var p, q := (start - base) / unit, (clock - base) / unit;
    assert start - base == unit * p && clock - base == unit * q;
    assert start + ms * unit - clock == (p + ms - q) * unit;
    if p + ms - q >= 1 {
      MulMonotone(1, p + ms - q, unit);
    } else {
      MulMonotone(p + ms - q, 0, unit);
    }
  }

  /**
    With a whole-millisecond clock a sleep is woken only when the clock shows the
    time of its first poll plus the duration asked for, or later; if the clock never
    goes back, that time has come whenever it is woken or ready.
   */
  lemma ReadyOnTime(states: seq<System>, steps: seq<Step>, base: int, n: nat, id: nat) returns (k: nat)
    requires IsRun(states, steps) && WholeClock(states, base) && n < |states|
    requires id in states[n].sleepers && states[n].sleepers[id].phase != Waiting
    ensures k < n && steps[k].Begin? && steps[k].id == id
    ensures var due := states[k].clock + steps[k].ms * states[k].wheel.unit;
      due <= states[n].sleepers[id].woke && (Forward(states) ==> due <= states[n].clock)
  {
    SleepsAreTimely(states, steps, n);
    TimesOnTick(states, steps, base, n, id);
    var y := states[n];
    LessThanOneTick(y.sleepers[id].start, y.sleepers[id].ms, y.sleepers[id].woke, base, y.wheel.unit);
    if Forward(states) {
      WokenBefore(states, steps, n, id);
    }
    k := RequestOf(states, steps, n, id);
  }

  // ---------- and not later either ----------

  /** Times stay whole and within the wheel's range. */
  predicate StepOnGrid(y: System, base: int, a: Step) {
    match a
    case Tick(c) => OnGrid(y.wheel.unit, base, c)
    case Begin(_, ms) => OnGrid(y.wheel.unit, base, y.clock + ms * y.wheel.unit)
    case _ => true
  }

  ghost predicate InStep(y: System, base: int) {
    Synced(y.wheel, base) && OnGrid(y.wheel.unit, base, y.clock)
  }

  lemma ApplyInStep(w: GoodWheel, base: int, c: Call) returns (v: GoodWheel, out: Events)
    requires Synced(w, base) && CallOnGrid(w.unit, base, c)
    ensures Apply(w, c) == Done(v, out) && Synced(v, base) && v.unit == w.unit
    ensures c.ExpireCall? && c.clock > w.now ==> forall e :: e in v.Bag() ==> e.expire > c.clock
  {
    var f := Flat(Concat(w.slots), w.now);
    ApplyRefines(w, f, base, c);
    v, out := Apply(w, c).wheel, Apply(w, c).out;
    if c.ExpireCall? && c.clock > w.now {
      forall e | e in v.Bag() ensures e.expire > c.clock {
        PastFutureCounts(f.pending, c.clock, e);
      }
    }
  }

  lemma StepInStep(y: System, base: int, a: Step)
    requires InStep(y, base) && Enabled(y, a) && StepOnGrid(y, base, a)
    ensures InStep(Next(y, a), base)
  {
    match a
    case Tick(c) =>
    case Begin(id, ms) =>
      var v, out := ApplyInStep(y.wheel, base, InsertCall(Event(id, y.clock + ms * y.wheel.unit)));
      assert Next(y, a) == Begun(y, v, true, id, ms);
    case Drive =>
      var v, out := ApplyInStep(y.wheel, base, ExpireCall(y.clock));
      assert Next(y, a) == Driven(y, v, out);
    case Run =>
  }

  /** One drive after the clock moved wakes every sleep that is due. */
  lemma DriveWakesAllDue(y: System, base: int, id: nat)
    requires Inv(y) && InStep(y, base) && y.wheel.now < y.clock
    ensures Next(y, Drive).IsIn(id, Waiting) ==> Next(y, Drive).Deadline(id) > y.clock
  {
    DriveKeeps(y);
    var v, out := ApplyInStep(y.wheel, base, ExpireCall(y.clock));
    var z := Next(y, Drive);
    assert z == Driven(y, v, out);
    if z.IsIn(id, Waiting) {
      assert z.wheel.Bag()[Event(id, z.Deadline(id))] == 1;
    }
  }

  lemma {:induction false} RunInStep(states: seq<System>, steps: seq<Step>, base: int, n: nat)
    requires IsRun(states, steps) && n < |states| && base == states[0].clock
    requires forall i :: 0 <= i < |steps| ==> StepOnGrid(states[i], base, steps[i])
    ensures InStep(states[n], base)
  {
    if n == 0 {
      FreshIsSynced(base, states[0].wheel.unit);
      MulMonotone(1, RANGE, states[0].wheel.unit);
    } else {
      RunInStep(states, steps, base, n - 1);
      StepInStep(states[n - 1], base, steps[n - 1]);
    }
  }

  lemma {:induction false} NoneRefused(states: seq<System>, steps: seq<Step>, base: int, n: nat)
    requires IsRun(states, steps) && n < |states| && base == states[0].clock
    requires forall i :: 0 <= i < |steps| ==> StepOnGrid(states[i], base, steps[i])
    ensures states[n].refused == {}
  {
    if n != 0 {
      NoneRefused(states, steps, base, n - 1);
      RunInStep(states, steps, base, n - 1);
      var y, a := states[n - 1], steps[n - 1];
      if a.Begin? {
        var v, out := ApplyInStep(y.wheel, base, InsertCall(Event(a.id, y.clock + a.ms * y.wheel.unit)));
      }
      assert states[n] == Next(y, a);
    }
  }

  /**
    Over a run within range: whenever the driver runs after the clock moved, every
    sleep whose first poll plus duration asked for has come is woken.
   */
  lemma NoSleepOverdue(states: seq<System>, steps: seq<Step>, base: int, n: nat, k: nat, id: nat, ms: int)
    requires IsRun(states, steps) && k < n < |steps| && base == states[0].clock
    requires forall i :: 0 <= i < |steps| ==> StepOnGrid(states[i], base, steps[i])
    requires steps[n] == Drive && states[n].wheel.now < states[n].clock && steps[k] == Begin(id, ms)
    ensures id in states[n + 1].sleepers
    ensures states[k].clock + ms * states[k].wheel.unit <= states[n + 1].clock ==> !states[n + 1].IsIn(id, Waiting)
  {
    SleepsAreTimely(states, steps, n);
    RunInStep(states, steps, base, n);
    NoneRefused(states, steps, base, n + 1);
    RequestIsKept(states, steps, k, n + 1, id, ms);
    assert states[n + 1] == Next(states[n], Drive);
    DriveWakesAllDue(states[n], base, id);
  }
}
