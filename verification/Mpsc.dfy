/**
  The bounded mpsc channel. One poll is one atomic step here; MpscSections takes
  each locked section as a step of its own.
 */
module Mpsc {
  import opened Common
  import RunQueue

  type Id = nat

  datatype CloseState = Open | SenderClosed | ReceiverClosed

  /** The state sender and receiver share: buffered values, parked send futures, the receive future last parked. */
  datatype Shared<V> = Shared(size: nat, queue: seq<V>, parked: seq<Id>, receiver: Option<Id>, state: CloseState)

  datatype SendPoll<V> = Sent | Rejected(value: V) | SendPending
  datatype ReceivePoll<V> = Received(value: V) | Ended | ReceivePending

  /** The new state, the poll's answer and the futures it registers to run. */
  function PollSend<V>(s: Shared<V>, f: Id, v: V): (Shared<V>, SendPoll<V>, seq<Id>) {
    if s.state == ReceiverClosed then (s, Rejected(v), [])
    else if |s.queue| < s.size then
      (s.(queue := s.queue + [v]), Sent, if s.receiver.Some? then [s.receiver.value] else [])
    else (s.(parked := s.parked + [f]), SendPending, [])
  }

  function PollReceive<V>(s: Shared<V>, r: Id): (Shared<V>, ReceivePoll<V>, seq<Id>) {
    if s.queue != [] then
      if s.parked != [] then
        (s.(queue := s.queue[1..], parked := s.parked[1..]), Received(s.queue[0]), [s.parked[0]])
      else (s.(queue := s.queue[1..]), Received(s.queue[0]), [])
    else if s.state == SenderClosed then (s, Ended, [])
    else (s.(receiver := Some(r)), ReceivePending, [])
  }

  /** `close` of a sender, given how many handles share the state. */
  function CloseSender<V>(s: Shared<V>, useCount: nat): Shared<V> {
    var owners := if s.state == ReceiverClosed then useCount else useCount - 1;
    if owners == 1 then s.(state := SenderClosed) else s
  }

  /** The shared object itself; every poll is proved to do what its function says. */
  class Channel<V(!new)> {
    const size: nat
    var queue: seq<V>
    var parked: seq<Id>
    var receiver: Option<Id>
    var state: CloseState

    /** A new channel with one sender starts a run. */
    constructor (size: nat)
      ensures Abs().size == size
      ensures forall x :: Initial(System(Abs(), [], map[], None, {x}, true, {}, [], [], [], [], [], [], {}, {}, false))
    {
      this.size := size;
      queue, parked, receiver, state := [], [], None, Open;
    }

    ghost function Abs(): Shared<V>
      reads this
    {
      Shared(size, queue, parked, receiver, state)
    }

    method Send(f: Id, value: V, core: RunQueue.RunQueue<Id>) returns (poll: SendPoll<V>)
      modifies this, core
      ensures var r := PollSend(old(Abs()), f, value);
        Abs() == r.0 && poll == r.1 && RunQueue.Order(core.handles) == old(RunQueue.Order(core.handles)) + r.2
    {
      if state == ReceiverClosed {
        return Rejected(value);
      }
      if |queue| < size {
        queue := queue + [value];
        if receiver.Some? {
          core.Register(receiver.value);
        }
        return Sent;
      }
      parked := parked + [f];
      return SendPending;
    }

    method Receive(r: Id, core: RunQueue.RunQueue<Id>) returns (poll: ReceivePoll<V>)
      modifies this, core
      ensures var r := PollReceive(old(Abs()), r);
        Abs() == r.0 && poll == r.1 && RunQueue.Order(core.handles) == old(RunQueue.Order(core.handles)) + r.2
    {
      if queue != [] {
        var top := queue[0];
        queue := queue[1..];
        if parked != [] {
          var sender := parked[0];
          parked := parked[1..];
          core.Register(sender);
        }
        return Received(top);
      }
      if state == SenderClosed {
        return Ended;
      }
      receiver := Some(r);
      return ReceivePending;
    }

    /** A sender's destructor; useCount counts every handle on this object, the closing one included. */
    method CloseBySender(useCount: nat)
      modifies this
      ensures Abs() == CloseSender(old(Abs()), useCount)
    {
      var owners: int := useCount;
      if state != ReceiverClosed {
        owners := owners - 1;
      }
      if owners == 1 {
        state := SenderClosed;
      }
    }

    /** The receiver's destructor: from now on every send poll gets its value back, wakes nobody and changes nothing. */
    method CloseByReceiver(ghost y: System<V>)
      requires y.shared == Abs() && Enabled(y, CloseReceiver)
      modifies this
      ensures Abs() == Next(y, CloseReceiver).shared
      ensures forall f: Id, v: V :: PollSend(Abs(), f, v) == (Abs(), Rejected(v), [])
    {
      state := ReceiverClosed;
    }
  }

  // ---------- the channel among its futures ----------

  datatype SendFuture<V> = SendFuture(value: V, owner: Id)

  datatype System<V> = System(
    shared: Shared<V>,
    runQueue: seq<Id>,                // oldest first
    sends: map<Id, SendFuture<V>>,    // send futures that have not completed
    pending: Option<Id>,              // the receive future that has not completed
    senders: set<Id>,                 // live Sender handles
    receiverAlive: bool,
    used: set<Id>,                    // ids of every future so far
    pushed: seq<V>,
    pushers: seq<Id>,                 // which send pushed each of them
    popped: seq<V>,
    lost: seq<V>,                     // popped by a receive that had already completed
    parkLog: seq<Id>,                 // every time a send future was parked
    wakeLog: seq<Id>,                 // every time one was taken out and woken
    accepted: set<Id>,                // sends that completed with success
    rejected: set<Id>,                // sends that got their value back
    ended: bool)                      // some receive yielded nothing

  datatype Action<V> =
    | StartSend(future: Id, owner: Id, value: V)
    | StartReceive(future: Id)
    | RunNext
    | CopySender(sender: Id)
    | DestroySender(sender: Id)
    | CloseReceiver

  predicate Enabled<V>(y: System<V>, a: Action<V>) {
    match a
    case StartSend(f, owner, _) => f !in y.used && owner in y.senders
    case StartReceive(r) => r !in y.used && y.receiverAlive && y.pending == None
    case RunNext => y.runQueue != []
    case CopySender(x) => x !in y.senders && y.senders != {}
    case DestroySender(x) => x in y.senders && forall f :: f in y.sends ==> y.sends[f].owner != x
    case CloseReceiver => y.receiverAlive && y.pending == None
  }

  function AfterSend<V>(y: System<V>, f: Id, future: SendFuture<V>): System<V> {
    var (s, poll, woken) := PollSend(y.shared, f, future.value);
    var y' := y.(shared := s, runQueue := y.runQueue + woken);
    match poll
    case Sent => y'.(sends := y.sends - {f}, pushed := y.pushed + [future.value], pushers := y.pushers + [f],
                      accepted := y.accepted + {f})
    case Rejected(_) => y'.(sends := y.sends - {f}, rejected := y.rejected + {f})
    case SendPending => y'.(sends := y.sends[f := future], parkLog := y.parkLog + [f])
  }

  /** What any receive poll does to the channel and the run queue. */
  function Polled<V>(y: System<V>, r: Id): System<V> {
    var (s, poll, woken) := PollReceive(y.shared, r);
    y.(shared := s, runQueue := y.runQueue + woken, wakeLog := y.wakeLog + woken,
       popped := y.popped + if poll.Received? then [poll.value] else [])
  }

  function AfterReceive<V>(y: System<V>, r: Id): System<V> {
    match PollReceive(y.shared, r).1
    case Received(v) => Polled(y, r).(pending := None)
    case Ended => Polled(y, r).(pending := None, ended := true)
    case ReceivePending => Polled(y, r).(pending := Some(r))
  }

  /** A receive that already completed is polled like any other, but nobody waits for its answer. */
  function AfterStray<V>(y: System<V>, r: Id): System<V> {
    var poll := PollReceive(y.shared, r).1;
    Polled(y, r).(lost := y.lost + if poll.Received? then [poll.value] else [])
  }

  /** A future is polled when first awaited and whenever a worker takes it from the run queue. */
  function Next<V>(y: System<V>, a: Action<V>): System<V>
    requires Enabled(y, a)
  {
    match a
    case StartSend(f, owner, v) => AfterSend(y.(used := y.used + {f}), f, SendFuture(v, owner))
    case StartReceive(r) => AfterReceive(y.(used := y.used + {r}), r)
    case RunNext =>
      var x, taken := y.runQueue[0], y.(runQueue := y.runQueue[1..]);
      if x in y.sends then AfterSend(taken, x, y.sends[x])
      else if y.pending == Some(x) then AfterReceive(taken, x)
      else AfterStray(taken, x)
    case CopySender(x) => y.(senders := y.senders + {x})
    case DestroySender(x) =>
      y.(senders := y.senders - {x},
         shared := CloseSender(y.shared, |y.senders| + if y.receiverAlive then 1 else 0))
    case CloseReceiver => y.(receiverAlive := false, shared := y.shared.(state := ReceiverClosed))
  }

  predicate Initial<V(==)>(y: System<V>) {
    && y.shared == Shared(y.shared.size, [], [], None, Open)
    && y.runQueue == [] && y.sends == map[] && y.pending == None && |y.senders| == 1 && y.receiverAlive
    && y.pushed == [] && y.pushers == [] && y.popped == [] && y.lost == [] && y.parkLog == [] && y.wakeLog == []
    && y.accepted == {} && y.rejected == {} && !y.ended
  }

  ghost predicate IsRun<V>(states: seq<System<V>>, actions: seq<Action<V>>) {
    && |states| == |actions| + 1 && Initial(states[0])
    && forall i :: 0 <= i < |actions| ==> Enabled(states[i], actions[i]) && states[i + 1] == Next(states[i], actions[i])
  }

  // ---------- invariant ----------

  /** How many entries of the run queue are in ks. */
  function Count(q: seq<Id>, ks: set<Id>): nat {
    if q == [] then 0 else (if q[0] in ks then 1 else 0) + Count(q[1..], ks)
  }

  /** Send futures woken and not yet polled again. */
  function Woken<V>(y: System<V>): nat {
    Count(y.runQueue, y.sends.Keys)
  }

  ghost predicate Named<V>(y: System<V>) {
    && y.sends.Keys <= y.used && y.accepted <= y.used && y.rejected <= y.used
    && y.sends.Keys !! y.accepted && y.sends.Keys !! y.rejected && y.accepted !! y.rejected
    && (forall x :: x in y.runQueue ==> x in y.used)
    && (y.shared.receiver.Some? ==> y.shared.receiver.value in y.used && y.shared.receiver.value !in y.sends)
    && (y.pending.Some? ==> y.pending.value in y.used && y.pending.value !in y.sends)
  }

  /** Each send future that has not completed is parked or scheduled, in exactly one place. */
  ghost predicate Placed<V>(y: System<V>) {
    EachOnce(y.shared.parked, y.runQueue, y.sends.Keys)
  }

  ghost predicate EachOnce(parked: seq<Id>, runQueue: seq<Id>, ks: set<Id>) {
    && (forall f :: f in ks ==> multiset(parked)[f] + multiset(runQueue)[f] == 1)
    && (forall f :: f in parked ==> f in ks)
  }

  ghost predicate Ordered<V>(y: System<V>) {
    && y.pushed == y.popped + y.shared.queue && |y.shared.queue| <= y.shared.size
    && y.parkLog == y.wakeLog + y.shared.parked
  }

  /** While senders are parked, buffered values and woken senders fill the channel. */
  ghost predicate Filled<V>(y: System<V>) {
    y.receiverAlive && y.shared.parked != [] ==> |y.shared.queue| + Woken(y) >= y.shared.size
  }

  ghost predicate Closed<V>(y: System<V>) {
    && (forall f :: f in y.sends ==> y.sends[f].owner in y.senders)
    && (y.pending.Some? ==> y.receiverAlive)
    && (y.receiverAlive ==> y.shared.state != ReceiverClosed)
    && (y.receiverAlive ==> (y.shared.state == SenderClosed <==> y.senders == {}))
    && (!y.receiverAlive && y.senders != {} ==> y.shared.state == ReceiverClosed)
    && (y.ended ==> y.senders == {} && y.shared.queue == [])
  }

  ghost predicate Inv<V>(y: System<V>) {
    Named(y) && Placed(y) && Ordered(y) && Filled(y) && Closed(y)
  }

  lemma {:induction false} CountSplits(p: seq<Id>, q: seq<Id>, ks: set<Id>)
    ensures Count(p + q, ks) == Count(p, ks) + Count(q, ks)
  {
    if p == [] {
      assert p + q == q;
    } else {
      assert (p + q)[1..] == p[1..] + q;
      CountSplits(p[1..], q, ks);
    }
  }

  lemma {:induction false} CountSame(q: seq<Id>, ks: set<Id>, js: set<Id>)
    requires forall x :: x in q ==> (x in ks <==> x in js)
    ensures Count(q, ks) == Count(q, js)
  {
    if q != [] {
      CountSame(q[1..], ks, js);
    }
  }

  lemma {:induction false} CountWitness(q: seq<Id>, ks: set<Id>) returns (x: Id)
    requires Count(q, ks) > 0
    ensures x in q && x in ks
  {
    if q[0] in ks {
      x := q[0];
    } else {
      x := CountWitness(q[1..], ks);
    }
  }

  // ---------- one poll ----------

  /** What holds while a send future is being polled: it is in neither queue. */
  ghost predicate SendInHand<V>(y: System<V>, f: Id, future: SendFuture<V>) {
    && Named(y) && Ordered(y) && Closed(y)
    && f in y.used && f !in y.accepted && f !in y.rejected && y.shared.receiver != Some(f) && y.pending != Some(f)
    && future.owner in y.senders && f !in y.shared.parked && f !in y.runQueue
    && EachOnce(y.shared.parked, y.runQueue, y.sends.Keys - {f})
    && (y.receiverAlive && y.shared.parked != [] ==> |y.shared.queue| + Woken(y) + 1 >= y.shared.size)
  }

  lemma SendPlaced<V>(y: System<V>, f: Id, future: SendFuture<V>)
    requires EachOnce(y.shared.parked, y.runQueue, y.sends.Keys - {f})
    requires f !in y.shared.parked && f !in y.runQueue
    requires y.shared.receiver.Some? ==> y.shared.receiver.value !in y.sends
    ensures Placed(AfterSend(y, f, future))
  {
    var ks, s := y.sends.Keys - {f}, y.shared;
    if s.state != ReceiverClosed && |s.queue| >= s.size {
      ParkedOnce(s.parked, y.runQueue, f, ks);
      assert y.sends[f := future].Keys == ks + {f};
      assert y.runQueue + [] == y.runQueue;
    } else {
      var woken := PollSend(s, f, future.value).2;
      WokenOnce(s.parked, y.runQueue, woken, ks);
      assert (y.sends - {f}).Keys == ks;
    }
  }

  lemma WokenOnce(parked: seq<Id>, runQueue: seq<Id>, woken: seq<Id>, ks: set<Id>)
    requires EachOnce(parked, runQueue, ks) && forall x :: x in woken ==> x !in ks
    ensures EachOnce(parked, runQueue + woken, ks)
  {
  }

  lemma ParkedOnce(parked: seq<Id>, runQueue: seq<Id>, f: Id, ks: set<Id>)
    requires EachOnce(parked, runQueue, ks) && f !in ks && f !in runQueue && f !in parked
    ensures EachOnce(parked + [f], runQueue, ks + {f})
  {
  }

  lemma UnparkedOnce(parked: seq<Id>, runQueue: seq<Id>, ks: set<Id>)
    requires EachOnce(parked, runQueue, ks) && parked != []
    ensures EachOnce(parked[1..], runQueue + [parked[0]], ks)
  {
    var first, rest := parked[0], parked[1..];
    assert parked == [first] + rest;
    forall f | f in ks ensures multiset(rest)[f] + multiset(runQueue + [first])[f] == 1 {
      assert multiset(parked)[f] == multiset(rest)[f] + multiset{first}[f];
    }
  }

  lemma SendFilled<V>(y: System<V>, f: Id, future: SendFuture<V>)
    requires SendInHand(y, f, future)
    ensures Filled(AfterSend(y, f, future))
  {
    var r := AfterSend(y, f, future);
    CountSplits(y.runQueue, PollSend(y.shared, f, future.value).2, r.sends.Keys);
    CountSame(y.runQueue, y.sends.Keys, r.sends.Keys);
  }

  lemma SendNamed<V>(y: System<V>, f: Id, future: SendFuture<V>)
    requires SendInHand(y, f, future)
    ensures Named(AfterSend(y, f, future))
  {
  }

  lemma SendClosed<V>(y: System<V>, f: Id, future: SendFuture<V>)
    requires SendInHand(y, f, future)
    ensures Closed(AfterSend(y, f, future))
  {
  }

  lemma SendOrdered<V>(y: System<V>, f: Id, future: SendFuture<V>)
    requires SendInHand(y, f, future)
    ensures Ordered(AfterSend(y, f, future))
  {
  }

  lemma SendKeeps<V>(y: System<V>, f: Id, future: SendFuture<V>)
    requires SendInHand(y, f, future)
    ensures Inv(AfterSend(y, f, future))
  {
    SendNamed(y, f, future);
    SendClosed(y, f, future);
    SendOrdered(y, f, future);
    SendPlaced(y, f, future);
    SendFilled(y, f, future);
  }

  /** What holds while a receive future, completed or not, is being polled. */
  ghost predicate ReceiveInHand<V>(y: System<V>, r: Id) {
    Inv(y) && r in y.used && r !in y.sends
  }

  lemma PolledPlaced<V>(y: System<V>, r: Id)
    requires ReceiveInHand(y, r)
    ensures Placed(Polled(y, r))
  {
    if y.shared.queue != [] && y.shared.parked != [] {
      UnparkedOnce(y.shared.parked, y.runQueue, y.sends.Keys);
    } else {
      assert y.runQueue + [] == y.runQueue;
    }
  }

  lemma PolledFilled<V>(y: System<V>, r: Id)
    requires ReceiveInHand(y, r)
    ensures Filled(Polled(y, r))
  {
    if y.shared.queue != [] && y.shared.parked != [] {
      var first := y.shared.parked[0];
      CountSplits(y.runQueue, [first], y.sends.Keys);
      assert first in y.shared.parked;
      assert Count([first], y.sends.Keys) == 1;
    } else {
      assert Polled(y, r).runQueue == y.runQueue;
    }
  }

  lemma PolledNamed<V>(y: System<V>, r: Id)
    requires ReceiveInHand(y, r)
    ensures Named(Polled(y, r))
  {
    var woken := PollReceive(y.shared, r).2;
    assert forall x :: x in woken ==> x in y.shared.parked;
    assert forall x :: x in y.runQueue + woken ==> x in y.runQueue || x in woken;
  }

  lemma PolledOrdered<V>(y: System<V>, r: Id)
    requires ReceiveInHand(y, r)
    ensures Ordered(Polled(y, r)) && Closed(Polled(y, r))
  {
    var s := y.shared;
    if s.queue != [] {
      assert s.queue == [s.queue[0]] + s.queue[1..];
      if s.parked != [] {
        assert s.parked == [s.parked[0]] + s.parked[1..];
      }
    }
  }

  lemma PolledKeeps<V>(y: System<V>, r: Id)
    requires ReceiveInHand(y, r)
    ensures Inv(Polled(y, r))
  {
    PolledNamed(y, r);
    PolledOrdered(y, r);
    PolledPlaced(y, r);
    PolledFilled(y, r);
  }

  /** The receive whose answer is awaited also settles `pending` and, at the end of the stream, `ended`. */
  lemma ReceiveKeeps<V>(y: System<V>, r: Id)
    requires ReceiveInHand(y, r) && y.receiverAlive
    ensures Inv(AfterReceive(y, r))
  {
    PolledKeeps(y, r);
    assert Woken(AfterReceive(y, r)) == Woken(Polled(y, r));
  }

  // ---------- every step ----------

  /** Taking the oldest entry off the run queue. */
  lemma TakeOldest<V>(y: System<V>, x: Id)
    requires Inv(y) && y.runQueue != [] && y.runQueue[0] == x
    ensures var t := y.(runQueue := y.runQueue[1..]);
      if x in y.sends then SendInHand(t, x, y.sends[x]) else ReceiveInHand(t, x)
  {
    var t := y.(runQueue := y.runQueue[1..]);
    assert y.runQueue == [x] + t.runQueue;
    forall g ensures multiset(y.runQueue)[g] == multiset{x}[g] + multiset(t.runQueue)[g] {
    }
    assert Woken(y) == (if x in y.sends then 1 else 0) + Woken(t);
  }

  lemma StartKeeps<V>(y: System<V>, a: Action<V>)
    requires Inv(y) && Enabled(y, a) && (a.StartSend? || a.StartReceive?)
    ensures Inv(Next(y, a))
  {
    var t := y.(used := y.used + {a.future});
    assert Woken(t) == Woken(y);
    if a.StartSend? {
      assert a.future !in multiset(y.runQueue) && a.future !in y.shared.parked;
      SendKeeps(t, a.future, SendFuture(a.value, a.owner));
    } else {
      ReceiveKeeps(t, a.future);
    }
  }

  lemma RunNextKeeps<V>(y: System<V>)
    requires Inv(y) && y.runQueue != []
    ensures Inv(Next(y, RunNext))
  {
    var x, t := y.runQueue[0], y.(runQueue := y.runQueue[1..]);
    TakeOldest(y, x);
    if x in y.sends {
      SendKeeps(t, x, y.sends[x]);
    } else if y.pending == Some(x) {
      ReceiveKeeps(t, x);
    } else {
      PolledKeeps(t, x);
      assert Woken(AfterStray(t, x)) == Woken(Polled(t, x));
    }
  }

  lemma StepKeeps<V>(y: System<V>, a: Action<V>)
    requires Inv(y) && Enabled(y, a)
    ensures Inv(Next(y, a))
  {
    match a
    case StartSend(f, owner, v) => StartKeeps(y, a);
    case StartReceive(r) => StartKeeps(y, a);
    case RunNext => RunNextKeeps(y);
    case CopySender(x) => assert Woken(Next(y, a)) == Woken(y);
    case DestroySender(x) => DestroyKeeps(y, x);
    case CloseReceiver =>
  }

  lemma DestroyKeeps<V>(y: System<V>, x: Id)
    requires Inv(y) && Enabled(y, DestroySender(x))
    ensures Inv(Next(y, DestroySender(x)))
  {
    var z := Next(y, DestroySender(x));
    assert |y.senders - {x}| == |y.senders| - 1;
    assert Woken(z) == Woken(y);
    if z.receiverAlive && z.shared.state == SenderClosed {
      assert |z.senders| == 0 || y.senders == {};
    }
  }

  lemma {:induction false} RunKeeps<V>(states: seq<System<V>>, actions: seq<Action<V>>, n: nat)
    requires IsRun(states, actions) && n < |states|
    ensures Inv(states[n])
  {
    if n != 0 {
      RunKeeps(states, actions, n - 1);
      StepKeeps(states[n - 1], actions[n - 1]);
    }
  }

  // ---------- what every run guarantees ----------

  /**
    No stranded sender: whenever a receive waits on an empty buffer while senders
    are parked, one of the senders already woken is still in the run queue.
   */
  lemma NoStrandedSender<V>(states: seq<System<V>>, actions: seq<Action<V>>, n: nat) returns (f: Id)
    requires IsRun(states, actions) && n < |states|
    requires states[n].shared.size > 0 && states[n].pending.Some?
    requires states[n].shared.queue == [] && states[n].shared.parked != []
    ensures f in states[n].sends && f in states[n].runQueue && f !in states[n].shared.parked
  {
    RunKeeps(states, actions, n);
    var y := states[n];
    f := CountWitness(y.runQueue, y.sends.Keys);
    assert multiset(y.runQueue)[f] >= 1;
    assert multiset(y.shared.parked)[f] == 0;
  }

  /** End of stream: a receive yields nothing only once every sender is gone and every accepted value was received. */
  lemma EndOfStream<V>(states: seq<System<V>>, actions: seq<Action<V>>, n: nat)
    requires IsRun(states, actions) && n < |states| && states[n].ended
    ensures states[n].senders == {} && states[n].sends == map[] && states[n].popped == states[n].pushed
  {
    RunKeeps(states, actions, n);
    assert states[n].sends.Keys == {};
  }

  /** And the stream does end: with no sender left a receive on an empty buffer yields nothing. */
  lemma StreamEnds<V>(states: seq<System<V>>, actions: seq<Action<V>>, n: nat, r: Id)
    requires IsRun(states, actions) && n < |states|
    requires states[n].receiverAlive && states[n].senders == {} && states[n].shared.queue == []
    ensures PollReceive(states[n].shared, r).1 == Ended
  {
    RunKeeps(states, actions, n);
  }

  /** Once the receiver is gone no send is accepted any more. */
  lemma NoSendAfterClose<V>(states: seq<System<V>>, actions: seq<Action<V>>, n: nat)
    requires IsRun(states, actions) && n < |actions| && !states[n].receiverAlive
    ensures states[n + 1].pushed == states[n].pushed && states[n + 1].accepted == states[n].accepted
  {
    RunKeeps(states, actions, n);
    assert states[n + 1] == Next(states[n], actions[n]);
  }

  /**
    Channel order: values come out in the order they went in, never more than the
    capacity between, and parked senders are woken in the order they parked.
   */
  lemma ChannelOrder<V>(states: seq<System<V>>, actions: seq<Action<V>>, n: nat)
    requires IsRun(states, actions) && n < |states|
    ensures states[n].pushed == states[n].popped + states[n].shared.queue
    ensures |states[n].shared.queue| <= states[n].shared.size && states[n].accepted !! states[n].rejected
    ensures states[n].parkLog == states[n].wakeLog + states[n].shared.parked
  {
    RunKeeps(states, actions, n);
  }

  /** While senders are parked, buffered values and woken senders fill the channel, and no send future is in both queues. */
  lemma ParkedMeansFull<V>(states: seq<System<V>>, actions: seq<Action<V>>, n: nat, f: Id)
    requires IsRun(states, actions) && n < |states|
    requires states[n].receiverAlive && states[n].shared.parked != []
    ensures |states[n].shared.queue| + Woken(states[n]) >= states[n].shared.size
    ensures f in states[n].sends ==> multiset(states[n].shared.parked)[f] + multiset(states[n].runQueue)[f] == 1
  {
    RunKeeps(states, actions, n);
  }

  /** No value is handed back while the receiver lives, and it does not come back. */
  predicate KeepsSends<V>(y: System<V>, z: System<V>) {
    z.receiverAlive ==> y.receiverAlive && z.rejected == y.rejected
  }

  lemma KeepsSendsStep<V>(y: System<V>, a: Action<V>)
    requires Closed(y) && Enabled(y, a)
    ensures KeepsSends(y, Next(y, a))
  {
  }

  lemma {:induction false} KeptSends<V>(states: seq<System<V>>, n: nat)
    requires n < |states| && states[0].rejected == {}
    requires forall i :: 0 <= i < n ==> KeepsSends(states[i], states[i + 1])
    ensures states[n].receiverAlive ==> states[n].rejected == {}
  {
    if n != 0 {
      KeptSends(states, n - 1);
      assert KeepsSends(states[n - 1], states[(n - 1) + 1]);
    }
  }

  /** A value is handed back only once the receiver is gone. */
  lemma RejectedIsClosed<V>(states: seq<System<V>>, actions: seq<Action<V>>, n: nat)
    requires IsRun(states, actions) && n < |states|
    ensures states[n].receiverAlive ==> states[n].rejected == {}
  {
    forall i | 0 <= i < n ensures KeepsSends(states[i], states[i + 1]) {
      RunKeeps(states, actions, i);
      KeepsSendsStep(states[i], actions[i]);
    }
    KeptSends(states, n);
  }

  // ---------- handles and sends ----------

  /** How a step changes whether sender handle x is alive. */
  predicate HandleLaw<V>(y: System<V>, a: Action<V>, z: System<V>, x: Id) {
    x in z.senders <==> (a.CopySender? && a.sender == x) || (x in y.senders && !(a.DestroySender? && a.sender == x))
  }

  lemma HandleStep<V>(y: System<V>, a: Action<V>, x: Id)
    requires Enabled(y, a)
    ensures HandleLaw(y, a, Next(y, a), x)
  {
  }

  /** Handle x lives in state n, judged by the steps alone: it was there or copied, and not destroyed since. */
  predicate Lives<V>(states: seq<System<V>>, actions: seq<Action<V>>, n: nat, x: Id)
    requires n <= |actions| < |states|
  {
    if n == 0 then x in states[0].senders
    else if actions[n - 1].CopySender? && actions[n - 1].sender == x then true
    else if actions[n - 1].DestroySender? && actions[n - 1].sender == x then false
    else Lives(states, actions, n - 1, x)
  }

  /** In every run the live sender handles are the first one and the copies, less those destroyed. */
  lemma {:induction false} HandlesAreKept<V>(states: seq<System<V>>, actions: seq<Action<V>>, n: nat, x: Id)
    requires IsRun(states, actions) && n <= |actions|
    ensures x in states[n].senders <==> Lives(states, actions, n, x)
  {
    if n != 0 {
      HandlesAreKept(states, actions, n - 1, x);
      HandleStep(states[n - 1], actions[n - 1], x);
      assert states[n] == Next(states[n - 1], actions[n - 1]);
    }
  }

  predicate Accounted<V>(y: System<V>, f: Id) {
    f in y.sends || f in y.accepted || f in y.rejected
  }

  predicate AccountLaw<V>(y: System<V>, a: Action<V>, z: System<V>, f: Id) {
    Accounted(z, f) <==> Accounted(y, f) || (a.StartSend? && a.future == f)
  }

  lemma SendAccounts<V>(y: System<V>, g: Id, future: SendFuture<V>, f: Id)
    ensures Accounted(AfterSend(y, g, future), f) <==> Accounted(y, f) || f == g
  {
  }

  lemma AccountStep<V>(y: System<V>, a: Action<V>, f: Id)
    requires Enabled(y, a)
    ensures AccountLaw(y, a, Next(y, a), f)
  {
    match a
    case StartSend(g, owner, v) => SendAccounts(y.(used := y.used + {g}), g, SendFuture(v, owner), f);
    case RunNext =>
      if y.runQueue[0] in y.sends {
        SendAccounts(y.(runQueue := y.runQueue[1..]), y.runQueue[0], y.sends[y.runQueue[0]], f);
      }
    case _ =>
  }

  lemma {:induction false} AccountedAlong<V>(states: seq<System<V>>, actions: seq<Action<V>>, n: nat, f: Id)
    requires n <= |actions| < |states| && !Accounted(states[0], f)
    requires forall i :: 0 <= i < n ==> AccountLaw(states[i], actions[i], states[i + 1], f)
    ensures Accounted(states[n], f) <==> exists k :: 0 <= k < n && actions[k].StartSend? && actions[k].future == f
  {
    if n != 0 {
      AccountedAlong(states, actions, n - 1, f);
      assert AccountLaw(states[n - 1], actions[n - 1], states[(n - 1) + 1], f);
    }
  }

  /** In every run each send that was started is unfinished, accepted or handed back, one of the three, and no other is. */
  lemma SendsAreAccounted<V>(states: seq<System<V>>, actions: seq<Action<V>>, n: nat, f: Id)
    requires IsRun(states, actions) && n < |states|
    ensures Accounted(states[n], f) <==> exists k :: 0 <= k < n && actions[k].StartSend? && actions[k].future == f
    ensures !(f in states[n].sends && f in states[n].accepted) && !(f in states[n].sends && f in states[n].rejected)
    ensures !(f in states[n].accepted && f in states[n].rejected)
  {
    forall i | 0 <= i < n ensures AccountLaw(states[i], actions[i], states[i + 1], f) {
      AccountStep(states[i], actions[i], f);
    }
    AccountedAlong(states, actions, n, f);
    RunKeeps(states, actions, n);
  }

  // ---------- whose value ----------

  /** The send f was given v in the first n steps. */
  ghost predicate Given<V>(actions: seq<Action<V>>, n: nat, f: Id, v: V) {
    exists k :: 0 <= k < n && k < |actions| && actions[k].StartSend? && actions[k].future == f && actions[k].value == v
  }

  /** Every unfinished send holds the value it was given, and what each accepted one pushed is that value. */
  ghost predicate Genuine<V>(y: System<V>, actions: seq<Action<V>>, n: nat) {
    && |y.pushers| == |y.pushed|
    && (forall f :: f in y.sends ==> Given(actions, n, f, y.sends[f].value))
    && (forall i :: 0 <= i < |y.pushed| ==> Given(actions, n, y.pushers[i], y.pushed[i]))
  }

  lemma GivenLater<V>(actions: seq<Action<V>>, n: nat, f: Id, v: V)
    requires Given(actions, n, f, v)
    ensures Given(actions, n + 1, f, v)
  {
  }

  /** From y to z the send f pushed its own value or kept it, and no other send's value changed. */
  predicate OwnValue<V(==)>(y: System<V>, z: System<V>, f: Id, future: SendFuture<V>) {
    && (|| (z.pushed == y.pushed && z.pushers == y.pushers)
        || (z.pushed == y.pushed + [future.value] && z.pushers == y.pushers + [f]))
    && (forall g :: g in z.sends ==> if g == f then z.sends[g] == future else g in y.sends && z.sends[g] == y.sends[g])
  }

  lemma SendValues<V>(y: System<V>, f: Id, future: SendFuture<V>)
    ensures OwnValue(y, AfterSend(y, f, future), f, future)
  {
  }

  /** Which send future a step polls. */
  function PollsSend<V>(y: System<V>, a: Action<V>): Option<(Id, SendFuture<V>)> {
    match a
    case StartSend(f, owner, v) => Some((f, SendFuture(v, owner)))
    case RunNext =>
      if y.runQueue != [] && y.runQueue[0] in y.sends then Some((y.runQueue[0], y.sends[y.runQueue[0]])) else None
    case _ => None
  }

  lemma ValuesStep<V>(y: System<V>, a: Action<V>)
    requires Enabled(y, a)
    ensures var z := Next(y, a);
      match PollsSend(y, a)
      case None => z.pushed == y.pushed && z.pushers == y.pushers && z.sends == y.sends
      case Some((f, future)) => OwnValue(y, z, f, future)
  {
    match a
    case StartSend(f, owner, v) => SendValues(y.(used := y.used + {f}), f, SendFuture(v, owner));
    case RunNext => RunNextValues(y);
    case _ =>
  }

  lemma RunNextValues<V>(y: System<V>)
    requires y.runQueue != []
    ensures var x, z := y.runQueue[0], Next(y, RunNext);
      if x in y.sends then OwnValue(y, z, x, y.sends[x])
      else z.pushed == y.pushed && z.pushers == y.pushers && z.sends == y.sends
  {
    var x := y.runQueue[0];
    if x in y.sends {
      SendValues(y.(runQueue := y.runQueue[1..]), x, y.sends[x]);
    }
  }

  lemma PolledIsGiven<V>(y: System<V>, actions: seq<Action<V>>, n: nat)
    requires n < |actions| && Enabled(y, actions[n]) && Genuine(y, actions, n) && PollsSend(y, actions[n]).Some?
    ensures var (f, future) := PollsSend(y, actions[n]).value; Given(actions, n + 1, f, future.value)
  {
    var (f, future) := PollsSend(y, actions[n]).value;
    if actions[n].RunNext? {
      GivenLater(actions, n, f, future.value);
    }
  }

  lemma GenuineStep<V>(y: System<V>, actions: seq<Action<V>>, n: nat, z: System<V>)
    requires n < |actions| && Enabled(y, actions[n]) && Genuine(y, actions, n) && z == Next(y, actions[n])
    ensures Genuine(z, actions, n + 1)
  {
    ValuesStep(y, actions[n]);
    if PollsSend(y, actions[n]).Some? {
      PolledIsGiven(y, actions, n);
    }
    forall g | g in z.sends ensures Given(actions, n + 1, g, z.sends[g].value) {
      if g in y.sends && z.sends[g] == y.sends[g] {
        GivenLater(actions, n, g, y.sends[g].value);
      }
    }
    forall i | 0 <= i < |z.pushed| ensures Given(actions, n + 1, z.pushers[i], z.pushed[i]) {
      if i < |y.pushed| {
        GivenLater(actions, n, y.pushers[i], y.pushed[i]);
      }
    }
  }

  ghost predicate GenuineKept<V>(y: System<V>, actions: seq<Action<V>>, n: nat, z: System<V>) {
    Genuine(y, actions, n) ==> Genuine(z, actions, n + 1)
  }

  lemma {:induction false} GenuineAlong<V>(states: seq<System<V>>, actions: seq<Action<V>>, n: nat)
    requires n < |states| && Genuine(states[0], actions, 0)
    requires forall i :: 0 <= i < n ==> GenuineKept(states[i], actions, i, states[i + 1])
    ensures Genuine(states[n], actions, n)
  {
    if n != 0 {
      GenuineAlong(states, actions, n - 1);
      assert GenuineKept(states[n - 1], actions, n - 1, states[(n - 1) + 1]);
    }
  }

  /** In every run the i-th value pushed is the one its sender was given, parked in between or not. */
  lemma PushedIsGiven<V>(states: seq<System<V>>, actions: seq<Action<V>>, n: nat)
    requires IsRun(states, actions) && n < |states|
    ensures Genuine(states[n], actions, n)
  {
    forall i | 0 <= i < n ensures GenuineKept(states[i], actions, i, states[i + 1]) {
      if Genuine(states[i], actions, i) {
        GenuineStep(states[i], actions, i, states[i + 1]);
      }
    }
    GenuineAlong(states, actions, n);
  }

  // ---------- in what order futures are polled again ----------

  /** The step polls a receive, new or taken from the run queue, that finds a value. */
  predicate Pops<V>(y: System<V>, a: Action<V>) {
    && (a.StartReceive? || (a.RunNext? && y.runQueue != [] && y.runQueue[0] !in y.sends))
    && y.shared.queue != []
  }

  /** What a step schedules: at a push the receive in the slot, at a pop the longest parked sender. */
  function Schedules<V>(y: System<V>, a: Action<V>): seq<Id> {
    if Pushes(y, a) && y.shared.receiver.Some? then [y.shared.receiver.value]
    else if Pops(y, a) && y.shared.parked != [] then [y.shared.parked[0]]
    else []
  }

  lemma ScheduleStep<V>(y: System<V>, a: Action<V>)
    requires Enabled(y, a)
    ensures Next(y, a).runQueue == (if a.RunNext? then y.runQueue[1..] else y.runQueue) + Schedules(y, a)
  {
    match a
    case StartSend(f, owner, v) => SendSchedules(y.(used := y.used + {f}), f, SendFuture(v, owner));
    case StartReceive(r) => ReceiveSchedules(y.(used := y.used + {r}), r);
    case RunNext => RunNextSchedules(y);
    case _ =>
  }

  lemma SendSchedules<V>(y: System<V>, f: Id, future: SendFuture<V>)
    ensures AfterSend(y, f, future).runQueue == y.runQueue +
      if y.shared.state != ReceiverClosed && |y.shared.queue| < y.shared.size && y.shared.receiver.Some?
      then [y.shared.receiver.value] else []
  {
  }

  lemma ReceiveSchedules<V>(y: System<V>, r: Id)
    ensures Polled(y, r).runQueue == AfterReceive(y, r).runQueue == AfterStray(y, r).runQueue
    ensures Polled(y, r).runQueue
         == y.runQueue + if y.shared.queue != [] && y.shared.parked != [] then [y.shared.parked[0]] else []
  {
  }

  lemma RunNextSchedules<V>(y: System<V>)
    requires y.runQueue != []
    ensures Next(y, RunNext).runQueue == y.runQueue[1..] + Schedules(y, RunNext)
  {
    var x, t := y.runQueue[0], y.(runQueue := y.runQueue[1..]);
    if x in y.sends {
      SendSchedules(t, x, y.sends[x]);
    } else {
      ReceiveSchedules(t, x);
    }
  }

  /** Everything scheduled in the first n steps, and everything a worker took, in order. */
  function ScheduledIn<V>(states: seq<System<V>>, actions: seq<Action<V>>, n: nat): seq<Id>
    requires n <= |actions| < |states|
  {
    if n == 0 then [] else ScheduledIn(states, actions, n - 1) + Schedules(states[n - 1], actions[n - 1])
  }

  function TakenIn<V>(states: seq<System<V>>, actions: seq<Action<V>>, n: nat): seq<Id>
    requires n <= |actions| < |states|
  {
    if n == 0 then []
    else
      TakenIn(states, actions, n - 1) +
      if actions[n - 1].RunNext? && states[n - 1].runQueue != [] then states[n - 1].runQueue[..1] else []
  }

  /** Futures are polled again in the order they were scheduled, woken senders included. */
  lemma {:induction false} PolledInOrder<V>(states: seq<System<V>>, actions: seq<Action<V>>, n: nat)
    requires IsRun(states, actions) && n <= |actions|
    ensures ScheduledIn(states, actions, n) == TakenIn(states, actions, n) + states[n].runQueue
  {
    if n != 0 {
      PolledInOrder(states, actions, n - 1);
      ScheduleStep(states[n - 1], actions[n - 1]);
      assert Enabled(states[n - 1], actions[n - 1]) && states[n] == Next(states[n - 1], actions[n - 1]);
      OneStepOrder(ScheduledIn(states, actions, n - 1), TakenIn(states, actions, n - 1), states[n - 1].runQueue,
        Schedules(states[n - 1], actions[n - 1]));
    }
  }

  lemma OneStepOrder(all: seq<Id>, taken: seq<Id>, queue: seq<Id>, more: seq<Id>)
    requires all == taken + queue
    ensures all + more == taken + [] + (queue + more)
    ensures queue != [] ==> all + more == taken + queue[..1] + (queue[1..] + more)
  {
  }

  // ---------- the receiver slot is never cleared ----------

  /** The run queue's next entry is a receive that already completed. */
  predicate Stray<V>(y: System<V>, a: Action<V>) {
    a.RunNext? && y.runQueue != [] && y.runQueue[0] !in y.sends && y.pending != Some(y.runQueue[0])
  }

  /** The receiver slot names the receive that waits. */
  predicate Aimed<V>(y: System<V>) {
    y.pending.Some? ==> y.shared.receiver == y.pending
  }

  /** A receive that waits beside buffered values is scheduled. */
  predicate Notified<V>(y: System<V>) {
    y.pending.Some? && y.shared.queue != [] ==> y.pending.value in y.runQueue
  }

  /** No completed receive is polled on an open, empty channel while another receive waits. */
  predicate Harmless<V>(y: System<V>, a: Action<V>) {
    Stray(y, a) && y.pending.Some? ==> y.shared.queue != [] || y.shared.state == SenderClosed
  }

  /** A step keeps the receiver slot on the receive that waits if and only if it is harmless. */
  lemma AimedStep<V>(y: System<V>, a: Action<V>)
    requires Inv(y) && Aimed(y) && Enabled(y, a)
    ensures Aimed(Next(y, a)) <==> Harmless(y, a)
  {
    match a
    case StartSend(f, owner, v) => SendAims(y.(used := y.used + {f}), f, SendFuture(v, owner));
    case RunNext =>
      if y.runQueue[0] in y.sends {
        SendAims(y.(runQueue := y.runQueue[1..]), y.runQueue[0], y.sends[y.runQueue[0]]);
      } else {
        ReceiveAims(y.(runQueue := y.runQueue[1..]), y.runQueue[0]);
      }
    case StartReceive(r) => ReceiveAims(y.(used := y.used + {r}), r);
    case _ =>
  }

  lemma SendAims<V>(y: System<V>, f: Id, future: SendFuture<V>)
    ensures Aimed(AfterSend(y, f, future)) <==> Aimed(y)
  {
  }

  lemma ReceiveAims<V>(y: System<V>, r: Id)
    ensures Aimed(AfterReceive(y, r))
    ensures Aimed(y) && y.pending != Some(r) ==>
      (Aimed(AfterStray(y, r)) <==> (y.pending.Some? ==> y.shared.queue != [] || y.shared.state == SenderClosed))
  {
  }

  /** The step polls a send that finds room. */
  predicate Pushes<V>(y: System<V>, a: Action<V>) {
    && (a.StartSend? || (a.RunNext? && y.runQueue != [] && y.runQueue[0] in y.sends))
    && y.shared.state != ReceiverClosed && |y.shared.queue| < y.shared.size
  }

  /** A push while a receive waits finds the receiver slot on it, or finds it scheduled already. */
  predicate Reaches<V>(y: System<V>, a: Action<V>) {
    Pushes(y, a) && y.pending.Some? ==> y.shared.receiver == y.pending || y.pending.value in y.runQueue
  }

  /** The same about a send future in hand: a push schedules the receive in the receiver slot and no other. */
  lemma SendNotifies<V>(y: System<V>, f: Id, future: SendFuture<V>)
    requires Notified(y)
    ensures Notified(AfterSend(y, f, future)) <==>
      (y.shared.state != ReceiverClosed && |y.shared.queue| < y.shared.size && y.pending.Some? ==>
         y.shared.receiver == y.pending || y.pending.value in y.runQueue)
  {
    var woken := PollSend(y.shared, f, future.value).2;
    assert forall x :: x in y.runQueue + woken <==> x in y.runQueue || x in woken;
    if woken != [] {
      assert woken == [y.shared.receiver.value];
    }
  }

  lemma PolledNotifies<V>(y: System<V>, r: Id)
    requires Notified(y)
    ensures Notified(Polled(y, r)) && Notified(AfterReceive(y, r))
  {
    var woken := PollReceive(y.shared, r).2;
    assert forall x :: x in y.runQueue ==> x in y.runQueue + woken;
  }

  lemma RunNextNotifies<V>(y: System<V>)
    requires Named(y) && Notified(y) && y.runQueue != []
    ensures Notified(Next(y, RunNext)) <==> Reaches(y, RunNext)
  {
    var x, t := y.runQueue[0], y.(runQueue := y.runQueue[1..]);
    assert y.runQueue == [x] + t.runQueue;
    if x in y.sends {
      SendNotifies(t, x, y.sends[x]);
    } else if y.pending == Some(x) {
      PolledNotifies(t.(pending := None), x);
    } else {
      PolledNotifies(t, x);
    }
  }

  /** A step keeps every waiting receive scheduled beside buffered values if and only if its push, if any, reaches it. */
  lemma NotifiedStep<V>(y: System<V>, a: Action<V>)
    requires Inv(y) && Notified(y) && Enabled(y, a)
    ensures Notified(Next(y, a)) <==> Reaches(y, a)
  {
    match a
    case StartSend(f, owner, v) => SendNotifies(y.(used := y.used + {f}), f, SendFuture(v, owner));
    case StartReceive(r) => PolledNotifies(y.(used := y.used + {r}), r);
    case RunNext =>
      RunNextNotifies(y);
    case CopySender(_) =>
    case DestroySender(_) =>
    case CloseReceiver =>
  }

  ghost predicate AllHarmless<V>(states: seq<System<V>>, actions: seq<Action<V>>, n: nat) {
    forall i :: 0 <= i < n && i < |actions| < |states| ==> Harmless(states[i], actions[i])
  }

  lemma {:induction false} AimedWhileHarmless<V>(states: seq<System<V>>, actions: seq<Action<V>>, n: nat)
    requires IsRun(states, actions) && n < |states| && AllHarmless(states, actions, n)
    ensures Aimed(states[n])
  {
    if n != 0 {
      AimedWhileHarmless(states, actions, n - 1);
      RunKeeps(states, actions, n - 1);
      assert Harmless(states[n - 1], actions[n - 1]);
      AimedStep(states[n - 1], actions[n - 1]);
    }
  }

  /** Over whole runs: the slot is right at every point if and only if every step was harmless. */
  lemma {:induction false} AimedIffHarmless<V>(states: seq<System<V>>, actions: seq<Action<V>>, n: nat)
    requires IsRun(states, actions) && n < |states|
    ensures (forall i :: 0 <= i <= n ==> Aimed(states[i])) <==> AllHarmless(states, actions, n)
  {
    if n != 0 {
      AimedIffHarmless(states, actions, n - 1);
      RunKeeps(states, actions, n - 1);
      if AllHarmless(states, actions, n - 1) {
        AimedWhileHarmless(states, actions, n - 1);
        AimedStep(states[n - 1], actions[n - 1]);
        assert states[n] == Next(states[n - 1], actions[n - 1]);
        assert AllHarmless(states, actions, n) <==> Harmless(states[n - 1], actions[n - 1]);
      }
    }
  }

  ghost predicate AllReach<V>(states: seq<System<V>>, actions: seq<Action<V>>, n: nat) {
    forall i :: 0 <= i < n && i < |actions| < |states| ==> Reaches(states[i], actions[i])
  }

  /** A receive that waits beside buffered values is scheduled, in every run whose pushes so far reached it. */
  lemma {:induction false} PendingReceiveIsWoken<V>(states: seq<System<V>>, actions: seq<Action<V>>, n: nat)
    requires IsRun(states, actions) && n < |states| && AllReach(states, actions, n)
    ensures Notified(states[n])
  {
    if n != 0 {
      PendingReceiveIsWoken(states, actions, n - 1);
      RunKeeps(states, actions, n - 1);
      NotifiedStep(states[n - 1], actions[n - 1]);
      assert Reaches(states[n - 1], actions[n - 1]);
    }
  }

  /** Over whole runs: it is so at every point if and only if every push reached the receive that waited. */
  lemma {:induction false} NotifiedIffReach<V>(states: seq<System<V>>, actions: seq<Action<V>>, n: nat)
    requires IsRun(states, actions) && n < |states|
    ensures (forall i :: 0 <= i <= n ==> Notified(states[i])) <==> AllReach(states, actions, n)
  {
    if n != 0 {
      NotifiedIffReach(states, actions, n - 1);
      if AllReach(states, actions, n - 1) {
        assert Notified(states[n - 1]);
        RunKeeps(states, actions, n - 1);
        NotifiedStep(states[n - 1], actions[n - 1]);
        assert states[n] == Next(states[n - 1], actions[n - 1]);
        assert AllReach(states, actions, n) <==> Reaches(states[n - 1], actions[n - 1]);
      }
    }
  }

  /** In particular when the receiver slot is never taken from the receive that waits. */
  lemma HarmlessReaches<V>(states: seq<System<V>>, actions: seq<Action<V>>, n: nat)
    requires IsRun(states, actions) && n < |states| && AllHarmless(states, actions, n)
    ensures AllReach(states, actions, n) && Notified(states[n])
  {
    forall i | 0 <= i < n ensures Reaches(states[i], actions[i]) {
      AimedWhileHarmless(states, actions, i);
    }
    PendingReceiveIsWoken(states, actions, n);
  }

  /** A step loses a value if and only if it polls a completed receive on a non-empty buffer. */
  predicate Loses<V>(y: System<V>, a: Action<V>) {
    Stray(y, a) && y.shared.queue != []
  }

  lemma LostStep<V>(y: System<V>, a: Action<V>)
    requires Enabled(y, a)
    ensures Next(y, a).lost == y.lost + if Loses(y, a) then [y.shared.queue[0]] else []
  {
  }

  ghost predicate NoneLoses<V>(states: seq<System<V>>, actions: seq<Action<V>>, n: nat) {
    forall i :: 0 <= i < n && i < |actions| < |states| ==> !Loses(states[i], actions[i])
  }

  /** Over whole runs: every value popped went to a caller if and only if no step lost one. */
  lemma {:induction false} LostIffLoses<V>(states: seq<System<V>>, actions: seq<Action<V>>, n: nat)
    requires IsRun(states, actions) && n < |states|
    ensures states[n].lost == [] <==> NoneLoses(states, actions, n)
  {
    if n != 0 {
      LostIffLoses(states, actions, n - 1);
      LostStep(states[n - 1], actions[n - 1]);
      assert states[n] == Next(states[n - 1], actions[n - 1]);
      assert NoneLoses(states, actions, n) <==>
        NoneLoses(states, actions, n - 1) && !Loses(states[n - 1], actions[n - 1]);
    }
  }

  // ---------- when no completed receive is ever scheduled ----------

  /** Every entry of the run queue is an unfinished send or the receive that waits, the latter at most once. */
  ghost predicate LiveQueue<V>(y: System<V>) {
    && (forall x :: x in y.runQueue ==> x in y.sends || y.pending == Some(x))
    && (y.pending.Some? ==> multiset(y.runQueue)[y.pending.value] <= 1)
  }

  /** A push finds the receiver slot empty, or on the receive that waits and is not scheduled yet. */
  predicate Quiet<V>(y: System<V>, a: Action<V>) {
    Pushes(y, a) && y.shared.receiver.Some? ==>
      y.shared.receiver == y.pending && y.pending.value !in y.runQueue
  }

  /** The same about a send future in hand: a push adds the entry of the receiver slot. */
  lemma SendLive<V>(y: System<V>, f: Id, future: SendFuture<V>)
    requires Named(y) && LiveQueue(y) && f !in y.runQueue && y.pending != Some(f) && y.shared.receiver != Some(f)
    ensures LiveQueue(AfterSend(y, f, future)) <==>
      (y.shared.state != ReceiverClosed && |y.shared.queue| < y.shared.size && y.shared.receiver.Some? ==>
         y.shared.receiver == y.pending && y.pending.value !in y.runQueue)
  {
    var z, woken := AfterSend(y, f, future), PollSend(y.shared, f, future.value).2;
    assert forall x :: x in z.runQueue <==> x in y.runQueue || x in woken;
    if woken != [] {
      assert woken[0] in z.runQueue;
    }
  }

  lemma OnlySends(q: seq<Id>, woken: seq<Id>, ks: set<Id>, r: Id)
    requires (forall x :: x in q ==> x in ks) && (forall x :: x in woken ==> x in ks) && r !in ks
    ensures (forall x :: x in q + woken ==> x in ks) && multiset(q + woken)[r] == 0
  {
    assert forall x :: x in q + woken ==> x in q || x in woken;
    assert r !in q + woken;
  }

  /** A receive poll adds only parked senders. */
  lemma ReceiveLive<V>(y: System<V>, r: Id)
    requires r !in y.sends && forall x :: x in y.runQueue + y.shared.parked ==> x in y.sends.Keys
    ensures LiveQueue(AfterReceive(y, r))
  {
    var woken := PollReceive(y.shared, r).2;
    assert forall x :: x in woken ==> x in y.shared.parked;
    assert forall x :: x in y.runQueue || x in y.shared.parked ==> x in y.runQueue + y.shared.parked;
    OnlySends(y.runQueue, woken, y.sends.Keys, r);
    assert AfterReceive(y, r).runQueue == y.runQueue + woken;
  }

  /** Once its entry is taken, the receive that waits has no other. */
  lemma TakeLive<V>(y: System<V>, x: Id)
    requires Named(y) && Placed(y) && LiveQueue(y) && y.runQueue != [] && y.runQueue[0] == x
    ensures x !in y.runQueue[1..]
    ensures LiveQueue(y.(runQueue := y.runQueue[1..]))
    ensures forall z :: z in y.runQueue && z != x ==> z in y.runQueue[1..]
  {
    var rest: seq<Id> := y.runQueue[1..];
    assert y.runQueue == [x] + rest;
    assert multiset(y.runQueue)[x] == multiset(rest)[x] + 1;
    assert x in y.sends ==> multiset(y.shared.parked)[x] + multiset(y.runQueue)[x] == 1;
    assert multiset(rest) <= multiset(y.runQueue);
  }

  /** A step keeps the run queue live if and only if it is quiet. */
  lemma LiveStep<V>(y: System<V>, a: Action<V>)
    requires Inv(y) && LiveQueue(y) && Enabled(y, a)
    ensures LiveQueue(Next(y, a)) <==> Quiet(y, a)
  {
    match a
    case StartSend(f, owner, v) =>
      SendLive(y.(used := y.used + {f}), f, SendFuture(v, owner));
    case StartReceive(r) =>
      ReceiveLive(y.(used := y.used + {r}), r);
    case RunNext =>
      var x, t := y.runQueue[0], y.(runQueue := y.runQueue[1..]);
      TakeLive(y, x);
      TakeOldest(y, x);
      if x in y.sends {
        SendLive(t, x, y.sends[x]);
      } else {
        ReceiveLive(t, x);
      }
    case CopySender(_) =>
    case DestroySender(_) =>
    case CloseReceiver =>
  }

  ghost predicate AllQuiet<V>(states: seq<System<V>>, actions: seq<Action<V>>, n: nat) {
    forall i :: 0 <= i < n && i < |actions| < |states| ==> Quiet(states[i], actions[i])
  }

  /** Over whole runs: the run queue is live at every point if and only if every step was quiet. */
  lemma {:induction false} LiveIffQuiet<V>(states: seq<System<V>>, actions: seq<Action<V>>, n: nat)
    requires IsRun(states, actions) && n < |states|
    ensures (forall i :: 0 <= i <= n ==> LiveQueue(states[i])) <==> AllQuiet(states, actions, n)
  {
    if n != 0 {
      LiveIffQuiet(states, actions, n - 1);
      RunKeeps(states, actions, n - 1);
      if AllQuiet(states, actions, n - 1) {
        assert LiveQueue(states[n - 1]);
        LiveStep(states[n - 1], actions[n - 1]);
        assert states[n] == Next(states[n - 1], actions[n - 1]);
        assert AllQuiet(states, actions, n) <==> Quiet(states[n - 1], actions[n - 1]);
      }
    }
  }

  /** And then no completed receive is ever polled, so every step is harmless and no value is lost. */
  lemma QuietIsHarmless<V>(states: seq<System<V>>, actions: seq<Action<V>>, n: nat)
    requires IsRun(states, actions) && n < |states| && AllQuiet(states, actions, n)
    ensures forall i :: 0 <= i < n ==> !Stray(states[i], actions[i])
    ensures AllHarmless(states, actions, n) && states[n].lost == []
  {
    LiveIffQuiet(states, actions, n);
    LostIffLoses(states, actions, n);
    forall i | 0 <= i < n ensures !Stray(states[i], actions[i]) {
      assert LiveQueue(states[i]);
    }
  }

  // ---------- runs that go wrong ----------

  lemma Extend<V>(states: seq<System<V>>, actions: seq<Action<V>>, a: Action<V>, y: System<V>)
    requires IsRun(states, actions) && Enabled(states[|actions|], a) && y == Next(states[|actions|], a)
    ensures IsRun(states + [y], actions + [a])
  {
  }

  /** A receive waits on the empty buffer of a channel of two. */
  function Waiting<V>(): System<V> {
    System(Shared(2, [], [], Some(1), Open), [], map[], Some(1), {0}, true, {1}, [], [], [], [], [], [], {}, {}, false)
  }

  lemma WaitingRun<V>() returns (states: seq<System<V>>, actions: seq<Action<V>>)
    ensures IsRun(states, actions) && states[|actions|] == Waiting()
  {
    var y := System(Shared(2, [], [], None, Open), [], map[], None, {0}, true, {}, [], [], [], [], [], [], {}, {}, false);
    Extend([y], [], StartReceive(1), Waiting());
    states, actions := [y] + [Waiting()], [] + [StartReceive(1)];
  }

  /** Two sends each schedule it. */
  lemma TwoSendsRun<V>(v: V, w: V) returns (states: seq<System<V>>, actions: seq<Action<V>>)
    ensures IsRun(states, actions) && states[|actions|] == Waiting().(
      shared := Shared(2, [v, w], [], Some(1), Open), runQueue := [1, 1], used := {1, 2, 3},
      pushed := [v, w], pushers := [2, 3], accepted := {2, 3})
  {
    states, actions := WaitingRun();
    var y1 := states[|actions|];
    var y2 := y1.(shared := Shared(2, [v], [], Some(1), Open), runQueue := [1], used := {1, 2}, pushed := [v],
      pushers := [2],
      accepted := {2});
    assert y1.sends - {2} == map[];
    Extend(states, actions, StartSend(2, 0, v), y2);
    states, actions := states + [y2], actions + [StartSend(2, 0, v)];
    var y3 := y2.(shared := Shared(2, [v, w], [], Some(1), Open), runQueue := [1, 1], used := {1, 2, 3},
      pushed := [v, w], pushers := [2, 3], accepted := {2, 3});
    assert y2.sends - {3} == map[];
    Extend(states, actions, StartSend(3, 0, w), y3);
    states, actions := states + [y3], actions + [StartSend(3, 0, w)];
  }

  /** So a run can leave a completed receive in the run queue. */
  lemma StaleEntryIsReachable<V>(v: V, w: V) returns (states: seq<System<V>>, actions: seq<Action<V>>)
    ensures IsRun(states, actions)
    ensures states[|actions|] == Waiting().(shared := Shared(2, [w], [], Some(1), Open), runQueue := [1],
      pending := None, used := {1, 2, 3}, pushed := [v, w], pushers := [2, 3], popped := [v], accepted := {2, 3})
    ensures Stray(states[|actions|], RunNext)
  {
    states, actions := TwoSendsRun(v, w);
    var y3 := states[|actions|];
    var y4 := y3.(shared := Shared(2, [w], [], Some(1), Open), runQueue := [1], pending := None, popped := [v]);
    Extend(states, actions, RunNext, y4);
    states, actions := states + [y4], actions + [RunNext];
  }

  /** Polling it takes the other value, and nobody gets it. */
  lemma StalePollLoses<V>(v: V, w: V) returns (states: seq<System<V>>, actions: seq<Action<V>>)
    ensures IsRun(states, actions)
    ensures var y := states[|actions|]; y.pushed == [v, w] && y.lost == [w] && y.shared.queue == [] && y.runQueue == []
  {
    states, actions := StaleEntryIsReachable(v, w);
    var y := Next(states[|actions|], RunNext);
    Extend(states, actions, RunNext, y);
    states, actions := states + [y], actions + [RunNext];
  }

  /** If the next two receives come first, they take the other value and then wait. */
  lemma TwoReceivesRun<V>(v: V, w: V) returns (states: seq<System<V>>, actions: seq<Action<V>>)
    ensures IsRun(states, actions)
    ensures states[|actions|] == Waiting().(shared := Shared(2, [], [], Some(5), Open), runQueue := [1],
      pending := Some(5), used := {1, 2, 3, 4, 5}, pushed := [v, w], pushers := [2, 3], popped := [v, w],
      accepted := {2, 3})
  {
    states, actions := StaleEntryIsReachable(v, w);
    var y := states[|actions|];
    var y1 := y.(shared := Shared(2, [], [], Some(1), Open), used := {1, 2, 3, 4}, popped := [v, w]);
    Extend(states, actions, StartReceive(4), y1);
    states, actions := states + [y1], actions + [StartReceive(4)];
    var y2 := y1.(shared := Shared(2, [], [], Some(5), Open), used := {1, 2, 3, 4, 5}, pending := Some(5));
    Extend(states, actions, StartReceive(5), y2);
    states, actions := states + [y2], actions + [StartReceive(5)];
  }

  /** Polling the completed receive then takes the receiver slot from the receive that waits. */
  lemma StrayTakesSlot<V>(v: V, w: V) returns (states: seq<System<V>>, actions: seq<Action<V>>)
    ensures IsRun(states, actions)
    ensures states[|actions|] == Waiting().(shared := Shared(2, [], [], Some(1), Open), runQueue := [],
      pending := Some(5), used := {1, 2, 3, 4, 5}, pushed := [v, w], pushers := [2, 3], popped := [v, w],
      accepted := {2, 3})
  {
    states, actions := TwoReceivesRun(v, w);
    var y := states[|actions|];
    var y1 := y.(shared := Shared(2, [], [], Some(1), Open), runQueue := []);
    Extend(states, actions, RunNext, y1);
    states, actions := states + [y1], actions + [RunNext];
  }

  /** The next send schedules the completed receive instead of the one that waits beside the buffered value. */
  lemma StalePollMisdirects<V>(v: V, w: V, x: V) returns (states: seq<System<V>>, actions: seq<Action<V>>)
    ensures IsRun(states, actions)
    ensures var y := states[|actions|];
      y.pending == Some(5) && y.shared.queue == [x] && y.runQueue == [1]
  {
    states, actions := StrayTakesSlot(v, w);
    var y := Next(states[|actions|], StartSend(6, 0, x));
    Extend(states, actions, StartSend(6, 0, x), y);
    states, actions := states + [y], actions + [StartSend(6, 0, x)];
  }

  // ---------- nobody wakes a receive when the senders close ----------

  /** A receive waits, unscheduled, on an empty buffer, and every sender is gone. */
  predicate Forgotten<V>(y: System<V>, r: Id) {
    y.pending == Some(r) && y.shared.queue == [] && y.senders == {} && r !in y.runQueue
  }

  /** Destroying a sender does that if and only if it was the last, the buffer is empty and the receive unscheduled. */
  lemma ForgetStep<V>(y: System<V>, x: Id, r: Id)
    requires Inv(y) && Enabled(y, DestroySender(x)) && y.pending == Some(r)
    ensures Forgotten(Next(y, DestroySender(x)), r) <==>
      y.senders == {x} && y.shared.queue == [] && r !in y.runQueue
  {
    assert y.senders - {x} == {} <==> y.senders == {x};
  }

  /** And a run that gets there: the only sender goes while a receive waits. */
  lemma ForgottenIsReachable<V>() returns (states: seq<System<V>>, actions: seq<Action<V>>)
    ensures IsRun(states, actions) && Forgotten(states[|actions|], 1)
    ensures states[|actions|].shared.state == SenderClosed && states[|actions|].runQueue == []
  {
    states, actions := WaitingRun();
    var y := Next(states[|actions|], DestroySender(0));
    Extend(states, actions, DestroySender(0), y);
    states, actions := states + [y], actions + [DestroySender(0)];
  }

  /** A receive that is scheduled at that moment does get the end of the stream when it is polled. */
  lemma ScheduledReceiveEnds<V>(y: System<V>, r: Id)
    requires Inv(y) && y.pending == Some(r) && y.shared.queue == [] && y.senders == {}
    requires y.runQueue != [] && y.runQueue[0] == r
    ensures Next(y, RunNext).pending == None && Next(y, RunNext).ended
  {
  }

  lemma ForgottenStep<V>(y: System<V>, a: Action<V>, r: Id)
    requires Inv(y) && Enabled(y, a) && Forgotten(y, r)
    ensures Forgotten(Next(y, a), r)
  {
    assert y.sends.Keys == {};
  }

  /** Such a receive is never scheduled again, although the stream has ended. */
  lemma {:induction false} ForgottenForever<V>(states: seq<System<V>>, actions: seq<Action<V>>, k: nat, m: nat, r: Id)
    requires IsRun(states, actions) && k <= m < |states| && Forgotten(states[k], r)
    ensures Forgotten(states[m], r)
    decreases m
  {
    if k < m {
      ForgottenForever(states, actions, k, m - 1, r);
      RunKeeps(states, actions, m - 1);
      ForgottenStep(states[m - 1], actions[m - 1], r);
    }
  }
}
