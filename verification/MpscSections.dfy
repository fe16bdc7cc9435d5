/**
  The mpsc channel with each locked section as a step of its own, any number of
  sends and receives in flight. What goes in still comes out in order. Whether a
  sender can be left stranded depends on what happens between the section in
  which it finds the buffer full and the one in which it parks: the exact
  condition is proved below, and a run that breaks it strands a sender.
 */
module MpscSections {
  import opened Common
  import opened Mpsc

  datatype SendPc<V> =
    | Checking(value: V) | Trying(value: V) | Parking(value: V) | Parked(value: V)
    | Accepted | Returned(value: V)
  datatype ReceivePc<V> = Popping | Waking(value: V) | Waiting | Got(value: V) | GotNothing

  /** One poll of a receive future. */
  datatype Receiving<V> = Receiving(future: Id, pc: ReceivePc<V>)

  datatype Sections<V> = Sections(
    shared: Shared<V>,
    runQueue: seq<Id>,
    sends: map<Id, SendPc<V>>,
    futures: set<Id>,      // the receive futures
    receives: map<Id, Receiving<V>>,   // their polls
    pushed: seq<V>,
    pushers: seq<Id>,      // which send pushed each of them
    popped: seq<V>,
    takers: seq<Id>)       // which receive poll popped each of them

  datatype Section<V> =
    | NewSend(f: Id, value: V)
    | CheckClosed(f: Id)
    | LockedPush(f: Id)
    | Park(f: Id)
    | PollAgain(i: nat, poll: Id)     // a worker takes entry i of the run queue
    | NewReceive(f: Id, poll: Id)
    | LockedPop(poll: Id)
    | WakeSender(poll: Id)
    | SetState(state: CloseState)

  predicate Enabled<V>(s: Sections<V>, a: Section<V>) {
    match a
    case NewSend(f, _) => f !in s.sends && f !in s.futures
    case CheckClosed(f) => f in s.sends && s.sends[f].Checking?
    case LockedPush(f) => f in s.sends && s.sends[f].Trying?
    case Park(f) => f in s.sends && s.sends[f].Parking?
    case PollAgain(i, p) => i < |s.runQueue| && (s.runQueue[i] in s.sends || p !in s.receives)
    case NewReceive(f, p) => f !in s.sends && f !in s.futures && p !in s.receives
    case LockedPop(p) => p in s.receives && s.receives[p].pc.Popping?
    case WakeSender(p) => p in s.receives && s.receives[p].pc.Waking?
    case SetState(_) => true
  }

  /** A receive is polled afresh however its earlier polls ended. */
  function Woken<V>(s: Sections<V>, i: nat, p: Id): Sections<V>
    requires i < |s.runQueue|
  {
    var f, t := s.runQueue[i], s.(runQueue := s.runQueue[..i] + s.runQueue[i + 1..]);
    if f !in s.sends then t.(receives := s.receives[p := Receiving(f, Popping)])
    else if s.sends[f].Parked? then t.(sends := s.sends[f := Checking(s.sends[f].value)])
    else t
  }

  function Pushed<V>(s: Sections<V>, f: Id, v: V): Sections<V> {
    var c := s.shared;
    if |c.queue| < c.size then
      s.(shared := c.(queue := c.queue + [v]), sends := s.sends[f := Accepted],
         runQueue := s.runQueue + (if c.receiver.Some? then [c.receiver.value] else []),
         pushed := s.pushed + [v], pushers := s.pushers + [f])
    else s.(sends := s.sends[f := Parking(v)])
  }

  /** The empty path keeps the queue lock until the receiver slot is set, so it is one step. */
  function Popped<V>(s: Sections<V>, p: Id, future: Id): Sections<V> {
    var c := s.shared;
    if c.queue != [] then
      s.(shared := c.(queue := c.queue[1..]), receives := s.receives[p := Receiving(future, Waking(c.queue[0]))],
         popped := s.popped + [c.queue[0]], takers := s.takers + [p])
    else if c.state == SenderClosed then s.(receives := s.receives[p := Receiving(future, GotNothing)])
    else s.(shared := c.(receiver := Some(future)), receives := s.receives[p := Receiving(future, Waiting)])
  }

  function Unparked<V>(s: Sections<V>, p: Id, done: Receiving<V>): Sections<V> {
    var c := s.shared;
    if c.parked != [] then
      s.(shared := c.(parked := c.parked[1..]), runQueue := s.runQueue + [c.parked[0]], receives := s.receives[p := done])
    else s.(receives := s.receives[p := done])
  }

  function Next<V>(s: Sections<V>, a: Section<V>): Sections<V>
    requires Enabled(s, a)
  {
    match a
    case NewSend(f, v) => s.(sends := s.sends[f := Checking(v)])
    case CheckClosed(f) =>
      var v := s.sends[f].value;
      s.(sends := s.sends[f := if s.shared.state == ReceiverClosed then Returned(v) else Trying(v)])
    case LockedPush(f) => Pushed(s, f, s.sends[f].value)
    case Park(f) =>
      s.(shared := s.shared.(parked := s.shared.parked + [f]), sends := s.sends[f := Parked(s.sends[f].value)])
    case PollAgain(i, p) => Woken(s, i, p)
    case NewReceive(f, p) => s.(futures := s.futures + {f}, receives := s.receives[p := Receiving(f, Popping)])
    case LockedPop(p) => Popped(s, p, s.receives[p].future)
    case WakeSender(p) => Unparked(s, p, Receiving(s.receives[p].future, Got(s.receives[p].pc.value)))
    case SetState(state) => s.(shared := s.shared.(state := state))
  }

  function Start<V>(size: nat): Sections<V> {
    Sections(Shared(size, [], [], None, Open), [], map[], {}, map[], [], [], [], [])
  }

  ghost predicate IsRun<V>(size: nat, states: seq<Sections<V>>, actions: seq<Section<V>>) {
    && |states| == |actions| + 1 && states[0] == Start(size)
    && forall i :: 0 <= i < |actions| ==> Enabled(states[i], actions[i]) && states[i + 1] == Next(states[i], actions[i])
  }

  // ---------- order, in every interleaving ----------

  ghost predicate InOrder<V>(s: Sections<V>, size: nat) {
    s.pushed == s.popped + s.shared.queue && |s.shared.queue| <= s.shared.size == size
  }

  /** The sends that pushed are the accepted ones, each once. */
  ghost predicate PushedOnce<V>(s: Sections<V>) {
    && |s.pushers| == |s.pushed|
    && (forall i, j :: 0 <= i < j < |s.pushers| ==> s.pushers[i] != s.pushers[j])
    && (forall f :: f in s.pushers <==> f in s.sends && s.sends[f].Accepted?)
  }

  lemma OrderStep<V>(s: Sections<V>, a: Section<V>, size: nat)
    requires Enabled(s, a) && InOrder(s, size)
    ensures InOrder(Next(s, a), size)
  {
    if a.LockedPop? && s.shared.queue != [] {
      assert s.shared.queue == [s.shared.queue[0]] + s.shared.queue[1..];
    }
  }

  lemma PushedStep<V>(s: Sections<V>, a: Section<V>)
    requires Enabled(s, a) && PushedOnce(s)
    ensures PushedOnce(Next(s, a))
  {
    var t := Next(s, a);
    if a.LockedPush? && |s.shared.queue| < s.shared.size {
      assert a.f !in s.pushers;
      forall f ensures f in t.pushers <==> f in t.sends && t.sends[f].Accepted? {
        assert f in t.pushers <==> f in s.pushers || f == a.f;
      }
    } else {
      assert t.pushers == s.pushers;
      forall f ensures f in t.pushers <==> f in t.sends && t.sends[f].Accepted? {
      }
    }
  }

  /** The polls that took a value are those that hand one on, each once, and each hands on the value it took. */
  ghost predicate TakenOnce<V>(s: Sections<V>) {
    && |s.takers| == |s.popped|
    && (forall i, j :: 0 <= i < j < |s.takers| ==> s.takers[i] != s.takers[j])
    && (forall i :: 0 <= i < |s.takers| ==> Hands(s.receives, s.takers[i], s.popped[i]))
    && (forall p :: p in s.receives && (s.receives[p].pc.Waking? || s.receives[p].pc.Got?) ==> p in s.takers)
  }

  predicate Hands<V(==)>(receives: map<Id, Receiving<V>>, p: Id, v: V) {
    p in receives && (receives[p].pc == Waking(v) || receives[p].pc == Got(v))
  }

  /** The poll that takes the oldest value is a new one and hands that value on. */
  lemma PopTaken<V>(s: Sections<V>, p: Id)
    requires Enabled(s, LockedPop(p)) && TakenOnce(s) && s.shared.queue != []
    ensures TakenOnce(Next(s, LockedPop(p)))
  {
    var t := Next(s, LockedPop(p));
    forall i | 0 <= i < |s.takers| ensures s.takers[i] != p {
      assert Hands(s.receives, s.takers[i], s.popped[i]);
    }
    forall i | 0 <= i < |t.takers| ensures Hands(t.receives, t.takers[i], t.popped[i]) {
      if i < |s.takers| {
        assert Hands(s.receives, s.takers[i], s.popped[i]);
      }
    }
    forall q | q in t.receives && (t.receives[q].pc.Waking? || t.receives[q].pc.Got?) ensures q in t.takers {
      assert q == p ==> t.takers[|s.takers|] == q;
      assert q != p ==> q in s.takers;
    }
  }

  /** Any other section leaves the polls that took a value with it. */
  lemma OtherTaken<V>(s: Sections<V>, a: Section<V>)
    requires Enabled(s, a) && TakenOnce(s) && (a.LockedPop? ==> s.shared.queue == [])
    ensures TakenOnce(Next(s, a))
  {
    var t := Next(s, a);
    assert t.takers == s.takers && t.popped == s.popped;
    forall i | 0 <= i < |t.takers| ensures Hands(t.receives, t.takers[i], t.popped[i]) {
      assert Hands(s.receives, s.takers[i], s.popped[i]);
    }
  }

  lemma TakenStep<V>(s: Sections<V>, a: Section<V>)
    requires Enabled(s, a) && TakenOnce(s)
    ensures TakenOnce(Next(s, a))
  {
    if a.LockedPop? && s.shared.queue != [] {
      PopTaken(s, a.poll);
    } else {
      OtherTaken(s, a);
    }
  }

  /** The send f was given v in the first n sections. */
  ghost predicate Given<V>(actions: seq<Section<V>>, n: nat, f: Id, v: V) {
    exists k :: 0 <= k < n && k < |actions| && actions[k] == NewSend(f, v)
  }

  predicate HasValue<V>(pc: SendPc<V>) {
    !pc.Accepted?
  }

  /** Every send still holds the value it was given, and what it pushed is that value. */
  ghost predicate Genuine<V>(s: Sections<V>, actions: seq<Section<V>>, n: nat) {
    && |s.pushers| == |s.pushed|
    && (forall f :: f in s.sends && HasValue(s.sends[f]) ==> Given(actions, n, f, s.sends[f].value))
    && (forall i :: 0 <= i < |s.pushed| ==> Given(actions, n, s.pushers[i], s.pushed[i]))
  }

  lemma GivenLater<V>(actions: seq<Section<V>>, n: nat, f: Id, v: V)
    requires Given(actions, n, f, v)
    ensures Given(actions, n + 1, f, v)
  {
  }

  lemma HeldStep<V>(s: Sections<V>, actions: seq<Section<V>>, n: nat, f: Id)
    requires n < |actions| && Enabled(s, actions[n]) && Genuine(s, actions, n)
    requires f in Next(s, actions[n]).sends && HasValue(Next(s, actions[n]).sends[f])
    ensures Given(actions, n + 1, f, Next(s, actions[n]).sends[f].value)
  {
    var t := Next(s, actions[n]);
    if actions[n].NewSend? && actions[n].f == f {
      assert actions[n] == NewSend(f, t.sends[f].value);
    } else {
      assert f in s.sends && HasValue(s.sends[f]) && t.sends[f].value == s.sends[f].value;
      GivenLater(actions, n, f, s.sends[f].value);
    }
  }

  lemma PushedValueStep<V>(s: Sections<V>, actions: seq<Section<V>>, n: nat, i: nat)
    requires n < |actions| && Enabled(s, actions[n]) && Genuine(s, actions, n) && i < |Next(s, actions[n]).pushed|
    ensures |Next(s, actions[n]).pushers| == |Next(s, actions[n]).pushed|
    ensures Given(actions, n + 1, Next(s, actions[n]).pushers[i], Next(s, actions[n]).pushed[i])
  {
    var t := Next(s, actions[n]);
    if i < |s.pushed| {
      assert t.pushers[i] == s.pushers[i] && t.pushed[i] == s.pushed[i];
      GivenLater(actions, n, s.pushers[i], s.pushed[i]);
    } else {
      var f := actions[n].f;
      assert f in s.sends && HasValue(s.sends[f]) && t.pushers[i] == f && t.pushed[i] == s.sends[f].value;
      GivenLater(actions, n, f, s.sends[f].value);
    }
  }

  lemma {:induction false} RunGenuine<V>(size: nat, states: seq<Sections<V>>, actions: seq<Section<V>>, n: nat)
    requires IsRun(size, states, actions) && n < |states|
    ensures Genuine(states[n], actions, n)
  {
    if n != 0 {
      RunGenuine(size, states, actions, n - 1);
      var s, t := states[n - 1], Next(states[n - 1], actions[n - 1]);
      assert states[n] == t;
      assert |t.pushers| == |t.pushed|;
      forall f | f in t.sends && HasValue(t.sends[f]) ensures Given(actions, n, f, t.sends[f].value) {
        HeldStep(s, actions, n - 1, f);
      }
      forall i | 0 <= i < |t.pushed| ensures Given(actions, n, t.pushers[i], t.pushed[i]) {
        PushedValueStep(s, actions, n - 1, i);
      }
    }
  }

  /**
    In every interleaving the i-th value pushed is the one its sender was given, the
    i-th value popped is handed on by the poll that took it and by no other, and a
    send whose value was handed back still has the value it was given.
   */
  lemma {:induction false} ValuesTravel<V>(size: nat, states: seq<Sections<V>>, actions: seq<Section<V>>, n: nat)
    requires IsRun(size, states, actions) && n < |states|
    ensures Genuine(states[n], actions, n) && TakenOnce(states[n])
    ensures forall f :: f in states[n].sends && states[n].sends[f].Returned? ==>
      Given(actions, n, f, states[n].sends[f].value)
  {
    RunGenuine(size, states, actions, n);
    if n != 0 {
      ValuesTravel(size, states, actions, n - 1);
      TakenStep(states[n - 1], actions[n - 1]);
    }
  }

  // ---------- in what order senders are woken ----------

  /** The sends that parked in the first n sections, and those that were woken, in order. */
  function ParkedIn<V>(actions: seq<Section<V>>, n: nat): seq<Id>
    requires n <= |actions|
  {
    if n == 0 then [] else ParkedIn(actions, n - 1) + if actions[n - 1].Park? then [actions[n - 1].f] else []
  }

  function WokenIn<V>(states: seq<Sections<V>>, actions: seq<Section<V>>, n: nat): seq<Id>
    requires n <= |actions| < |states|
  {
    if n == 0 then [] else WokenIn(states, actions, n - 1) + Wakes(states[n - 1], actions[n - 1])
  }

  function Wakes<V>(s: Sections<V>, a: Section<V>): seq<Id> {
    if a.WakeSender? && s.shared.parked != [] then [s.shared.parked[0]] else []
  }

  lemma ParkedStep<V>(s: Sections<V>, a: Section<V>)
    requires Enabled(s, a)
    ensures s.shared.parked + (if a.Park? then [a.f] else []) == Wakes(s, a) + Next(s, a).shared.parked
    ensures a.WakeSender? ==> Next(s, a).runQueue == s.runQueue + Wakes(s, a)
  {
  }

  /** Senders are woken in the order they parked, and each one woken is scheduled. */
  lemma {:induction false} WokenInOrder<V>(size: nat, states: seq<Sections<V>>, actions: seq<Section<V>>, n: nat)
    requires IsRun(size, states, actions) && n <= |actions|
    ensures ParkedIn(actions, n) == WokenIn(states, actions, n) + states[n].shared.parked
  {
    if n != 0 {
      WokenInOrder(size, states, actions, n - 1);
      ParkedStep(states[n - 1], actions[n - 1]);
      assert states[n] == Next(states[n - 1], actions[n - 1]);
      Regroup(WokenIn(states, actions, n - 1), states[n - 1].shared.parked,
        if actions[n - 1].Park? then [actions[n - 1].f] else [], Wakes(states[n - 1], actions[n - 1]),
        states[n].shared.parked);
    }
  }

  lemma Regroup(a: seq<Id>, b: seq<Id>, c: seq<Id>, d: seq<Id>, e: seq<Id>)
    requires b + c == d + e
    ensures (a + b) + c == (a + d) + e
  {
    assert (a + b) + c == a + (b + c) && (a + d) + e == a + (d + e);
  }

  // ---------- nothing scheduled is dropped ----------

  /** What a section schedules: at a push the receive in the slot, at a wake-up the longest parked sender. */
  function Schedules<V>(s: Sections<V>, a: Section<V>): seq<Id> {
    if a.LockedPush? && |s.shared.queue| < s.shared.size && s.shared.receiver.Some? then [s.shared.receiver.value]
    else Wakes(s, a)
  }

  function Takes<V>(s: Sections<V>, a: Section<V>): seq<Id> {
    if a.PollAgain? && a.i < |s.runQueue| then [s.runQueue[a.i]] else []
  }

  /** The entries before a section and those it adds are those it takes and those after. */
  predicate Balanced(before: seq<Id>, more: seq<Id>, taken: seq<Id>, after: seq<Id>) {
    multiset(before) + multiset(more) == multiset(taken) + multiset(after)
  }

  predicate QueueLaw<V>(s: Sections<V>, a: Section<V>, t: Sections<V>) {
    Balanced(s.runQueue, Schedules(s, a), Takes(s, a), t.runQueue)
  }

  lemma AddedBalances(q: seq<Id>, more: seq<Id>)
    ensures Balanced(q, more, [], q + more)
  {
  }

  lemma TakenBalances(q: seq<Id>, i: nat)
    requires i < |q|
    ensures Balanced(q, [], [q[i]], q[..i] + q[i + 1..])
  {
    assert q == q[..i] + [q[i]] + q[i + 1..];
  }

  lemma QueueStep<V>(s: Sections<V>, a: Section<V>)
    requires Enabled(s, a)
    ensures QueueLaw(s, a, Next(s, a))
  {
    if a.PollAgain? {
      TakenBalances(s.runQueue, a.i);
    } else {
      AddedBalances(s.runQueue, Schedules(s, a));
      assert Next(s, a).runQueue == s.runQueue + Schedules(s, a);
    }
  }

  /** Each entry of `all` was taken or is left. */
  predicate TakenOrLeft(all: seq<Id>, taken: seq<Id>, left: seq<Id>) {
    multiset(all) == multiset(taken) + multiset(left)
  }

  lemma BalanceAdds(all: seq<Id>, taken: seq<Id>, before: seq<Id>, more: seq<Id>, first: seq<Id>, after: seq<Id>)
    requires TakenOrLeft(all, taken, before) && Balanced(before, more, first, after)
    ensures TakenOrLeft(all + more, taken + first, after)
  {
    assert multiset(all + more) == multiset(taken) + (multiset(before) + multiset(more));
    assert multiset(taken + first) + multiset(after) == multiset(taken) + (multiset(first) + multiset(after));
  }

  function ScheduledIn<V>(states: seq<Sections<V>>, actions: seq<Section<V>>, n: nat): seq<Id>
    requires n <= |actions| < |states|
  {
    if n == 0 then [] else ScheduledIn(states, actions, n - 1) + Schedules(states[n - 1], actions[n - 1])
  }

  function TakenIn<V>(states: seq<Sections<V>>, actions: seq<Section<V>>, n: nat): seq<Id>
    requires n <= |actions| < |states|
  {
    if n == 0 then [] else TakenIn(states, actions, n - 1) + Takes(states[n - 1], actions[n - 1])
  }

  lemma {:induction false} QueueAlong<V>(states: seq<Sections<V>>, actions: seq<Section<V>>, n: nat)
    requires n <= |actions| < |states| && states[0].runQueue == []
    requires forall i :: 0 <= i < n ==> QueueLaw(states[i], actions[i], states[i + 1])
    ensures TakenOrLeft(ScheduledIn(states, actions, n), TakenIn(states, actions, n), states[n].runQueue)
  {
    if n != 0 {
      QueueAlong(states, actions, n - 1);
      assert QueueLaw(states[n - 1], actions[n - 1], states[(n - 1) + 1]);
      BalanceAdds(ScheduledIn(states, actions, n - 1), TakenIn(states, actions, n - 1), states[n - 1].runQueue,
        Schedules(states[n - 1], actions[n - 1]), Takes(states[n - 1], actions[n - 1]), states[n].runQueue);
    }
  }

  /** In every interleaving what was scheduled was taken by a worker or is still queued, as often as it was scheduled. */
  lemma NothingDropped<V>(size: nat, states: seq<Sections<V>>, actions: seq<Section<V>>, n: nat)
    requires IsRun(size, states, actions) && n <= |actions|
    ensures TakenOrLeft(ScheduledIn(states, actions, n), TakenIn(states, actions, n), states[n].runQueue)
  {
    forall i | 0 <= i < n ensures QueueLaw(states[i], actions[i], states[i + 1]) {
      QueueStep(states[i], actions[i]);
    }
    QueueAlong(states, actions, n);
  }

  /** A worker that takes an entry polls it: a parked send from its start, a receive by a poll of its own. */
  lemma TakenIsPolled<V>(size: nat, states: seq<Sections<V>>, actions: seq<Section<V>>, n: nat)
    requires IsRun(size, states, actions) && n < |actions| && actions[n].PollAgain?
    ensures actions[n].i < |states[n].runQueue|
    ensures var f, t := states[n].runQueue[actions[n].i], states[n + 1];
      if f in states[n].sends then t.sends[f].Checking? && t.sends[f].value == states[n].sends[f].value
      else actions[n].poll in t.receives && t.receives[actions[n].poll] == Receiving(f, Popping)
  {
    RunShape(size, states, actions, n);
    assert states[n].runQueue[actions[n].i] in states[n].runQueue;
    assert Enabled(states[n], actions[n]) && states[n + 1] == Next(states[n], actions[n]);
  }

  // ---------- why a poll ends as it does ----------

  /** Send f found the receiver closed, or receive poll p an empty buffer with the senders gone. */
  ghost predicate FoundClosed<V>(states: seq<Sections<V>>, actions: seq<Section<V>>, n: nat, f: Id) {
    exists k :: 0 <= k < n && k < |actions| < |states| && actions[k] == CheckClosed(f)
                && states[k].shared.state == ReceiverClosed
  }

  ghost predicate FoundEnded<V>(states: seq<Sections<V>>, actions: seq<Section<V>>, n: nat, p: Id) {
    exists k :: 0 <= k < n && k < |actions| < |states| && actions[k] == LockedPop(p)
                && states[k].shared.state == SenderClosed && states[k].shared.queue == []
  }

  /** From s to t the send f was handed its value back if and only if it just found the receiver closed. */
  predicate ReturnLaw<V>(s: Sections<V>, a: Section<V>, t: Sections<V>, f: Id) {
    (f in t.sends && t.sends[f].Returned?) <==>
      (f in s.sends && s.sends[f].Returned?) || (a == CheckClosed(f) && s.shared.state == ReceiverClosed)
  }

  lemma ReturnStep<V>(s: Sections<V>, a: Section<V>, f: Id)
    requires Enabled(s, a)
    ensures ReturnLaw(s, a, Next(s, a), f)
  {
  }

  /** A value is handed back if and only if the send found the receiver closed. */
  lemma {:induction false} ReturnedIffClosed<V>(size: nat, states: seq<Sections<V>>, actions: seq<Section<V>>, n: nat, f: Id)
    requires IsRun(size, states, actions) && n < |states|
    ensures f in states[n].sends && states[n].sends[f].Returned? <==> FoundClosed(states, actions, n, f)
  {
    if n != 0 {
      ReturnedIffClosed(size, states, actions, n - 1, f);
      ReturnStep(states[n - 1], actions[n - 1], f);
      assert states[n] == Next(states[n - 1], actions[n - 1]);
      FoundStep(states, actions, n, f);
    }
  }

  lemma FoundStep<V>(states: seq<Sections<V>>, actions: seq<Section<V>>, n: nat, f: Id)
    requires 0 < n <= |actions| < |states|
    ensures FoundClosed(states, actions, n, f) <==>
      FoundClosed(states, actions, n - 1, f) ||
      (actions[n - 1] == CheckClosed(f) && states[n - 1].shared.state == ReceiverClosed)
    ensures FoundEnded(states, actions, n, f) <==>
      FoundEnded(states, actions, n - 1, f) ||
      (actions[n - 1] == LockedPop(f) && states[n - 1].shared.state == SenderClosed && states[n - 1].shared.queue == [])
  {
  }

  predicate EndLaw<V>(s: Sections<V>, a: Section<V>, t: Sections<V>, p: Id) {
    (p in t.receives && t.receives[p].pc.GotNothing?) <==>
      || (p in s.receives && s.receives[p].pc.GotNothing?)
      || (a == LockedPop(p) && s.shared.state == SenderClosed && s.shared.queue == [])
  }

  lemma EndStep<V>(s: Sections<V>, a: Section<V>, p: Id)
    requires Enabled(s, a)
    ensures EndLaw(s, a, Next(s, a), p)
  {
  }

  /** A receive yields nothing if and only if it found the buffer empty and the senders gone. */
  lemma {:induction false} NothingIffEnded<V>(size: nat, states: seq<Sections<V>>, actions: seq<Section<V>>, n: nat, p: Id)
    requires IsRun(size, states, actions) && n < |states|
    ensures p in states[n].receives && states[n].receives[p].pc.GotNothing? <==> FoundEnded(states, actions, n, p)
  {
    if n != 0 {
      NothingIffEnded(size, states, actions, n - 1, p);
      EndStep(states[n - 1], actions[n - 1], p);
      assert states[n] == Next(states[n - 1], actions[n - 1]);
      FoundStep(states, actions, n, p);
    }
  }

  /**
    In every interleaving of the locked sections the values popped, followed by
    the buffer, are the values pushed; the buffer never exceeds the capacity; each
    accepted send pushed exactly once and a send whose value was handed back never did.
   */
  lemma {:induction false} SectionOrder<V>(size: nat, states: seq<Sections<V>>, actions: seq<Section<V>>, n: nat)
    requires IsRun(size, states, actions) && n < |states|
    ensures InOrder(states[n], size) && PushedOnce(states[n])
  {
    if n != 0 {
      SectionOrder(size, states, actions, n - 1);
      OrderStep(states[n - 1], actions[n - 1], size);
      PushedStep(states[n - 1], actions[n - 1]);
    }
  }

  // ---------- what keeps a parked sender from being stranded ----------

  /** Sends between their first section and the end of the poll. */
  function Sending<V>(sends: map<Id, SendPc<V>>): set<Id> {
    set f | f in sends && (sends[f].Checking? || sends[f].Trying? || sends[f].Parking?)
  }

  /** Sends whose poll ended pending. */
  function Pending<V>(sends: map<Id, SendPc<V>>): set<Id> {
    set f | f in sends && sends[f].Parked?
  }

  /** Receive polls that took a value and have yet to wake a sender. */
  function Handing<V>(receives: map<Id, Receiving<V>>): set<Id> {
    set p | p in receives && receives[p].pc.Waking?
  }

  /** Which of these futures wait for a worker. */
  function Scheduled(ks: set<Id>, runQueue: seq<Id>): set<Id> {
    set f | f in ks && f in runQueue
  }

  function Load<V>(s: Sections<V>): nat {
    |s.shared.queue| + |Sending(s.sends)| + |Handing(s.receives)| + |Scheduled(Pending(s.sends), s.runQueue)|
  }

  /** While a sender is parked, values and activity that will reach it fill the capacity. */
  ghost predicate Covered<V>(s: Sections<V>) {
    s.shared.parked != [] ==> Load(s) >= s.shared.size
  }

  lemma SendMoves<V>(sends: map<Id, SendPc<V>>, f: Id, pc: SendPc<V>)
    ensures var t := sends[f := pc];
      && Sending(t) == (if pc.Checking? || pc.Trying? || pc.Parking? then Sending(sends) + {f} else Sending(sends) - {f})
      && Pending(t) == (if pc.Parked? then Pending(sends) + {f} else Pending(sends) - {f})
  {
  }

  lemma ReceiveMoves<V>(receives: map<Id, Receiving<V>>, p: Id, r: Receiving<V>)
    ensures var t := receives[p := r];
      Handing(t) == (if r.pc.Waking? then Handing(receives) + {p} else Handing(receives) - {p})
  {
  }

  /** Pending sends stand once in the parking list or once in the run queue; every other entry is a receive. */
  ghost predicate Queued(parked: seq<Id>, runQueue: seq<Id>, ks: set<Id>, rs: set<Id>) {
    && ks !! rs
    && (forall i, j :: 0 <= i < j < |parked| ==> parked[i] != parked[j])
    && (forall f :: f in parked ==> f in ks && f !in runQueue)
    && (forall x :: x in runQueue ==> x in ks || x in rs)
    && (forall i, j :: 0 <= i < j < |runQueue| && runQueue[i] == runQueue[j] ==> runQueue[i] !in ks)
  }

  /** Taking entry i. */
  lemma TakeQueued(parked: seq<Id>, runQueue: seq<Id>, ks: set<Id>, rs: set<Id>, i: nat)
    requires Queued(parked, runQueue, ks, rs) && i < |runQueue|
    ensures var f, rest := runQueue[i], runQueue[..i] + runQueue[i + 1..];
      && Queued(parked, rest, ks - {f}, rs)
      && Scheduled(ks - {f}, rest) == Scheduled(ks, runQueue) - {f}
      && (f in ks ==> f in Scheduled(ks, runQueue))
  {
    var f, rest := runQueue[i], runQueue[..i] + runQueue[i + 1..];
    assert forall k :: 0 <= k < |rest| ==> rest[k] == runQueue[if k < i then k else k + 1];
    assert runQueue == runQueue[..i] + [f] + runQueue[i + 1..];
    assert forall x :: x in runQueue <==> x in rest || x == f;
    assert f in ks ==> f !in rest;
  }

  /** Registering a receive. */
  lemma RegisterQueued(parked: seq<Id>, runQueue: seq<Id>, ks: set<Id>, rs: set<Id>, r: Id)
    requires Queued(parked, runQueue, ks, rs) && r in rs
    ensures Queued(parked, runQueue + [r], ks, rs)
    ensures Scheduled(ks, runQueue + [r]) == Scheduled(ks, runQueue)
  {
    assert forall x :: x in runQueue + [r] <==> x in runQueue || x == r;
  }

  /** Waking the sender that parked first. */
  lemma WakeQueued(parked: seq<Id>, runQueue: seq<Id>, ks: set<Id>, rs: set<Id>)
    requires Queued(parked, runQueue, ks, rs) && parked != []
    ensures Queued(parked[1..], runQueue + [parked[0]], ks, rs)
    ensures parked[0] !in Scheduled(ks, runQueue)
    ensures Scheduled(ks, runQueue + [parked[0]]) == Scheduled(ks, runQueue) + {parked[0]}
  {
    var first := parked[0];
    assert first in parked;
    assert forall x :: x in runQueue + [first] <==> x in runQueue || x == first;
    assert forall x :: x in parked[1..] ==> x in parked && x != first;
  }

  lemma ParkQueued(parked: seq<Id>, runQueue: seq<Id>, ks: set<Id>, rs: set<Id>, f: Id)
    requires Queued(parked, runQueue, ks, rs) && f !in ks && f !in rs
    ensures Queued(parked + [f], runQueue, ks + {f}, rs)
    ensures Scheduled(ks + {f}, runQueue) == Scheduled(ks, runQueue)
  {
    assert f !in runQueue && f !in parked;
    assert forall x :: x in parked + [f] <==> x in parked || x == f;
  }

  ghost predicate Shape<V>(s: Sections<V>) {
    && s.sends.Keys !! s.futures
    && Queued(s.shared.parked, s.runQueue, Pending(s.sends), s.futures)
    && (s.shared.receiver.Some? ==> s.shared.receiver.value in s.futures)
    && (forall p :: p in s.receives ==> s.receives[p].future in s.futures)
  }

  /** A send moving between its sections stays counted. */
  lemma NewSendStep<V>(s: Sections<V>, f: Id, v: V)
    requires Shape(s) && Enabled(s, NewSend(f, v))
    ensures var t := Next(s, NewSend(f, v)); Shape(t) && Load(t) == Load(s) + 1
  {
    SendMoves(s.sends, f, Checking(v));
    assert Pending(s.sends) - {f} == Pending(s.sends);
    assert f !in Sending(s.sends);
  }

  lemma CheckStep<V>(s: Sections<V>, f: Id)
    requires Shape(s) && Enabled(s, CheckClosed(f))
    ensures var t := Next(s, CheckClosed(f)); Shape(t) && (s.shared.state != ReceiverClosed ==> Load(t) == Load(s))
  {
    var t := Next(s, CheckClosed(f));
    SendMoves(s.sends, f, t.sends[f]);
    assert Pending(s.sends) - {f} == Pending(s.sends);
    assert Sending(s.sends) + {f} == Sending(s.sends);
  }

  /** A push turns the send into a value; a full buffer leaves it about to park. */
  lemma PushStep<V>(s: Sections<V>, f: Id)
    requires Shape(s) && Enabled(s, LockedPush(f))
    ensures var t := Next(s, LockedPush(f)); Shape(t) && Load(t) == Load(s)
  {
    var t := Next(s, LockedPush(f));
    SendMoves(s.sends, f, t.sends[f]);
    assert Pending(s.sends) - {f} == Pending(s.sends);
    assert f in Sending(s.sends);
    if |s.shared.queue| < s.shared.size {
      if s.shared.receiver.Some? {
        RegisterQueued(s.shared.parked, s.runQueue, Pending(s.sends), s.futures, s.shared.receiver.value);
      } else {
        assert t.runQueue == s.runQueue;
      }
    } else {
      assert Sending(s.sends) + {f} == Sending(s.sends);
    }
  }

  /** Parking takes one away. */
  lemma ParkStep<V>(s: Sections<V>, f: Id)
    requires Shape(s) && Enabled(s, Park(f))
    ensures var t := Next(s, Park(f)); Shape(t) && Load(t) == Load(s) - 1
  {
    SendMoves(s.sends, f, Parked(s.sends[f].value));
    ParkQueued(s.shared.parked, s.runQueue, Pending(s.sends), s.futures, f);
    assert f in Sending(s.sends);
  }

  lemma SendAgainStep<V>(s: Sections<V>, i: nat, p: Id)
    requires Shape(s) && Enabled(s, PollAgain(i, p)) && s.runQueue[i] in s.sends
    ensures var t := Woken(s, i, p); Shape(t) && Load(t) == Load(s)
  {
    var f := s.runQueue[i];
    TakeQueued(s.shared.parked, s.runQueue, Pending(s.sends), s.futures, i);
    assert f in s.runQueue;
    SendMoves(s.sends, f, Checking(s.sends[f].value));
    assert f !in Sending(s.sends);
  }

  lemma ReceiveAgainStep<V>(s: Sections<V>, i: nat, p: Id)
    requires Shape(s) && Enabled(s, PollAgain(i, p)) && s.runQueue[i] !in s.sends
    ensures var t := Woken(s, i, p); Shape(t) && Load(t) == Load(s)
  {
    var f, ks := s.runQueue[i], Pending(s.sends);
    TakeQueued(s.shared.parked, s.runQueue, ks, s.futures, i);
    assert f in s.runQueue;
    ReceiveMoves(s.receives, p, Receiving(f, Popping));
    assert ks - {f} == ks && Handing(s.receives) - {p} == Handing(s.receives);
    assert Scheduled(ks, s.runQueue) - {f} == Scheduled(ks, s.runQueue);
  }

  lemma PollAgainStep<V>(s: Sections<V>, i: nat, p: Id)
    requires Shape(s) && Enabled(s, PollAgain(i, p))
    ensures var t := Next(s, PollAgain(i, p)); Shape(t) && Load(t) == Load(s)
  {
    if s.runQueue[i] in s.sends {
      SendAgainStep(s, i, p);
    } else {
      ReceiveAgainStep(s, i, p);
    }
  }

  lemma NewReceiveStep<V>(s: Sections<V>, f: Id, p: Id)
    requires Shape(s) && Enabled(s, NewReceive(f, p))
    ensures var t := Next(s, NewReceive(f, p)); Shape(t) && Load(t) == Load(s)
  {
    ReceiveMoves(s.receives, p, Receiving(f, Popping));
    assert Handing(s.receives) - {p} == Handing(s.receives);
  }

  /** A change of one receive poll. */
  lemma ReceiveShape<V>(s: Sections<V>, p: Id, pc: ReceivePc<V>)
    requires Shape(s) && p in s.receives
    ensures Shape(s.(receives := s.receives[p := Receiving(s.receives[p].future, pc)]))
  {
  }

  /** A pop turns the value into a receive about to wake a sender. */
  lemma PopStep<V>(s: Sections<V>, p: Id)
    requires Shape(s) && Enabled(s, LockedPop(p))
    ensures var t := Next(s, LockedPop(p)); Shape(t) && Load(t) == Load(s)
  {
    var t := Next(s, LockedPop(p));
    ReceiveShape(s, p, t.receives[p].pc);
    ReceiveMoves(s.receives, p, t.receives[p]);
    assert p !in Handing(s.receives);
    if s.shared.queue != [] {
      assert |Handing(t.receives)| == |Handing(s.receives)| + 1;
    } else {
      assert Handing(s.receives) - {p} == Handing(s.receives);
    }
  }

  /** Waking moves on to the sender woken; with none parked it takes one away. */
  lemma WakeStep<V>(s: Sections<V>, p: Id)
    requires Shape(s) && Enabled(s, WakeSender(p))
    ensures var t := Next(s, WakeSender(p)); Shape(t) && (s.shared.parked != [] ==> Load(t) == Load(s))
  {
    var t := Next(s, WakeSender(p));
    ReceiveShape(s, p, t.receives[p].pc);
    ReceiveMoves(s.receives, p, t.receives[p]);
    assert p in Handing(s.receives);
    if s.shared.parked != [] {
      WakeQueued(s.shared.parked, s.runQueue, Pending(s.sends), s.futures);
    }
  }

  lemma ShapeStep<V>(s: Sections<V>, a: Section<V>)
    requires Enabled(s, a) && Shape(s)
    ensures Shape(Next(s, a))
  {
    match a
    case NewSend(f, v) => NewSendStep(s, f, v);
    case CheckClosed(f) => CheckStep(s, f);
    case LockedPush(f) => PushStep(s, f);
    case Park(f) => ParkStep(s, f);
    case PollAgain(i, p) => PollAgainStep(s, i, p);
    case NewReceive(f, p) => NewReceiveStep(s, f, p);
    case LockedPop(p) => PopStep(s, p);
    case WakeSender(p) => WakeStep(s, p);
    case SetState(_) =>
  }

  /** What a sender must find when it parks: without it the load still fills the capacity. */
  predicate Backed<V>(s: Sections<V>, a: Section<V>) {
    a.Park? ==> Load(s) > s.shared.size
  }

  /** Only parking can uncover a parked sender, and it does so if and only if it is not backed. */
  lemma CoveredStep<V>(s: Sections<V>, a: Section<V>)
    requires Enabled(s, a) && Shape(s) && Covered(s) && s.shared.state != ReceiverClosed
    ensures Covered(Next(s, a)) <==> Backed(s, a)
  {
    match a
    case NewSend(f, v) => NewSendStep(s, f, v);
    case CheckClosed(f) => CheckStep(s, f);
    case LockedPush(f) => PushStep(s, f);
    case Park(f) => ParkStep(s, f);
    case PollAgain(i, p) => PollAgainStep(s, i, p);
    case NewReceive(f, p) => NewReceiveStep(s, f, p);
    case LockedPop(p) => PopStep(s, p);
    case WakeSender(p) => WakeStep(s, p);
    case SetState(_) =>
  }

  ghost predicate StaysOpen<V>(states: seq<Sections<V>>, n: nat) {
    forall i :: 0 <= i < n && i < |states| ==> states[i].shared.state != ReceiverClosed
  }

  ghost predicate AllBacked<V>(states: seq<Sections<V>>, actions: seq<Section<V>>, n: nat) {
    forall i :: 0 <= i < n && i < |actions| < |states| ==> Backed(states[i], actions[i])
  }

  lemma {:induction false} RunShape<V>(size: nat, states: seq<Sections<V>>, actions: seq<Section<V>>, n: nat)
    requires IsRun(size, states, actions) && n < |states|
    ensures Shape(states[n])
  {
    if n != 0 {
      RunShape(size, states, actions, n - 1);
      ShapeStep(states[n - 1], actions[n - 1]);
    }
  }

  /**
    In every interleaving of the sections, while the receiver is open: parked
    senders are covered throughout if and only if every sender that parked was backed.
   */
  lemma {:induction false} CoveredIffBacked<V>(size: nat, states: seq<Sections<V>>, actions: seq<Section<V>>, n: nat)
    requires IsRun(size, states, actions) && n < |states| && StaysOpen(states, n)
    ensures (forall i :: 0 <= i <= n ==> Covered(states[i])) <==> AllBacked(states, actions, n)
  {
    if n != 0 {
      CoveredIffBacked(size, states, actions, n - 1);
      if AllBacked(states, actions, n - 1) {
        assert Covered(states[n - 1]);
        RunShape(size, states, actions, n - 1);
        CoveredStep(states[n - 1], actions[n - 1]);
        assert states[n] == Next(states[n - 1], actions[n - 1]);
        assert AllBacked(states, actions, n) <==> Backed(states[n - 1], actions[n - 1]);
      }
    }
  }

  /** A sender is parked and nothing is left that could reach it. */
  ghost predicate Stranded<V>(s: Sections<V>) {
    s.shared.parked != [] && Load(s) == 0
  }

  /** The step parks the only send at work, on an empty buffer with no wake-up under way. */
  predicate Strands<V>(s: Sections<V>, a: Section<V>) {
    a.Park? && Load(s) == 1
  }

  /** That is the one way to strand a sender. */
  lemma StrandedStep<V>(s: Sections<V>, a: Section<V>)
    requires Enabled(s, a) && Shape(s) && !Stranded(s) && s.shared.state != ReceiverClosed
    ensures Stranded(Next(s, a)) <==> Strands(s, a)
  {
    match a
    case NewSend(f, v) => NewSendStep(s, f, v);
    case CheckClosed(f) => CheckStep(s, f);
    case LockedPush(f) => PushStep(s, f);
    case Park(f) => ParkStep(s, f);
    case PollAgain(i, p) => PollAgainStep(s, i, p);
    case NewReceive(f, p) => NewReceiveStep(s, f, p);
    case LockedPop(p) => PopStep(s, p);
    case WakeSender(p) => WakeStep(s, p);
    case SetState(_) =>
  }

  ghost predicate NoneStrands<V>(states: seq<Sections<V>>, actions: seq<Section<V>>, n: nat) {
    forall i :: 0 <= i < n && i < |actions| < |states| ==> !Strands(states[i], actions[i])
  }

  /** In every interleaving, while the receiver is open: no sender is ever stranded if and only if no step was such. */
  lemma {:induction false} StrandedIffStrands<V>(size: nat, states: seq<Sections<V>>, actions: seq<Section<V>>, n: nat)
    requires IsRun(size, states, actions) && n < |states| && StaysOpen(states, n)
    ensures (forall i :: 0 <= i <= n ==> !Stranded(states[i])) <==> NoneStrands(states, actions, n)
  {
    if n != 0 {
      StrandedIffStrands(size, states, actions, n - 1);
      if NoneStrands(states, actions, n - 1) {
        assert !Stranded(states[n - 1]);
        RunShape(size, states, actions, n - 1);
        StrandedStep(states[n - 1], actions[n - 1]);
        assert states[n] == Next(states[n - 1], actions[n - 1]);
        assert NoneStrands(states, actions, n) <==> !Strands(states[n - 1], actions[n - 1]);
      }
    }
  }

  /** Every sender that parks finds the buffer still full. */
  ghost predicate ParksOnFull<V>(states: seq<Sections<V>>, actions: seq<Section<V>>, n: nat) {
    forall i :: 0 <= i < n && i < |actions| < |states| && actions[i].Park? ==>
      |states[i].shared.queue| >= states[i].shared.size
  }

  lemma FullBacks<V>(s: Sections<V>, f: Id)
    requires Enabled(s, Park(f)) && |s.shared.queue| >= s.shared.size
    ensures Backed(s, Park(f))
  {
    assert f in Sending(s.sends);
  }

  /**
    Then a parked sender is never stranded: a value is buffered, a send is at
    work, a receive is about to wake a sender, or a woken sender is scheduled.
   */
  lemma NoneStranded<V>(size: nat, states: seq<Sections<V>>, actions: seq<Section<V>>, n: nat)
    requires IsRun(size, states, actions) && n < |states|
    requires StaysOpen(states, n) && ParksOnFull(states, actions, n)
    ensures var s := states[n];
      s.shared.parked != [] ==>
        && Load(s) >= size
        && (size > 0 ==>
              || s.shared.queue != [] || Sending(s.sends) != {}
              || Handing(s.receives) != {} || Scheduled(Pending(s.sends), s.runQueue) != {})
  {
    forall i | 0 <= i < n && i < |actions| && actions[i].Park? ensures Backed(states[i], actions[i]) {
      FullBacks(states[i], actions[i].f);
    }
    CoveredIffBacked(size, states, actions, n);
    assert Covered(states[n]);
    SectionOrder(size, states, actions, n);
  }

  /** Whole polls keep the condition: a sender that parks straight after its failed push finds the buffer full. */
  ghost predicate ParksAtOnce<V>(actions: seq<Section<V>>, n: nat) {
    forall i :: 0 <= i < n && i < |actions| && actions[i].Park? ==> i > 0 && actions[i - 1] == LockedPush(actions[i].f)
  }

  lemma AtOnceIsFull<V>(size: nat, states: seq<Sections<V>>, actions: seq<Section<V>>, n: nat)
    requires IsRun(size, states, actions) && n < |states| && ParksAtOnce(actions, n)
    ensures ParksOnFull(states, actions, n)
  {
    forall i | 0 <= i < n && i < |actions| && actions[i].Park?
      ensures |states[i].shared.queue| >= states[i].shared.size
    {
      var f := actions[i].f;
      assert actions[i - 1] == LockedPush(f);
      assert Enabled(states[i - 1], actions[i - 1]) && Enabled(states[i], actions[i]);
      assert states[i] == Next(states[i - 1], actions[i - 1]);
      assert states[i].sends[f].Parking?;
    }
  }

  // ---------- a stranded sender ----------

  lemma Extend<V>(size: nat, states: seq<Sections<V>>, actions: seq<Section<V>>, a: Section<V>, s: Sections<V>)
    requires IsRun(size, states, actions) && Enabled(states[|actions|], a) && s == Next(states[|actions|], a)
    ensures IsRun(size, states + [s], actions + [a])
  {
  }

  /** Send 1 fills a channel of one. */
  lemma Fill<V>(v: V) returns (states: seq<Sections<V>>, actions: seq<Section<V>>)
    ensures IsRun(1, states, actions)
    ensures states[|actions|]
         == Sections(Shared(1, [v], [], None, Open), [], map[1 := Accepted], {}, map[], [v], [1], [], [])
  {
    var s0 := Start(1);
    var s1 := s0.(sends := map[1 := Checking(v)]);
    Extend(1, [s0], [], NewSend(1, v), s1);
    states, actions := [s0] + [s1], [] + [NewSend(1, v)];
    var s2 := s0.(sends := map[1 := Trying(v)]);
    Extend(1, states, actions, CheckClosed(1), s2);
    states, actions := states + [s2], actions + [CheckClosed(1)];
    var s3 := Sections(Shared(1, [v], [], None, Open), [], map[1 := Accepted], {}, map[], [v], [1], [], []);
    Extend(1, states, actions, LockedPush(1), s3);
    states, actions := states + [s3], actions + [LockedPush(1)];
  }

  /** Send 2 finds it full and releases the lock before it parks. */
  lemma FindFull<V>(v: V, w: V) returns (states: seq<Sections<V>>, actions: seq<Section<V>>)
    ensures IsRun(1, states, actions)
    ensures states[|actions|]
         == Sections(Shared(1, [v], [], None, Open), [], map[1 := Accepted, 2 := Parking(w)], {}, map[], [v], [1], [], [])
  {
    states, actions := Fill(v);
    var s := states[|actions|];
    var s1 := s.(sends := map[1 := Accepted, 2 := Checking(w)]);
    Extend(1, states, actions, NewSend(2, w), s1);
    states, actions := states + [s1], actions + [NewSend(2, w)];
    var s2 := s.(sends := map[1 := Accepted, 2 := Trying(w)]);
    Extend(1, states, actions, CheckClosed(2), s2);
    states, actions := states + [s2], actions + [CheckClosed(2)];
    var s3 := s.(sends := map[1 := Accepted, 2 := Parking(w)]);
    Extend(1, states, actions, LockedPush(2), s3);
    states, actions := states + [s3], actions + [LockedPush(2)];
  }

  /** Receive 3 empties the buffer and finds nobody to wake. */
  lemma WakeNobody<V>(v: V, w: V) returns (states: seq<Sections<V>>, actions: seq<Section<V>>)
    ensures IsRun(1, states, actions)
    ensures states[|actions|] == Sections(Shared(1, [], [], None, Open), [], map[1 := Accepted, 2 := Parking(w)],
              {3}, map[3 := Receiving(3, Got(v))], [v], [1], [v], [3])
  {
    states, actions := FindFull(v, w);
    var s := states[|actions|];
    var s1 := s.(futures := {3}, receives := map[3 := Receiving(3, Popping)]);
    Extend(1, states, actions, NewReceive(3, 3), s1);
    states, actions := states + [s1], actions + [NewReceive(3, 3)];
    var s2 := s1.(shared := Shared(1, [], [], None, Open), receives := map[3 := Receiving(3, Waking(v))], popped := [v],
      takers := [3]);
    Extend(1, states, actions, LockedPop(3), s2);
    states, actions := states + [s2], actions + [LockedPop(3)];
    var s3 := s2.(receives := map[3 := Receiving(3, Got(v))]);
    Extend(1, states, actions, WakeSender(3), s3);
    states, actions := states + [s3], actions + [WakeSender(3)];
  }

  /** Receive 4 waits, then send 2 parks: both wait for each other with nothing scheduled. */
  lemma StrandedSender<V>(v: V, w: V) returns (states: seq<Sections<V>>, actions: seq<Section<V>>)
    ensures IsRun(1, states, actions)
    ensures var s := states[|actions|];
      && s.shared.queue == [] && s.shared.parked == [2] && s.runQueue == []
      && s.sends == map[1 := Accepted, 2 := Parked(w)] && 4 in s.receives && s.receives[4].pc == Waiting
  {
    states, actions := WakeNobody(v, w);
    var s := states[|actions|];
    var s1 := s.(futures := {3, 4}, receives := map[3 := Receiving(3, Got(v)), 4 := Receiving(4, Popping)]);
    Extend(1, states, actions, NewReceive(4, 4), s1);
    states, actions := states + [s1], actions + [NewReceive(4, 4)];
    var s2 := s1.(shared := Shared(1, [], [], Some(4), Open),
      receives := map[3 := Receiving(3, Got(v)), 4 := Receiving(4, Waiting)]);
    Extend(1, states, actions, LockedPop(4), s2);
    states, actions := states + [s2], actions + [LockedPop(4)];
    var s3 := s2.(shared := Shared(1, [], [2], Some(4), Open), sends := map[1 := Accepted, 2 := Parked(w)]);
    Extend(1, states, actions, Park(2), s3);
    states, actions := states + [s3], actions + [Park(2)];
  }
}
