/**
  Whole runs of the timing wheel: conservation and never-early under any clock,
  and, with a whole-millisecond clock, refinement of a flat collection of
  deadlines and the order of emission.
 */
module WheelRuns {
  import opened Odometer
  import opened WheelModel

  // ---------- one walk, whole-millisecond clock ----------

  /** A walk that follows the clock exactly, from a wheel whose placement is exact. */
  ghost predicate ExactWalk(w: Wheel, steps: nat, now: int) {
    w.Inv(true) && w.Inv(false) && CanWalk(w, steps, now) && steps * w.unit == now - w.now
  }

  lemma WholeMeansDue(w: Wheel, e: Event)
    requires w.unit > 0 && w.Whole(e)
    ensures w.Due(e) == w.pos <==> e.expire <= w.now
  {
    TruncDivBounds(e.expire - w.now, w.unit, 1);
    var q := (e.expire - w.now) / w.unit;
    assert e.expire - w.now == w.unit * q;
    if 0 < e.expire - w.now < w.unit {
      MulMonotone(1, q, w.unit);
    }
  }

  lemma StoredFits(w: Wheel, e: Event, whole: bool) returns (i: nat)
    requires w.Inv(whole) && e in w.Bag()
    ensures i < |w.slots| && e in w.slots[i] && w.Held(e, i, whole)
  {
    i := InConcat(w.slots, e);
  }

  /** Everything emitted is past its deadline. */
  lemma EmittedIsPast(w: Wheel, steps: nat, now: int, e: Event)
    requires ExactWalk(w, steps, now)
    ensures e in Walk(w, steps, now).out ==> e.expire <= now
  {
    if e in Walk(w, steps, now).out {
      var v := Cascaded(w, steps, now);
      WalkConserves(w, steps, now);
      assert e in multiset(Walk(w, steps, now).out);
      var i := StoredFits(w, e, true);
      DueNeverRises(w, v, e, true);
      if e in Gone(w, steps) {
        GoneIsDue(w, steps, now, e);
      } else {
        CurrentSlotIsDue(v, e);
      }
      WholeMeansDue(v, e);
    }
  }

  /** Everything left behind is not. */
  lemma LeftIsPending(w: Wheel, steps: nat, now: int, e: Event)
    requires ExactWalk(w, steps, now) && e in Walk(w, steps, now).wheel.Bag()
    ensures e.expire > now
  {
    var v := Walk(w, steps, now).wheel;
    WalkKeeps(w, steps, now, true);
    var i := StoredFits(v, e, true);
    CellCurrent(v.pos, v.Due(e));
    WholeMeansDue(v, e);
  }

  // ---------- order ----------

  /** The sweep order: events appear by non-decreasing cell. */
  predicate ByCell(w: Wheel, es: Events)
    requires w.unit > 0
  {
    forall i, j :: 0 <= i < j < |es| ==> Cell(w.pos, w.Due(es[i])) <= Cell(w.pos, w.Due(es[j]))
  }

  lemma {:induction false} ConcatByCell(w: Wheel, n: nat)
    requires w.Inv(true) && n <= |w.slots|
    ensures ByCell(w, Concat(w.slots[..n]))
    ensures forall e :: e in Concat(w.slots[..n]) ==> Cell(w.pos, w.Due(e)) < n
  {
    if n != 0 {
      ConcatByCell(w, n - 1);
      var a, b := Concat(w.slots[..n - 1]), w.slots[n - 1];
      assert w.slots[..n] == w.slots[..n - 1] + [b];
      ConcatSplit(w.slots[..n - 1], [b]);
      assert Concat([b]) == b;
      forall e | e in b ensures Cell(w.pos, w.Due(e)) == n - 1 {
        assert w.Held(e, n - 1, true);
      }
      AppendByCell(w, a, b, n - 1);
    }
  }

  lemma AppendByCell(w: Wheel, a: Events, b: Events, cell: nat)
    requires w.unit > 0 && ByCell(w, a)
    requires forall e :: e in a ==> Cell(w.pos, w.Due(e)) < cell
    requires forall e :: e in b ==> Cell(w.pos, w.Due(e)) == cell
    ensures ByCell(w, a + b)
  {
    forall i, j | 0 <= i < j < |a + b|
      ensures Cell(w.pos, w.Due((a + b)[i])) <= Cell(w.pos, w.Due((a + b)[j]))
    {
      assert i < |a| ==> (a + b)[i] in a;
      assert i >= |a| ==> (a + b)[i] in b;
      assert j < |a| ==> (a + b)[j] == a[j] && (a + b)[i] == a[i];
      assert j >= |a| ==> (a + b)[j] in b;
    }
  }

  /** Stored from the cut on and due at once after the move: only the cut slot fits. */
  lemma CutSlotOnly(w: Wheel, v: Wheel, e: Event, i: nat)
    requires w.Inv(true) && Later(w, v, true) && i < |w.slots|
    ensures v.Due(e) == v.pos && Cell(w.pos, v.pos) <= i && e in w.slots[i]
        ==> Cell(w.pos, w.Due(e)) == Cell(w.pos, v.pos)
  {
    if v.Due(e) == v.pos && Cell(w.pos, v.pos) <= i && e in w.slots[i] {
      assert w.Held(e, i, true);
      DueNeverRises(w, v, e, true);
      CellMonotone(w.pos, w.Due(e), v.pos);
    }
  }

  /** The cascaded group comes from the cut slot alone. */
  lemma CascadedGroup(w: Wheel, steps: nat, v: Wheel, e: Event)
    requires w.Inv(true) && Later(w, v, true) && v.Inv(false) && v.pos == w.pos + steps
    requires v.Bag() == Kept(w, steps)
    requires e in v.slots[v.pos % 60]
    ensures Cell(w.pos, w.Due(e)) == Cell(w.pos, v.pos)
  {
    var cut := Cell(w.pos, v.pos);
    FitsCell(w.pos, v.pos);
    CurrentSlotIsDue(v, e);
    assert e in Concat(w.slots[cut..]) by {
      WithoutBag(v, v.pos % 60);
      assert e in multiset(v.slots[v.pos % 60]);
      assert e in Kept(w, steps);
    }
    var i := InConcat(w.slots[cut..], e);
    CutSlotOnly(w, v, e, cut + i);
  }

  lemma OutByCell(w: Wheel, steps: nat, v: Wheel)
    requires w.Inv(true) && Later(w, v, true) && v.Inv(false) && v.pos == w.pos + steps
    requires v.Bag() == Kept(w, steps)
    ensures ByCell(w, Gone(w, steps) + v.slots[v.pos % 60])
  {
    var cut := Cell(w.pos, v.pos);
    FitsCell(w.pos, v.pos);
    ConcatByCell(w, cut);
    forall e | e in v.slots[v.pos % 60] ensures Cell(w.pos, w.Due(e)) == cut {
      CascadedGroup(w, steps, v, e);
    }
    AppendByCell(w, Gone(w, steps), v.slots[v.pos % 60], cut);
  }

  /** A walk's output in two parts: what it swept, and what came to lie at the level-0 cursor. */
  lemma WalkParts(w: Wheel, steps: nat, now: int) returns (v: Wheel)
    requires w.Inv(false) && CanWalk(w, steps, now)
    ensures v.Inv(false) && v.pos == w.pos + steps && v.now == now && v.unit == w.unit && v.Bag() == Kept(w, steps)
    ensures Walk(w, steps, now).out == Gone(w, steps) + v.slots[v.pos % 60]
  {
    v := Cascaded(w, steps, now);
    CascadedConserves(w, steps, now);
  }

  /**
    One walk emits by non-decreasing cell, so events of different slots leave in
    deadline order: across the full sweeps, the partial one and the cascaded group.
   */
  lemma EmissionOrder(w: Wheel, steps: nat, now: int, i: nat, j: nat)
    requires ExactWalk(w, steps, now) && i < j < |Walk(w, steps, now).out|
    ensures var es := Walk(w, steps, now).out;
      var a, b := Cell(w.pos, w.Due(es[i])), Cell(w.pos, w.Due(es[j]));
      a <= b && (a != b ==> es[i].expire < es[j].expire)
  {
    var v := WalkParts(w, steps, now);
    OutByCell(w, steps, v);
    var es := Walk(w, steps, now).out;
    if Cell(w.pos, w.Due(es[i])) != Cell(w.pos, w.Due(es[j])) {
      LaterCellLaterDeadline(w, es[i], es[j]);
    }
  }

  lemma LaterCellLaterDeadline(w: Wheel, a: Event, b: Event)
    requires w.unit > 0 && Cell(w.pos, w.Due(a)) < Cell(w.pos, w.Due(b))
    ensures a.expire < b.expire
  {
    if w.Due(b) <= w.Due(a) {
      CellMonotone(w.pos, w.Due(b), w.Due(a));
    }
    TruncDivBounds(a.expire - w.now, w.unit, w.Remaining(b));
    TruncDivBounds(b.expire - w.now, w.unit, w.Remaining(b));
  }

  // ---------- runs ----------

  function Fresh(start: int, unit: int): Wheel {
    Wheel(seq(60 * LEVEL_NUM, _ => []), 0, start, unit)
  }

  /** The wheels a program can hold: those that satisfy the representation invariant. */
  type GoodWheel = w: Wheel | w.Inv(false) witness Fresh(0, 1)

  datatype Call = InsertCall(event: Event) | ExpireCall(clock: int)

  function Apply(w: Wheel, c: Call): (r: Outcome)
    requires w.Inv(false)
    ensures r.wheel.Inv(false) && r.wheel.unit == w.unit && r.wheel.now >= w.now
  {
    match c
    case InsertCall(e) =>
      if Fits(w, e, false) then InsertKeeps(w, e, false); Done(Insert(w, e), []) else OutOfRange(w)
    case ExpireCall(clock) =>
      ExpireKeeps(w, clock);
      Expire(w, clock)
  }

  function Out(r: Outcome): Events {
    if r.Done? then r.out else []
  }

  /** The outcome of each call of a run. */
  function Run(w: Wheel, calls: seq<Call>): (rs: seq<Outcome>)
    requires w.Inv(false)
    ensures |rs| == |calls|
    decreases |calls|
  {
    if calls == [] then []
    else var r := Apply(w, calls[0]); [r] + Run(r.wheel, calls[1..])
  }

  function Final(w: Wheel, calls: seq<Call>): Wheel
    requires w.Inv(false)
    decreases |calls|
  {
    if calls == [] then w else Final(Apply(w, calls[0]).wheel, calls[1..])
  }

  function AllOut(rs: seq<Outcome>): Events {
    if rs == [] then [] else Out(rs[0]) + AllOut(rs[1..])
  }

  /** The events whose insertion was accepted. */
  function Accepted(calls: seq<Call>, rs: seq<Outcome>): Events
    requires |calls| == |rs|
  {
    if calls == [] then []
    else (if calls[0].InsertCall? && rs[0].Done? then [calls[0].event] else []) + Accepted(calls[1..], rs[1..])
  }

  /**
    Conservation over every run, whatever the clock does (stall, run backwards,
    jump out of range, overflow the 32-bit step count): each accepted event is
    stored or was emitted, exactly as many times as it was accepted.
   */
  lemma {:induction false} RunConserves(w: Wheel, calls: seq<Call>)
    requires w.Inv(false)
    ensures Final(w, calls).Bag() + multiset(AllOut(Run(w, calls)))
         == w.Bag() + multiset(Accepted(calls, Run(w, calls)))
    decreases |calls|
  {
    if calls != [] {
      var r, rest := Apply(w, calls[0]), calls[1..];
      RunConserves(r.wheel, rest);
      ApplyConserves(w, calls[0]);
      RunUnfolds(w, calls);
      AddBalances(w.Bag(), r.wheel.Bag(), Final(r.wheel, rest).Bag(),
        if calls[0].InsertCall? && r.Done? then multiset{calls[0].event} else multiset{},
        multiset(Accepted(rest, Run(r.wheel, rest))),
        multiset(Out(r)), multiset(AllOut(Run(r.wheel, rest))));
    }
  }

  lemma AddBalances(a: multiset<Event>, b: multiset<Event>, c: multiset<Event>, in1: multiset<Event>,
                    in2: multiset<Event>, out1: multiset<Event>, out2: multiset<Event>)
    requires b + out1 == a + in1 && c + out2 == b + in2
    ensures c + (out1 + out2) == a + (in1 + in2)
  {
    calc {
      c + (out1 + out2);
      (c + out2) + out1;
      (b + out1) + in2;
      a + (in1 + in2);
    }
  }

  lemma RunUnfolds(w: Wheel, calls: seq<Call>)
    requires w.Inv(false) && calls != []
    ensures var r, rest := Apply(w, calls[0]), calls[1..];
      && Final(w, calls) == Final(r.wheel, rest)
      && multiset(AllOut(Run(w, calls))) == multiset(Out(r)) + multiset(AllOut(Run(r.wheel, rest)))
      && multiset(Accepted(calls, Run(w, calls)))
         == (if calls[0].InsertCall? && r.Done? then multiset{calls[0].event} else multiset{})
            + multiset(Accepted(rest, Run(r.wheel, rest)))
  {
    assert Run(w, calls)[1..] == Run(Apply(w, calls[0]).wheel, calls[1..]);
  }

  lemma ApplyConserves(w: Wheel, c: Call)
    requires w.Inv(false)
    ensures Apply(w, c).wheel.Bag() + multiset(Out(Apply(w, c)))
         == w.Bag() + (if c.InsertCall? && Apply(w, c).Done? then multiset{c.event} else multiset{})
  {
    match c
    case InsertCall(e) =>
      if Fits(w, e, false) {
        InsertConserves(w, e);
      }
    case ExpireCall(clock) =>
      if clock > w.now && w.pos + Steps(w, clock) < RANGE {
        StepsBound(w, clock);
        WalkConserves(w, Steps(w, clock), clock);
      }
  }

  lemma ApplyNeverEarly(w: Wheel, c: Call, e: Event)
    requires w.Inv(false)
    ensures e in Out(Apply(w, c)) ==> c.ExpireCall? && e.expire - c.clock < w.unit
  {
    if e in Out(Apply(w, c)) && c.ExpireCall? {
      StepsBound(w, c.clock);
      NeverEarly(w, Steps(w, c.clock), c.clock, e);
    }
  }

  lemma InsertOutcome(w: GoodWheel, e: Event) returns (v: GoodWheel, ok: bool)
    ensures Apply(w, InsertCall(e)) == if ok then Done(v, []) else OutOfRange(v)
    ensures v.unit == w.unit && v.Bag() == w.Bag() + if ok then multiset{e} else multiset{}
  {
    ok := Fits(w, e, false);
    v := Apply(w, InsertCall(e)).wheel;
    if ok {
      InsertConserves(w, e);
    }
  }

  /** Never early over every run and every clock. */
  lemma {:induction false} RunNeverEarly(w: Wheel, calls: seq<Call>, k: nat, e: Event)
    requires w.Inv(false) && k < |calls|
    ensures e in Out(Run(w, calls)[k]) ==> calls[k].ExpireCall? && e.expire - calls[k].clock < w.unit
    decreases k
  {
    if k == 0 {
      ApplyNeverEarly(w, calls[0], e);
    } else {
      assert Run(w, calls)[k] == Run(Apply(w, calls[0]).wheel, calls[1..])[k - 1];
      RunNeverEarly(Apply(w, calls[0]).wheel, calls[1..], k - 1, e);
    }
  }

  // ---------- refinement of a flat collection of deadlines ----------

  /** The reference: pending timers in no particular structure. */
  datatype Flat = Flat(pending: Events, now: int)

  function Past(es: Events, clock: int): Events {
    if es == [] then []
    else (if es[0].expire <= clock then [es[0]] else []) + Past(es[1..], clock)
  }

  function Future(es: Events, clock: int): Events {
    if es == [] then []
    else (if es[0].expire <= clock then [] else [es[0]]) + Future(es[1..], clock)
  }

  function FlatApply(f: Flat, c: Call): (Flat, Events) {
    match c
    case InsertCall(e) => (f.(pending := f.pending + [e]), [])
    case ExpireCall(clock) =>
      if clock > f.now then (Flat(Future(f.pending, clock), clock), Past(f.pending, clock)) else (f, [])
  }

  function FlatRun(f: Flat, calls: seq<Call>): (outs: seq<Events>)
    ensures |outs| == |calls|
    decreases |calls|
  {
    if calls == [] then []
    else var r := FlatApply(f, calls[0]); [r.1] + FlatRun(r.0, calls[1..])
  }

  /** Times that are whole milliseconds after `start`, and within the wheel's range of it. */
  predicate OnGrid(unit: int, start: int, time: int) {
    unit > 0 && (time - start) % unit == 0 && time - start < RANGE * unit
  }

  predicate CallOnGrid(unit: int, start: int, c: Call) {
    match c
    case InsertCall(e) => OnGrid(unit, start, e.expire)
    case ExpireCall(clock) => OnGrid(unit, start, clock)
  }

  /** The wheel's position is the number of milliseconds since `start`. */
  ghost predicate Synced(w: Wheel, start: int) {
    w.Inv(true) && w.Inv(false) && w.now - start == w.pos * w.unit
  }

  ghost predicate Related(w: Wheel, f: Flat) {
    w.Bag() == multiset(f.pending) && w.now == f.now
  }

  lemma {:induction false} PastFutureCounts(es: Events, clock: int, e: Event)
    ensures multiset(Past(es, clock))[e] == if e.expire <= clock then multiset(es)[e] else 0
    ensures multiset(Future(es, clock))[e] == if e.expire <= clock then 0 else multiset(es)[e]
  {
    if es != [] {
      assert es == [es[0]] + es[1..];
      PastFutureCounts(es[1..], clock, e);
    }
  }

  /** A split of the pending timers by deadline is the reference's split. */
  lemma SplitIsUnique(out: multiset<Event>, left: multiset<Event>, es: Events, clock: int)
    requires out + left == multiset(es)
    requires forall e :: e in out ==> e.expire <= clock
    requires forall e :: e in left ==> e.expire > clock
    ensures out == multiset(Past(es, clock)) && left == multiset(Future(es, clock))
  {
    forall e
      ensures out[e] == multiset(Past(es, clock))[e] && left[e] == multiset(Future(es, clock))[e]
    {
      PastFutureCounts(es, clock, e);
      assert (out + left)[e] == multiset(es)[e];
      assert e.expire <= clock ==> e !in left;
      assert e.expire > clock ==> e !in out;
    }
  }

  lemma DivExact(a: int, k: int, b: int)
    requires b > 0 && a == k * b
    ensures a / b == k && a % b == 0
  {
    MulMod(k, b);
    var q := a / b;
    assert a == b * q;
    if q < k {
      MulMonotone(q + 1, k, b);
    } else if k < q {
      MulMonotone(k + 1, q, b);
    }
  }

  /** On the grid, the step count is the exact distance and fits both the cursors and an int. */
  lemma GridSteps(w: Wheel, start: int, clock: int)
    requires Synced(w, start) && OnGrid(w.unit, start, clock) && clock > w.now
    ensures CanWalk(w, Steps(w, clock), clock) && Steps(w, clock) * w.unit == clock - w.now
  {
    var n := (clock - start) / w.unit;
    assert clock - start == w.unit * n;
    assert clock - w.now == (n - w.pos) * w.unit;
    DivExact(clock - w.now, n - w.pos, w.unit);
    if n - w.pos <= 0 {
      MulMonotone(n - w.pos, 0, w.unit);
    }
    if n >= RANGE {
      MulMonotone(RANGE, n, w.unit);
    }
  }

  /** On the grid, a deadline is whole and within range. */
  lemma GridFits(w: Wheel, start: int, e: Event)
    requires Synced(w, start) && OnGrid(w.unit, start, e.expire)
    ensures Fits(w, e, true)
  {
    var n := (e.expire - start) / w.unit;
    assert e.expire - start == w.unit * n;
    assert e.expire - w.now == (n - w.pos) * w.unit;
    DivExact(e.expire - w.now, n - w.pos, w.unit);
    if n >= RANGE {
      MulMonotone(RANGE, n, w.unit);
    }
    if e.expire < w.now {
      assert w.Remaining(e) <= 0;
    }
  }

  /** A wheel in step with the clock stays so when both move on together. */
  lemma StaysSynced(w: Wheel, v: Wheel, start: int)
    requires v.Inv(true) && v.Inv(false) && Later(w, v, true) && w.now - start == w.pos * w.unit
    ensures Synced(v, start)
  {
    assert v.pos * v.unit == w.pos * w.unit + (v.pos - w.pos) * w.unit;
  }

  /** Any split of the stored events at the clock is the reference's. */
  lemma SplitRefines(w: Wheel, f: Flat, v: Wheel, out: Events)
    requires Related(w, f) && v.Bag() + multiset(out) == w.Bag()
    requires forall e :: e in out ==> e.expire <= v.now
    requires forall e :: e in v.Bag() ==> e.expire > v.now
    ensures Related(v, Flat(Future(f.pending, v.now), v.now)) && multiset(out) == multiset(Past(f.pending, v.now))
  {
    SplitIsUnique(multiset(out), v.Bag(), f.pending, v.now);
  }

  lemma WalkRefines(w: Wheel, f: Flat, start: int, steps: nat, clock: int)
    requires Synced(w, start) && Related(w, f) && CanWalk(w, steps, clock) && steps * w.unit == clock - w.now
    ensures var r := Walk(w, steps, clock);
      && Synced(r.wheel, start) && Related(r.wheel, Flat(Future(f.pending, clock), clock))
      && multiset(r.out) == multiset(Past(f.pending, clock))
  {
    var r := Walk(w, steps, clock);
    WalkKeeps(w, steps, clock, true);
    WalkKeeps(w, steps, clock, false);
    WalkConserves(w, steps, clock);
    forall e | e in r.out ensures e.expire <= clock {
      EmittedIsPast(w, steps, clock, e);
    }
    forall e | e in r.wheel.Bag() ensures e.expire > clock {
      LeftIsPending(w, steps, clock, e);
    }
    StaysSynced(w, r.wheel, start);
    SplitRefines(w, f, r.wheel, r.out);
  }

  lemma ExpireRefines(w: Wheel, f: Flat, start: int, clock: int)
    requires Synced(w, start) && Related(w, f) && OnGrid(w.unit, start, clock)
    ensures var r := Expire(w, clock);
      var fr := FlatApply(f, ExpireCall(clock));
      r.Done? && Synced(r.wheel, start) && Related(r.wheel, fr.0) && multiset(r.out) == multiset(fr.1)
  {
    if clock > w.now {
      GridSteps(w, start, clock);
      WalkRefines(w, f, start, Steps(w, clock), clock);
    }
  }

  lemma ApplyRefines(w: Wheel, f: Flat, start: int, c: Call)
    requires Synced(w, start) && Related(w, f) && CallOnGrid(w.unit, start, c)
    ensures var r := Apply(w, c);
      var fr := FlatApply(f, c);
      r.Done? && Synced(r.wheel, start) && Related(r.wheel, fr.0) && multiset(r.out) == multiset(fr.1)
  {
    match c
    case InsertCall(e) =>
      GridFits(w, start, e);
      InsertKeeps(w, e, true);
      InsertKeeps(w, e, false);
      InsertConserves(w, e);
    case ExpireCall(clock) =>
      ExpireRefines(w, f, start, clock);
  }

  predicate AllOnGrid(unit: int, start: int, calls: seq<Call>) {
    forall i :: 0 <= i < |calls| ==> CallOnGrid(unit, start, calls[i])
  }

  lemma RunAt(w: Wheel, f: Flat, calls: seq<Call>, k: nat)
    requires w.Inv(false) && 0 < k < |calls|
    ensures Run(w, calls)[k] == Run(Apply(w, calls[0]).wheel, calls[1..])[k - 1]
    ensures FlatRun(f, calls)[k] == FlatRun(FlatApply(f, calls[0]).0, calls[1..])[k - 1]
  {
  }

  lemma TailOnGrid(unit: int, start: int, calls: seq<Call>)
    requires AllOnGrid(unit, start, calls) && calls != []
    ensures CallOnGrid(unit, start, calls[0]) && AllOnGrid(unit, start, calls[1..])
  {
  }

  /**
    Refinement: with a whole-millisecond clock and all times within range, every
    call of every run succeeds and emits exactly what the flat collection would.
   */
  lemma {:induction false} Refinement(w: Wheel, f: Flat, start: int, calls: seq<Call>, k: nat)
    requires Synced(w, start) && Related(w, f) && AllOnGrid(w.unit, start, calls) && k < |calls|
    ensures Run(w, calls)[k].Done? && multiset(Run(w, calls)[k].out) == multiset(FlatRun(f, calls)[k])
    decreases k
  {
    TailOnGrid(w.unit, start, calls);
    ApplyRefines(w, f, start, calls[0]);
    if k != 0 {
      RunAt(w, f, calls, k);
      Refinement(Apply(w, calls[0]).wheel, FlatApply(f, calls[0]).0, start, calls[1..], k - 1);
    }
  }

  /** Along such a run the wheel stays in step with the clock. */
  lemma {:induction false} SyncedAlong(w: Wheel, f: Flat, start: int, calls: seq<Call>)
    requires Synced(w, start) && Related(w, f) && AllOnGrid(w.unit, start, calls)
    ensures Synced(Final(w, calls), start)
    decreases |calls|
  {
    if calls != [] {
      TailOnGrid(w.unit, start, calls);
      ApplyRefines(w, f, start, calls[0]);
      SyncedAlong(Apply(w, calls[0]).wheel, FlatApply(f, calls[0]).0, start, calls[1..]);
    }
  }

  /** Within one `expire` of a wheel in step, events of different slots leave in deadline order. */
  lemma ExpireOrder(w: Wheel, start: int, clock: int, i: nat, j: nat)
    requires Synced(w, start) && OnGrid(w.unit, start, clock) && i < j
    ensures var es := Out(Expire(w, clock));
      j < |es| ==>
        var a, b := Cell(w.pos, w.Due(es[i])), Cell(w.pos, w.Due(es[j]));
        a <= b && (a != b ==> es[i].expire < es[j].expire)
  {
    if j < |Out(Expire(w, clock))| {
      GridSteps(w, start, clock);
      EmissionOrder(w, Steps(w, clock), clock, i, j);
    }
  }

  // ---------- the range is tight ----------

  /** From a wheel in step with the clock, insertion fails exactly from RANGE milliseconds after the start on. */
  lemma InsertRange(w: Wheel, start: int, e: Event)
    requires Synced(w, start)
    ensures Apply(w, InsertCall(e)).OutOfRange? <==> e.expire - start >= RANGE * w.unit
  {
    var q := RANGE - w.pos;
    TruncDivBounds(e.expire - w.now, w.unit, q);
    assert q * w.unit == RANGE * w.unit - w.pos * w.unit;
  }

  lemma StepsRange(w: Wheel, clock: int)
    requires w.unit > 0 && w.pos < RANGE && 0 < clock - w.now < TWO_31 * w.unit
    ensures w.pos + Steps(w, clock) >= RANGE <==> clock - w.now >= (RANGE - w.pos) * w.unit
  {
    TruncDivBounds(clock - w.now, w.unit, RANGE - w.pos);
    TruncDivBounds(clock - w.now, w.unit, TWO_31);
  }

  /**
    An advance of n milliseconds throws exactly when n, cut to 32 bits, is a
    non-negative int that takes the position out of range. As long as n fits an
    int that is from RANGE milliseconds after the start on.
   */
  lemma ExpireRange(w: Wheel, start: int, clock: int)
    requires Synced(w, start)
    ensures Apply(w, ExpireCall(clock)).OutOfRange?
       <==> clock > w.now && RANGE - w.pos <= ((clock - w.now) / w.unit) % TWO_32 < TWO_31
    ensures clock - w.now < TWO_31 * w.unit ==>
      (Apply(w, ExpireCall(clock)).OutOfRange? <==> clock - start >= RANGE * w.unit)
  {
    var q := RANGE - w.pos;
    assert q * w.unit == RANGE * w.unit - w.pos * w.unit;
    if clock <= w.now {
      MulMonotone(1, q, w.unit);
    } else {
      IntOfCount((clock - w.now) / w.unit);
      if clock - w.now < TWO_31 * w.unit {
        StepsRange(w, clock);
      }
    }
  }

  lemma IntOfCount(n: int)
    requires n >= 0
    ensures ToInt32(n) == if n % TWO_32 < TWO_31 then n % TWO_32 else n % TWO_32 - TWO_32
  {
  }

  lemma FreshIsSynced(start: int, unit: int)
    requires unit > 0
    ensures Synced(Fresh(start, unit), start) && Related(Fresh(start, unit), Flat([], start))
  {
    ConcatEmpty(60 * LEVEL_NUM);
  }

  // ---------- beyond the range ----------

  /** Every stored event has less than a millisecond left at time `now`. */
  ghost predicate AllOverdue(w: Wheel, now: int) {
    forall i, e :: 0 <= i < |w.slots| && e in w.slots[i] ==> e.expire - now < w.unit
  }

  lemma OverdueIsDue(w: Wheel, e: Event)
    requires w.unit > 0 && e.expire - w.now < w.unit
    ensures w.Due(e) == w.pos
  {
    TruncDivBounds(e.expire - w.now, w.unit, 1);
  }

  /** Overdue events all go to the level-0 cursor slot, in order. */
  lemma {:induction false} InsertAllOverdue(w: Wheel, es: Events)
    requires w.Shaped() && AllFit(w, es, false) && forall e :: e in es ==> e.expire - w.now < w.unit
    ensures InsertAll(w, es).slots == w.slots[w.pos % 60 := w.slots[w.pos % 60] + es]
    decreases |es|
  {
    var c := w.pos % 60;
    if es == [] {
      assert w.slots[c] + es == w.slots[c];
      assert w.slots[c := w.slots[c]] == w.slots;
    } else {
      TailFits(w, es, false);
      OverdueIsDue(w, es[0]);
      CellCurrent(w.pos, w.pos);
      var v := Insert(w, es[0]);
      assert v.slots == w.slots[c := w.slots[c] + [es[0]]];
      InsertAllOverdue(v, es[1..]);
      assert w.slots[c] + [es[0]] + es[1..] == w.slots[c] + es;
      assert w.slots[c := w.slots[c] + [es[0]]][c := w.slots[c] + es] == w.slots[c := w.slots[c] + es];
    }
  }

  /** Slot i emptied onto the end of slot c. */
  function Moved(slots: seq<Events>, i: nat, c: nat): seq<Events>
    requires i < |slots| && c < |slots|
  {
    slots[i := []][c := slots[i := []][c] + slots[i]]
  }

  lemma RestoreOverdue(w: Wheel, i: nat)
    requires InvBut(w, i, false) && forall e :: e in w.slots[i] ==> e.expire - w.now < w.unit
    ensures Restore(w, i).slots == Moved(w.slots, i, w.pos % 60)
  {
    InsertAllOverdue(Without(w, i), w.slots[i]);
  }

  /** The first cell a walk to the cut leaves alone when everything is overdue. */
  function Reached(cut: nat): nat {
    if cut % 60 == 59 then cut + 1 else cut + 2
  }

  lemma CutAndCursor(p: nat, q: nat)
    requires p <= q
    ensures q % 60 <= Cell(p, q) && NextOnLevel(Cell(p, q)) != q % 60
  {
    if p / 60 != q / 60 {
      assert Cell(p, q) >= 60;
    }
  }

  /** What the cut slot and its neighbour come to when both are moved to the cursor slot. */
  lemma MovedTwice(slots: seq<Events>, cut: nat, c: nat)
    requires c <= cut < |slots| && Reached(cut) <= |slots| && NextOnLevel(cut) != c
    ensures NextOnLevel(cut) < |slots|
    ensures Moved(Moved(Cleared(slots, cut), cut, c), NextOnLevel(cut), c)[c] == Concat(slots[cut..Reached(cut)])
  {
    var a := Moved(Cleared(slots, cut), cut, c);
    assert a[c] == slots[cut];
    if cut % 60 == 59 {
      assert a[cut - 59] == [];
      assert slots[cut..cut + 1] == [slots[cut]];
      ConcatTwo(slots[cut], []);
    } else {
      assert a[cut + 1] == slots[cut + 1];
      assert slots[cut..cut + 2] == [slots[cut], slots[cut + 1]];
      ConcatTwo(slots[cut], slots[cut + 1]);
    }
  }

  lemma ConcatTwo(a: Events, b: Events)
    ensures Concat([a]) == a && Concat([a, b]) == a + b
  {
    assert [a][1..] == [];
    assert [a, b][1..] == [b] && [b][1..] == [];
    assert Concat([b]) == b;
  }

  lemma PlanOverdue(w: Wheel, v: Wheel, u: Wheel, c: Wheel)
    requires |w.slots| == 60 * LEVEL_NUM && Plan(w, w.pos, v, u, c) && AllOverdue(w, v.now)
    ensures Reached(Cell(w.pos, v.pos)) <= |w.slots|
    ensures Concat(w.slots[..Cell(w.pos, v.pos)]) + c.slots[c.pos % 60] == Concat(w.slots[..Reached(Cell(w.pos, v.pos))])
  {
    var cut, k := Cell(w.pos, v.pos), v.pos % 60;
    CutAndCursor(w.pos, v.pos);
    RestoreOverdue(v, cut);
    assert u.slots == Moved(v.slots, cut, k) && u.pos == v.pos && u.now == v.now && u.unit == v.unit;
    NeighbourOverdue(w, v.slots, cut, k, v.now);
    RestoreOverdue(u, NextOnLevel(cut));
    MovedTwice(w.slots, cut, k);
    ConcatUpTo(w.slots, cut, Reached(cut));
  }

  lemma NeighbourOverdue(w: Wheel, slots: seq<Events>, cut: nat, k: nat, now: int)
    requires AllOverdue(w, now) && k <= cut < |w.slots| && slots == Cleared(w.slots, cut)
    requires NextOnLevel(cut) < |w.slots| && NextOnLevel(cut) != k
    ensures forall e :: e in Moved(slots, cut, k)[NextOnLevel(cut)] ==> e.expire - now < w.unit
  {
  }

  lemma CascadeOverdue(w: Wheel, steps: nat, now: int) returns (c: Wheel)
    requires w.Inv(false) && CanWalk(w, steps, now) && AllOverdue(w, now)
    ensures c == Cascaded(w, steps, now) && c.pos % 60 < |c.slots|
    ensures var cut := Cell(w.pos, w.pos + steps);
      && cut <= |w.slots| && Reached(cut) <= |w.slots|
      && Concat(w.slots[..cut]) + c.slots[c.pos % 60] == Concat(w.slots[..Reached(cut)])
  {
    var v, u;
    v, u, c := MakePlan(w, steps, now);
    PlanOverdue(w, v, u, c);
  }

  /** A walk with everything overdue hands out the cells up to the cut, the cut slot and its neighbour, and no more. */
  lemma WalkOverdue(w: Wheel, steps: nat, now: int)
    requires w.Inv(false) && CanWalk(w, steps, now) && AllOverdue(w, now)
    ensures Reached(Cell(w.pos, w.pos + steps)) <= |w.slots|
    ensures Walk(w, steps, now).out == Concat(w.slots[..Reached(Cell(w.pos, w.pos + steps))])
  {
    var c := CascadeOverdue(w, steps, now);
  }

  /** A stored deadline lies within the range, so beyond it everything is due. */
  lemma AllDueBeyond(w: Wheel, start: int, clock: int, e: Event)
    requires Synced(w, start) && RANGE * w.unit <= clock - start && Fits(w, e, false)
    ensures e.expire < clock
  {
    var q := RANGE - w.pos;
    TruncDivBounds(e.expire - w.now, w.unit, q);
    assert q * w.unit == RANGE * w.unit - w.pos * w.unit;
  }

  lemma {:induction false} AllPast(es: Events, clock: int)
    requires forall e :: e in es ==> e.expire <= clock
    ensures Past(es, clock) == es
  {
    if es != [] {
      assert es[0] in es;
      AllPast(es[1..], clock);
    }
  }

  /** From how far on the cells survive an advance beyond the range: all of them if it throws. */
  function Survivors(w: Wheel, clock: int): nat
    requires w.Shaped() && w.now < clock
  {
    if w.pos + Steps(w, clock) >= RANGE then 0 else Reached(Cell(w.pos, w.pos + Steps(w, clock)))
  }

  /**
    Beyond the range every stored timer is due and the flat collection hands out
    all of them. The wheel hands out the cells before the survivors, which is
    nothing if it throws and the part it walks to if the step count, cut to 32
    bits, is too small. So the two agree if and only if no later cell holds a timer.
   */
  lemma RangeIsNeeded(w: Wheel, f: Flat, start: int, clock: int)
    requires Synced(w, start) && Related(w, f) && w.now < clock && RANGE * w.unit <= clock - start
    ensures multiset(FlatApply(f, ExpireCall(clock)).1) == w.Bag()
    ensures var m, out := Survivors(w, clock), Out(Apply(w, ExpireCall(clock)));
      && m <= |w.slots| && out == Concat(w.slots[..m])
      && (multiset(out) == multiset(FlatApply(f, ExpireCall(clock)).1) <==> Concat(w.slots[m..]) == [])
  {
    FlatHandsOutAll(w, f, start, clock);
    WheelHandsOut(w, start, clock);
    ConcatCut(w.slots, Survivors(w, clock));
    WholeOrPart(Concat(w.slots[..Survivors(w, clock)]), Concat(w.slots[Survivors(w, clock)..]));
  }

  lemma WholeOrPart(a: Events, b: Events)
    ensures multiset(a) == multiset(a + b) <==> b == []
  {
    assert |multiset(a + b)| == |a| + |b|;
    assert b == [] ==> a + b == a;
  }

  lemma FlatHandsOutAll(w: Wheel, f: Flat, start: int, clock: int)
    requires Synced(w, start) && Related(w, f) && w.now < clock && RANGE * w.unit <= clock - start
    ensures multiset(FlatApply(f, ExpireCall(clock)).1) == w.Bag()
  {
    forall e | e in f.pending ensures e.expire <= clock {
      assert e in multiset(f.pending);
      var i := StoredFits(w, e, false);
      AllDueBeyond(w, start, clock, e);
    }
    AllPast(f.pending, clock);
  }

  lemma WheelHandsOut(w: Wheel, start: int, clock: int)
    requires Synced(w, start) && w.now < clock && RANGE * w.unit <= clock - start
    ensures Survivors(w, clock) <= |w.slots|
    ensures Out(Apply(w, ExpireCall(clock))) == Concat(w.slots[..Survivors(w, clock)])
  {
    StepsBound(w, clock);
    if w.pos + Steps(w, clock) < RANGE {
      forall i, e | 0 <= i < |w.slots| && e in w.slots[i] ensures e.expire - clock < w.unit {
        assert w.Held(e, i, false);
        AllDueBeyond(w, start, clock, e);
      }
      WalkOverdue(w, Steps(w, clock), clock);
    } else {
      assert w.slots[..0] == [];
    }
  }

  /** A wheel started at 0 with a millisecond clock, and its timer due at 5 inserted. */
  lemma OneTimer(id: nat) returns (w: Wheel)
    ensures Synced(w, 0) && w.pos == 0 && w.now == 0 && w.unit == 1 && w.Bag() == multiset{Event(id, 5)}
    ensures w.slots[..2] == [[], []]
  {
    FreshIsSynced(0, 1);
    var e := Event(id, 5);
    ApplyRefines(Fresh(0, 1), Flat([], 0), 0, InsertCall(e));
    w := Apply(Fresh(0, 1), InsertCall(e)).wheel;
    FifthCell(Fresh(0, 1), e);
  }

  lemma FifthCell(w: Wheel, e: Event)
    requires w == Fresh(0, 1) && e.expire == 5
    ensures Fits(w, e, false) && Insert(w, e).slots[..2] == [[], []]
  {
    assert w.Due(e) == 5 && Cell(0, 5) == 5;
    assert Insert(w, e).slots == w.slots[5 := w.slots[5] + [e]];
  }

  lemma NothingOut(a: multiset<Event>, b: multiset<Event>, out: Events)
    requires a + multiset(out) == b + multiset{} && out == []
    ensures a == b
  {
    assert a + multiset(out) == a && b + multiset{} == b;
  }

  /** At 60^5 milliseconds it throws and hands out nothing; at 2^32 it walks no step and keeps the timer. */
  lemma BeyondTheRange(id: nat) returns (w: Wheel)
    ensures w.Inv(false) && w.Bag() == multiset{Event(id, 5)}
    ensures Apply(w, ExpireCall(RANGE)).OutOfRange?
    ensures var r := Apply(w, ExpireCall(TWO_32));
      r.Done? && r.out == [] && r.wheel.Bag() == multiset{Event(id, 5)}
  {
    w := OneTimer(id);
    ExpireRange(w, 0, RANGE);
    ExpireRange(w, 0, TWO_32);
    WheelHandsOut(w, 0, TWO_32);
    assert Steps(w, TWO_32) == 0 && Cell(0, 0) == 0;
    ConcatTwo([], []);
    var r := Apply(w, ExpireCall(TWO_32));
    ApplyConserves(w, ExpireCall(TWO_32));
    NothingOut(r.wheel.Bag(), w.Bag(), Out(r));
  }
}
