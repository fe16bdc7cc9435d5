/**
  How late the timing wheel can be. An advance by whole milliseconds leaves the
  fraction behind, so the position lags behind the clock; an event is kept past
  its deadline by no more than that lag.
 */
module WheelLateness {
  import opened Odometer
  import opened WheelModel
  import opened WheelRuns
  import opened WheelEmission

  /** How far the position is behind the clock, for a wheel started at `start`. */
  function Lag(w: Wheel, start: int): int {
    w.now - start - w.pos * w.unit
  }

  /** e in cell i is to be handed out at a tick not after its deadline, counted from the start, or at the next advance. */
  ghost predicate Promised(w: Wheel, start: int, e: Event, i: nat) {
    exists d: nat :: w.pos <= d < RANGE && Cell(w.pos, d) == i && OnTime(w, start, e, d)
  }

  predicate OnTime(w: Wheel, start: int, e: Event, d: nat) {
    d == w.pos || start + d * w.unit <= e.expire
  }

  ghost predicate AllPromised(w: Wheel, start: int) {
    forall i, e :: 0 <= i < |w.slots| && e in w.slots[i] ==> Promised(w, start, e, i)
  }

  ghost predicate Punctual(w: Wheel, start: int) {
    w.Inv(false) && Lag(w, start) >= 0 && AllPromised(w, start)
  }

  // ---------- insertion ----------

  lemma DueIsOnTime(w: Wheel, start: int, e: Event)
    requires w.unit > 0 && Lag(w, start) >= 0
    ensures OnTime(w, start, e, w.Due(e))
  {
    var t := CountMs(w.now, e.expire, w.unit);
    DueMs(w, e, t);
    if t != 0 {
      assert (w.pos + t) * w.unit == w.pos * w.unit + t * w.unit;
    }
  }

  lemma InsertPromises(w: Wheel, start: int, e: Event)
    requires w.Shaped() && Fits(w, e, false) && Lag(w, start) >= 0 && AllPromised(w, start)
    ensures AllPromised(Insert(w, e), start) && Lag(Insert(w, e), start) == Lag(w, start)
  {
    var v := Insert(w, e);
    DueIsOnTime(w, start, e);
    FitsCell(w.pos, w.Due(e));
    forall i, x | 0 <= i < |v.slots| && x in v.slots[i] ensures Promised(v, start, x, i) {
      if x in w.slots[i] {
        SamePromise(w, v, start, x, i);
      } else {
        assert x == e && i == Cell(w.pos, w.Due(e));
        assert OnTime(v, start, x, w.Due(e));
      }
    }
  }

  lemma SamePromise(w: Wheel, v: Wheel, start: int, e: Event, i: nat)
    requires Promised(w, start, e, i) && v.pos == w.pos && v.unit == w.unit
    ensures Promised(v, start, e, i)
  {
    var d: nat :| w.pos <= d < RANGE && Cell(w.pos, d) == i && OnTime(w, start, e, d);
    assert OnTime(v, start, e, d);
  }

  lemma {:induction false} InsertAllPromises(w: Wheel, start: int, es: Events)
    requires w.Shaped() && AllFit(w, es, false) && Lag(w, start) >= 0 && AllPromised(w, start)
    ensures AllPromised(InsertAll(w, es), start)
    decreases |es|
  {
    if es != [] {
      TailFits(w, es, false);
      InsertPromises(w, start, es[0]);
      InsertAllPromises(Insert(w, es[0]), start, es[1..]);
    }
  }

  lemma WithoutPromises(w: Wheel, start: int, i: nat)
    requires i < |w.slots| && AllPromised(w, start)
    ensures AllPromised(Without(w, i), start)
  {
    var v := Without(w, i);
    forall j, x | 0 <= j < |v.slots| && x in v.slots[j] ensures Promised(v, start, x, j) {
      SamePromise(w, v, start, x, j);
    }
  }

  lemma RestorePromises(w: Wheel, start: int, i: nat)
    requires InvBut(w, i, false) && Lag(w, start) >= 0 && AllPromised(Without(w, i), start)
    ensures AllPromised(Restore(w, i), start)
  {
    InsertAllPromises(Without(w, i), start, w.slots[i]);
  }

  // ---------- walking ----------

  /** An event beyond the cut keeps its promise when the position moves on. */
  lemma LaterPromise(w: Wheel, v: Wheel, start: int, e: Event, i: nat)
    requires Promised(w, start, e, i) && w.pos <= v.pos && v.unit == w.unit && i > Cell(w.pos, v.pos)
    ensures Promised(v, start, e, i)
  {
    var d: nat :| w.pos <= d < RANGE && Cell(w.pos, d) == i && OnTime(w, start, e, d);
    if d <= v.pos {
      CellMonotone(w.pos, d, v.pos);
    } else {
      CellMonotone(w.pos, v.pos, d);
      CellShift(w.pos, v.pos, d);
      assert OnTime(v, start, e, d);
    }
  }

  lemma SweptPromises(w: Wheel, start: int, v: Wheel, cut: nat)
    requires AllPromised(w, start) && w.pos <= v.pos && cut == Cell(w.pos, v.pos) < |w.slots|
    requires v.slots == Cleared(w.slots, cut) && v.unit == w.unit
    ensures AllPromised(Without(v, cut), start)
  {
    var u := Without(v, cut);
    forall i, e | 0 <= i < |u.slots| && e in u.slots[i] ensures Promised(u, start, e, i) {
      assert i > cut && e in w.slots[i];
      LaterPromise(w, u, start, e, i);
    }
  }

  lemma LagAfter(w: Wheel, v: Wheel, start: int, steps: nat)
    requires v.pos == w.pos + steps && v.unit == w.unit && steps * w.unit <= v.now - w.now
    ensures Lag(v, start) == Lag(w, start) + (v.now - w.now - steps * w.unit) >= Lag(w, start)
  {
    assert v.pos * v.unit == w.pos * w.unit + steps * w.unit;
  }

  lemma SettledPromises(w: Wheel, start: int, steps: nat, now: int, u: Wheel)
    requires Punctual(w, start) && CanWalk(w, steps, now) && u == Settled(w, steps, now)
    ensures AllPromised(u, start) && Lag(u, start) >= 0
  {
    var v, cut := Swept(w, steps, now), Cell(w.pos, w.pos + steps);
    SettledIs(w, steps, now, v, u, cut);
    LagAfter(w, v, start, steps);
    SweptPromises(w, start, v, cut);
    RestorePromises(v, start, cut);
    LagAfter(w, u, start, steps);
  }

  lemma CascadedPromises(w: Wheel, start: int, steps: nat, now: int, c: Wheel)
    requires Punctual(w, start) && CanWalk(w, steps, now) && c == Cascaded(w, steps, now)
    ensures AllPromised(c, start)
  {
    var u, nb := Settled(w, steps, now), NextOnLevel(Cell(w.pos, w.pos + steps));
    SettledPromises(w, start, steps, now, u);
    CascadedIs(w, steps, now, u, c, nb);
    WithoutPromises(u, start, nb);
    RestorePromises(u, start, nb);
  }

  /** With the cursor slot empty nothing is left whose deadline the position has reached. */
  lemma LeftIsLater(v: Wheel, start: int, e: Event)
    requires v.unit > 0 && AllPromised(v, start) && v.pos % 60 < |v.slots| && v.slots[v.pos % 60] == []
    requires e in v.Bag()
    ensures start + (v.pos + 1) * v.unit <= e.expire
  {
    var i := InConcat(v.slots, e);
    assert Promised(v, start, e, i);
    var d: nat :| v.pos <= d < RANGE && Cell(v.pos, d) == i && OnTime(v, start, e, d);
    CellCurrent(v.pos, d);
    MulMonotone(v.pos + 1, d, v.unit);
  }

  /** r leaves a punctual wheel; after an advance to `clock` it holds nothing due by the position's own count. */
  ghost predicate LeavesLater(start: int, r: Outcome) {
    r.Done? ==> forall e :: e in r.wheel.Bag() ==> start + (r.wheel.pos + 1) * r.wheel.unit <= e.expire
  }

  lemma WalkPromises(w: Wheel, start: int, steps: nat, now: int, r: Outcome)
    requires Punctual(w, start) && CanWalk(w, steps, now) && r == Walk(w, steps, now)
    ensures r.Done? && AllPromised(r.wheel, start) && LeavesLater(start, r)
    ensures Lag(r.wheel, start) == Lag(w, start) + (now - w.now - steps * w.unit) >= Lag(w, start)
  {
    var c := Cascaded(w, steps, now);
    WalkResult(w, steps, now, c);
    CascadedPromises(w, start, steps, now, c);
    WithoutPromises(c, start, c.pos % 60);
    LagAfter(w, r.wheel, start, steps);
    forall e | e in r.wheel.Bag() ensures start + (r.wheel.pos + 1) * r.wheel.unit <= e.expire {
      LeftIsLater(r.wheel, start, e);
    }
  }

  // ---------- calls ----------

  lemma InsertKeepsPunctual(w: Wheel, start: int, e: Event)
    requires Punctual(w, start)
    ensures Punctual(Apply(w, InsertCall(e)).wheel, start)
    ensures Lag(Apply(w, InsertCall(e)).wheel, start) == Lag(w, start)
  {
    if Fits(w, e, false) {
      InsertPromises(w, start, e);
    }
  }

  lemma MovedPromises(w: Wheel, v: Wheel, start: int)
    requires AllPromised(w, start) && v.slots == w.slots && v.pos == w.pos && v.unit == w.unit
    ensures AllPromised(v, start)
  {
    forall i, e | 0 <= i < |v.slots| && e in v.slots[i] ensures Promised(v, start, e, i) {
      SamePromise(w, v, start, e, i);
    }
  }

  lemma ExpireKeepsPunctual(w: Wheel, start: int, clock: int, k: nat, r: Outcome)
    requires Punctual(w, start) && clock > w.now && Steps(w, clock) == k && r == Apply(w, ExpireCall(clock))
    ensures AllPromised(r.wheel, start) && Lag(r.wheel, start) >= Lag(w, start) && LeavesLater(start, r)
    ensures r.Done? ==> Lag(r.wheel, start) == Lag(w, start) + (clock - w.now - k * w.unit)
  {
    ExpireIsWalk(w, clock, k);
    if w.pos + k < RANGE {
      WalkPromises(w, start, k, clock, r);
    } else {
      MovedPromises(w, r.wheel, start);
    }
  }

  lemma ApplyKeepsPunctual(w: Wheel, start: int, c: Call)
    requires Punctual(w, start)
    ensures Punctual(Apply(w, c).wheel, start)
  {
    match c
    case InsertCall(e) => InsertKeepsPunctual(w, start, e);
    case ExpireCall(clock) =>
      if clock > w.now {
        ExpireKeepsPunctual(w, start, clock, Steps(w, clock), Apply(w, c));
      }
  }

  lemma FreshIsPunctual(start: int, unit: int)
    requires unit > 0
    ensures Punctual(Fresh(start, unit), start) && Lag(Fresh(start, unit), start) == 0
  {
    FreshIsSynced(start, unit);
  }

  // ---------- runs ----------

  lemma {:induction false} RunKeepsPunctual(w: Wheel, start: int, calls: seq<Call>)
    requires Punctual(w, start)
    ensures Punctual(Final(w, calls), start)
    decreases |calls|
  {
    if calls != [] {
      ApplyKeepsPunctual(w, start, calls[0]);
      RunKeepsPunctual(Apply(w, calls[0]).wheel, start, calls[1..]);
    }
  }

  lemma ExpiredAt(w: Wheel, clock: int, r: Outcome)
    requires w.Inv(false) && clock > w.now && r == Apply(w, ExpireCall(clock))
    ensures r.wheel.now == clock && r.wheel.unit == w.unit
  {
    var n := ExpireEmits(w, clock);
  }

  lemma NotLate(w: Wheel, start: int, clock: int, r: Outcome, e: Event)
    requires Punctual(w, start) && clock > w.now && r == Apply(w, ExpireCall(clock))
    ensures r.Done? && e in r.wheel.Bag() ==> e.expire - clock >= w.unit - Lag(r.wheel, start)
  {
    ExpireKeepsPunctual(w, start, clock, Steps(w, clock), r);
    ExpiredAt(w, clock, r);
    LeftAt(start, r, e);
  }

  lemma LeftAt(start: int, r: Outcome, e: Event)
    requires LeavesLater(start, r)
    ensures r.Done? && e in r.wheel.Bag() ==> e.expire - r.wheel.now >= r.wheel.unit - Lag(r.wheel, start)
  {
    assert (r.wheel.pos + 1) * r.wheel.unit == r.wheel.pos * r.wheel.unit + r.wheel.unit;
  }

  /**
    Over every run and under any clock, an expire that advances leaves no event that
    is overdue by the lag or more: whatever it leaves has at least a millisecond to
    go, less the lag. A new wheel is punctual, with no lag.
   */
  lemma RunNotLate(w: Wheel, start: int, calls: seq<Call>, i: nat, e: Event)
    requires Punctual(w, start) && i < |calls| && calls[i].ExpireCall?
    ensures calls[i].clock > Final(w, calls[..i]).now && Run(w, calls)[i].Done? && e in Run(w, calls)[i].wheel.Bag() ==>
      e.expire - calls[i].clock >= w.unit - Lag(Run(w, calls)[i].wheel, start)
  {
    RunKeepsPunctual(w, start, calls[..i]);
    RunStep(w, calls, i);
    if calls[i].clock > Final(w, calls[..i]).now {
      NotLate(Final(w, calls[..i]), start, calls[i].clock, Run(w, calls)[i], e);
    }
  }

  /** How many calls are expires. */
  function ExpireCount(calls: seq<Call>): nat {
    if calls == [] then 0 else (if calls[0].ExpireCall? then 1 else 0) + ExpireCount(calls[1..])
  }

  /** The run neither throws at an expire nor skips more milliseconds at once than an int holds. */
  ghost predicate Steady(w: Wheel, calls: seq<Call>)
    requires w.Inv(false)
    decreases |calls|
  {
    calls == [] ||
    (&& (calls[0].ExpireCall? ==> Apply(w, calls[0]).Done? && calls[0].clock - w.now < TWO_31 * w.unit)
     && Steady(Apply(w, calls[0]).wheel, calls[1..]))
  }

  /** One call adds less than a millisecond to the lag, and only if it is an expire. */
  lemma LagStep(w: Wheel, start: int, c: Call)
    requires Punctual(w, start)
    requires c.ExpireCall? ==> Apply(w, c).Done? && c.clock - w.now < TWO_31 * w.unit
    ensures Lag(Apply(w, c).wheel, start) <= Lag(w, start) + if c.ExpireCall? then w.unit - 1 else 0
  {
    match c
    case InsertCall(e) => InsertKeepsPunctual(w, start, e);
    case ExpireCall(clock) =>
      if clock > w.now {
        var n := CountMs(w.now, clock, w.unit);
        StepsAre(w, clock, n);
        SmallCut(w, clock, n);
        ExpireKeepsPunctual(w, start, clock, n, Apply(w, c));
        assert (n + 1) * w.unit == n * w.unit + w.unit;
      }
  }

  lemma SmallCut(w: Wheel, clock: int, n: nat)
    requires w.unit > 0 && clock > w.now && WholeMs(n, w.now, clock, w.unit) && clock - w.now < TWO_31 * w.unit
    ensures Cut32(n) == n
  {
    if n >= TWO_31 {
      MulMonotone(TWO_31, n, w.unit);
    }
  }

  lemma OneMore(n: nat, m: int)
    ensures (n + 1) * m == n * m + m
  {
  }

  lemma LagAdds(w: Wheel, start: int, calls: seq<Call>, between: int, after: int)
    requires calls != [] && w.unit > 0
    requires between <= Lag(w, start) + if calls[0].ExpireCall? then w.unit - 1 else 0
    requires after <= between + ExpireCount(calls[1..]) * (w.unit - 1)
    ensures after <= Lag(w, start) + ExpireCount(calls) * (w.unit - 1)
  {
    OneMore(ExpireCount(calls[1..]), w.unit - 1);
  }

  /** So over a steady run the lag stays below one millisecond per expire: no more is ever lost. */
  lemma {:induction false} LagIsBounded(w: Wheel, start: int, calls: seq<Call>)
    requires Punctual(w, start) && Steady(w, calls)
    ensures 0 <= Lag(Final(w, calls), start) <= Lag(w, start) + ExpireCount(calls) * (w.unit - 1)
    decreases |calls|
  {
    if calls != [] {
      LagStep(w, start, calls[0]);
      ApplyKeepsPunctual(w, start, calls[0]);
      var v := Apply(w, calls[0]).wheel;
      LagIsBounded(v, start, calls[1..]);
      LagAdds(w, start, calls, Lag(v, start), Lag(Final(w, calls), start));
    }
  }
}
