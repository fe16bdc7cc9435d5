/**
  What single calls of the timing wheel do under any clock, fractions of a
  millisecond included: where an event is stored, how far an advance goes, and
  exactly which events it emits, in which order.
 */
module WheelEmission {
  import opened Odometer
  import opened WheelModel
  import opened WheelRuns

  // ---------- insertion ----------

  /** Slot s of level k is where tick d goes, seen from position p. */
  predicate Landing(p: nat, d: nat, k: nat, s: nat) {
    && Quo(d, k + 1) == Quo(p, k + 1) && s == Digit(d, k)
    && (if k == 0 then Digit(p, 0) <= s else Digit(p, k) < s)
  }

  /** t is the number of whole milliseconds from `now` to `time`, none if that is not ahead. */
  predicate WholeMs(t: nat, now: int, time: int, unit: int) {
    if time <= now then t == 0 else t * unit <= time - now < (t + 1) * unit
  }

  lemma CountMs(now: int, time: int, unit: int) returns (t: nat)
    requires unit > 0
    ensures WholeMs(t, now, time, unit)
    ensures time >= now ==> t == (time - now) / unit
  {
    if time <= now {
      t := 0;
      if time == now {
        assert (time - now) / unit == 0;
      }
    } else {
      t := (time - now) / unit;
      assert time - now == unit * t + (time - now) % unit;
      assert (t + 1) * unit == t * unit + unit;
    }
  }

  lemma DueMs(w: Wheel, e: Event, t: nat)
    requires w.unit > 0 && WholeMs(t, w.now, e.expire, w.unit)
    ensures w.Due(e) == w.pos + t
  {
    var u := CountMs(w.now, e.expire, w.unit);
    if e.expire > w.now {
      SameMs(t, u, e.expire - w.now, w.unit);
    } else {
      TruncDivBounds(e.expire - w.now, w.unit, 1);
    }
  }

  lemma SameMs(t: nat, u: nat, left: int, unit: int)
    requires unit > 0 && t * unit <= left < (t + 1) * unit && u * unit <= left < (u + 1) * unit
    ensures t == u
  {
    if t < u {
      MulMonotone(t + 1, u, unit);
    } else if u < t {
      MulMonotone(u + 1, t, unit);
    }
  }

  /** From w to v slot s of level k gained e at its end if tick d goes there, and nothing otherwise. */
  predicate SlotAfter(w: Wheel, e: Event, d: nat, v: Wheel, k: nat, s: nat) {
    && 60 * k + s < |w.slots| == |v.slots|
    && v.slots[60 * k + s] == w.slots[60 * k + s] + if Landing(w.pos, d, k, s) then [e] else []
  }

  lemma InsertAt(w: Wheel, e: Event, k: nat, s: nat)
    requires w.Shaped() && Fits(w, e, false) && k < LEVEL_NUM && s < 60
    ensures SlotAfter(w, e, w.Due(e), Insert(w, e), k, s)
  {
    CellLayout(w.pos, w.Due(e), k, s);
    assert w.slots[60 * k + s] + [] == w.slots[60 * k + s];
  }

  /** What inserting e, with t whole milliseconds left, does to w. */
  predicate Inserts(w: Wheel, e: Event, t: nat, r: Outcome) {
    if w.pos + t >= RANGE then r == OutOfRange(w)
    else
      && r.Done? && r.out == [] && r.wheel.pos == w.pos && r.wheel.now == w.now && r.wheel.unit == w.unit
      && Stores(w, e, w.pos + t, r.wheel)
  }

  predicate Stores(w: Wheel, e: Event, d: nat, v: Wheel) {
    forall k, s :: 0 <= k < LEVEL_NUM && 0 <= s < 60 ==> SlotAfter(w, e, d, v, k, s)
  }

  /**
    Whatever the clock: with t whole milliseconds left the event joins the end of
    the one slot of tick P+t, and every other slot stays as it is; or P+t is out of
    range, the call throws and nothing changes.
   */
  lemma InsertStores(w: Wheel, e: Event) returns (t: nat)
    requires w.Inv(false)
    ensures WholeMs(t, w.now, e.expire, w.unit) && Inserts(w, e, t, Apply(w, InsertCall(e)))
  {
    t := CountMs(w.now, e.expire, w.unit);
    DueMs(w, e, t);
    if Fits(w, e, false) {
      var d, v := w.Due(e), Insert(w, e);
      forall k, s | 0 <= k < LEVEL_NUM && 0 <= s < 60 ensures SlotAfter(w, e, d, v, k, s) {
        InsertAt(w, e, k, s);
      }
      assert Stores(w, e, d, v);
    }
  }

  // ---------- re-insertion ----------

  /** The events with less than a millisecond left, in order. */
  function Near(es: Events, clock: int, unit: int): Events {
    if es == [] then []
    else (if es[0].expire - clock < unit then [es[0]] else []) + Near(es[1..], clock, unit)
  }

  lemma {:induction false} NearAppend(es: Events, e: Event, clock: int, unit: int)
    ensures Near(es + [e], clock, unit) == Near(es, clock, unit) + if e.expire - clock < unit then [e] else []
  {
    if es == [] {
      assert es + [e] == [e];
    } else {
      var all := es + [e];
      assert all[0] == es[0] && all[1..] == es[1..] + [e];
      NearAppend(es[1..], e, clock, unit);
    }
  }

  lemma {:induction false} NearCount(es: Events, clock: int, unit: int, e: Event)
    ensures multiset(Near(es, clock, unit))[e] == if e.expire - clock < unit then multiset(es)[e] else 0
  {
    if es != [] {
      assert es == [es[0]] + es[1..];
      NearCount(es[1..], clock, unit, e);
    }
  }

  /** An event goes to the level-0 cursor slot exactly if it has no whole millisecond left. */
  lemma InsertNear(w: Wheel, e: Event, j: nat)
    requires w.Shaped() && Fits(w, e, false) && j < |w.slots|
    ensures w.pos % 60 < |w.slots|
    ensures Insert(w, e).slots[w.pos % 60] == w.slots[w.pos % 60] + if e.expire - w.now < w.unit then [e] else []
    ensures j != w.pos % 60 ==> Near(Insert(w, e).slots[j], w.now, w.unit) == Near(w.slots[j], w.now, w.unit)
  {
    TruncDivBounds(e.expire - w.now, w.unit, 1);
    CellCurrent(w.pos, w.Due(e));
    FitsCell(w.pos, w.Due(e));
    NearAppend(w.slots[j], e, w.now, w.unit);
    assert w.slots[w.pos % 60] + [] == w.slots[w.pos % 60];
  }

  lemma {:induction false} InsertAllNear(w: Wheel, es: Events, j: nat)
    requires w.Shaped() && AllFit(w, es, false) && j < |w.slots|
    ensures w.pos % 60 < |w.slots|
    ensures InsertAll(w, es).slots[w.pos % 60] == w.slots[w.pos % 60] + Near(es, w.now, w.unit)
    ensures j != w.pos % 60 ==> Near(InsertAll(w, es).slots[j], w.now, w.unit) == Near(w.slots[j], w.now, w.unit)
    decreases |es|
  {
    if es == [] {
      assert w.slots[w.pos % 60] + [] == w.slots[w.pos % 60];
    } else {
      TailFits(w, es, false);
      InsertNear(w, es[0], j);
      InsertAllNear(Insert(w, es[0]), es[1..], j);
    }
  }

  lemma RestoreNear(w: Wheel, i: nat, j: nat)
    requires InvBut(w, i, false) && j < |w.slots| && w.pos % 60 < |w.slots|
    ensures Restore(w, i).slots[w.pos % 60] == w.slots[i := []][w.pos % 60] + Near(w.slots[i], w.now, w.unit)
    ensures j != w.pos % 60 ==> Near(Restore(w, i).slots[j], w.now, w.unit) == Near(w.slots[i := []][j], w.now, w.unit)
  {
    InsertAllNear(Without(w, i), w.slots[i], j);
  }

  // ---------- walking ----------

  /** What is re-inserted and handed out at once: of the cut slot, then of the next slot if the level has one. */
  function AtTheCut(slots: seq<Events>, cut: nat, clock: int, unit: int): Events
    requires |slots| % 60 == 0 && cut < |slots|
  {
    Near(slots[cut], clock, unit) + if cut % 60 == 59 then [] else Near(slots[cut + 1], clock, unit)
  }

  lemma ClearedAt(slots: seq<Events>, cut: nat, c: nat, nb: nat)
    requires |slots| == 60 * LEVEL_NUM && c <= cut < |slots| && nb == NextOnLevel(cut)
    ensures nb < |slots| && nb != cut
    ensures Cleared(slots, cut)[cut] == slots[cut] && Cleared(slots, cut)[cut := []][c] == []
    ensures Cleared(slots, cut)[cut := []][nb] == if cut % 60 == 59 then [] else slots[cut + 1]
  {
  }

  /** After the first re-insertion. */
  lemma RestoredCut(v: Wheel, slots: seq<Events>, cut: nat, nb: nat, u: Wheel)
    requires |slots| == 60 * LEVEL_NUM && v.pos % 60 <= cut < |slots| && nb == NextOnLevel(cut) && nb != v.pos % 60
    requires v.slots == Cleared(slots, cut) && InvBut(v, cut, false) && u == Restore(v, cut)
    ensures nb < |u.slots| == |slots| && v.pos % 60 < |slots|
    ensures u.slots[v.pos % 60] == Near(slots[cut], v.now, v.unit)
    ensures Near(u.slots[nb], v.now, v.unit) == if cut % 60 == 59 then [] else Near(slots[cut + 1], v.now, v.unit)
  {
    ClearedAt(slots, cut, v.pos % 60, nb);
    RestoreNear(v, cut, nb);
    assert [] + Near(slots[cut], v.now, v.unit) == Near(slots[cut], v.now, v.unit);
  }

  /** After the second. */
  lemma RestoredNext(u: Wheel, nb: nat, c: Wheel)
    requires InvBut(u, nb, false) && nb != u.pos % 60 && u.pos % 60 < |u.slots| && c == Restore(u, nb)
    ensures u.pos % 60 < |c.slots| && c.slots[u.pos % 60] == u.slots[u.pos % 60] + Near(u.slots[nb], u.now, u.unit)
  {
    RestoreNear(u, nb, nb);
  }

  lemma SettledIs(w: Wheel, steps: nat, now: int, v: Wheel, u: Wheel, cut: nat)
    requires w.Inv(false) && CanWalk(w, steps, now) && v == Swept(w, steps, now) && u == Settled(w, steps, now)
    requires cut == Cell(w.pos, w.pos + steps)
    ensures cut < |w.slots| && v.slots == Cleared(w.slots, cut) && InvBut(v, cut, false) && u == Restore(v, cut)
    ensures v.pos == u.pos == w.pos + steps && v.now == now && v.unit == w.unit
  {
    SweptInv(w, steps, now, false);
    FitsCell(w.pos, w.pos + steps);
  }

  lemma SettledNear(w: Wheel, steps: nat, now: int, cut: nat, u: Wheel)
    requires w.Inv(false) && CanWalk(w, steps, now) && cut == Cell(w.pos, w.pos + steps) && u == Settled(w, steps, now)
    ensures cut < |w.slots| == |u.slots| && u.pos % 60 < |w.slots|
    ensures NextOnLevel(cut) < |w.slots| && NextOnLevel(cut) != u.pos % 60
    ensures u.slots[u.pos % 60] == Near(w.slots[cut], now, w.unit)
    ensures Near(u.slots[NextOnLevel(cut)], now, w.unit)
         == if cut % 60 == 59 then [] else Near(w.slots[cut + 1], now, w.unit)
  {
    var v := Swept(w, steps, now);
    SettledIs(w, steps, now, v, u, cut);
    CutAndCursor(w.pos, v.pos);
    RestoredCut(v, w.slots, cut, NextOnLevel(cut), u);
  }

  lemma CascadedIs(w: Wheel, steps: nat, now: int, u: Wheel, c: Wheel, nb: nat)
    requires w.Inv(false) && CanWalk(w, steps, now) && u == Settled(w, steps, now) && c == Cascaded(w, steps, now)
    requires nb == NextOnLevel(Cell(w.pos, w.pos + steps))
    ensures nb < |u.slots| && InvBut(u, nb, false) && c == Restore(u, nb)
  {
    InvIsInvBut(u, Neighbour(w, steps), false);
  }

  /** The level-0 cursor slot of c holds what is near at the cut of a walk of w to q. */
  predicate AtCut(w: Wheel, q: nat, now: int, c: Wheel) {
    && |w.slots| == 60 * LEVEL_NUM && w.pos <= q && Cell(w.pos, q) < |w.slots| && c.pos % 60 < |c.slots|
    && c.slots[c.pos % 60] == AtTheCut(w.slots, Cell(w.pos, q), now, w.unit)
  }

  lemma CascadeEmits(w: Wheel, steps: nat, now: int) returns (c: Wheel)
    requires w.Inv(false) && CanWalk(w, steps, now)
    ensures c == Cascaded(w, steps, now) && AtCut(w, w.pos + steps, now, c)
  {
    var u, cut := Settled(w, steps, now), Cell(w.pos, w.pos + steps);
    c := Cascaded(w, steps, now);
    SettledNear(w, steps, now, cut, u);
    CascadedIs(w, steps, now, u, c, NextOnLevel(cut));
    RestoredNext(u, NextOnLevel(cut), c);
  }

  /** r is the outcome of going from w to position q at time `now`. */
  ghost predicate Emits(w: Wheel, q: nat, now: int, r: Outcome) {
    |w.slots| == 60 * LEVEL_NUM && w.pos <= q &&
    var cut := Cell(w.pos, q);
    && r.Done? && r.wheel.pos == q && r.wheel.now == now && r.wheel.unit == w.unit
    && cut < |w.slots| && r.out == Concat(w.slots[..cut]) + AtTheCut(w.slots, cut, now, w.unit)
    && r.wheel.Bag() + multiset(r.out) == w.Bag()
  }

  /** A walk emits every slot before the cell of the new position, slot by slot, and what is near at the cut. */
  lemma WalkEmits(w: Wheel, steps: nat, now: int) returns (v: Wheel, out: Events)
    requires w.Inv(false) && CanWalk(w, steps, now)
    ensures Walk(w, steps, now) == Done(v, out) && Emits(w, w.pos + steps, now, Done(v, out))
  {
    var c := CascadeEmits(w, steps, now);
    WalkResult(w, steps, now, c);
    WalkConserves(w, steps, now);
    v, out := Without(c, c.pos % 60), Concat(w.slots[..Cell(w.pos, w.pos + steps)]) + c.slots[c.pos % 60];
  }

  // ---------- expiring ----------

  /** What becomes of n milliseconds in a 32-bit int that is taken as no step when negative. */
  function Cut32(n: nat): nat {
    if n % TWO_32 < TWO_31 then n % TWO_32 else 0
  }

  lemma StepsAre(w: Wheel, clock: int, n: nat)
    requires w.unit > 0 && w.now < clock && WholeMs(n, w.now, clock, w.unit)
    ensures Steps(w, clock) == Cut32(n)
  {
    var m := CountMs(w.now, clock, w.unit);
    SameMs(n, m, clock - w.now, w.unit);
    IntOfCount(n);
  }

  /** What an expire that advances k positions up to `clock` does to w. */
  ghost predicate Expires(w: Wheel, clock: int, k: nat, r: Outcome) {
    if w.pos + k >= RANGE then r == OutOfRange(w.(now := clock)) else Emits(w, w.pos + k, clock, r)
  }

  /**
    Whatever the clock: if it did not move forward nothing happens. Otherwise, with n
    the whole milliseconds since the last time, the position advances by n (cut to 32
    bits), `now_` becomes the clock, and what comes out is every slot before the cell
    of the new position, in order, and of the cut slot and the next one on its level
    exactly the events with less than a millisecond left; or the new position is out
    of range, the call throws, and only `now_` changes.
   */
  lemma ExpireEmits(w: Wheel, clock: int) returns (n: nat)
    requires w.Inv(false)
    ensures WholeMs(n, w.now, clock, w.unit)
    ensures clock <= w.now ==> Apply(w, ExpireCall(clock)) == Done(w, [])
    ensures clock > w.now ==> Expires(w, clock, Cut32(n), Apply(w, ExpireCall(clock)))
  {
    n := CountMs(w.now, clock, w.unit);
    if clock > w.now {
      StepsAre(w, clock, n);
      ExpireBy(w, clock, Cut32(n));
    }
  }

  lemma ExpireIsWalk(w: Wheel, clock: int, k: nat)
    requires w.Inv(false) && clock > w.now && Steps(w, clock) == k
    ensures w.pos + k < RANGE ==> CanWalk(w, k, clock) && Apply(w, ExpireCall(clock)) == Walk(w, k, clock)
    ensures w.pos + k >= RANGE ==> Apply(w, ExpireCall(clock)) == OutOfRange(w.(now := clock))
  {
    StepsBound(w, clock);
  }

  lemma WalkOutcome(w: Wheel, clock: int, k: nat, r: Outcome)
    requires w.Inv(false) && CanWalk(w, k, clock) && r == Walk(w, k, clock)
    ensures Emits(w, w.pos + k, clock, r)
  {
    var v, out := WalkEmits(w, k, clock);
  }

  lemma ExpireBy(w: Wheel, clock: int, k: nat)
    requires w.Inv(false) && clock > w.now && Steps(w, clock) == k
    ensures Expires(w, clock, k, Apply(w, ExpireCall(clock)))
  {
    ExpireIsWalk(w, clock, k);
    if w.pos + k < RANGE {
      WalkOutcome(w, clock, k, Apply(w, ExpireCall(clock)));
    }
  }

  // ---------- runs ----------

  lemma {:induction false} RunStep(w: Wheel, calls: seq<Call>, i: nat)
    requires w.Inv(false) && i < |calls|
    ensures Final(w, calls[..i]).Inv(false) && Final(w, calls[..i]).unit == w.unit
    ensures Run(w, calls)[i] == Apply(Final(w, calls[..i]), calls[i])
    decreases i
  {
    if i != 0 {
      var v := Apply(w, calls[0]).wheel;
      RunStep(v, calls[1..], i - 1);
      assert calls[..i][1..] == calls[1..][..i - 1] && calls[..i][0] == calls[0];
      assert Run(w, calls)[i] == Run(v, calls[1..])[i - 1];
    }
  }

  /** At every expire of every run, under any clock, the wheel does exactly that. */
  lemma RunEmits(w: Wheel, calls: seq<Call>, i: nat) returns (n: nat)
    requires w.Inv(false) && i < |calls| && calls[i].ExpireCall?
    ensures var v, r := Final(w, calls[..i]), Run(w, calls)[i];
      && v.Shaped() && WholeMs(n, v.now, calls[i].clock, v.unit)
      && (calls[i].clock <= v.now ==> r == Done(v, []))
      && (calls[i].clock > v.now ==> Expires(v, calls[i].clock, Cut32(n), r))
  {
    RunStep(w, calls, i);
    n := ExpireEmits(Final(w, calls[..i]), calls[i].clock);
  }

  /** At every insertion of every run likewise. */
  lemma RunStores(w: Wheel, calls: seq<Call>, i: nat) returns (t: nat)
    requires w.Inv(false) && i < |calls| && calls[i].InsertCall?
    ensures var v, e := Final(w, calls[..i]), calls[i].event;
      WholeMs(t, v.now, e.expire, v.unit) && Inserts(v, e, t, Run(w, calls)[i])
  {
    RunStep(w, calls, i);
    t := InsertStores(Final(w, calls[..i]), calls[i].event);
  }
}
