/**
  The timing wheel as a value: what `insert_event`, `walk` and `expire` compute,
  stated through cells (see Odometer) rather than through carry loops, and the
  facts every call keeps under any clock whatsoever.
 */
module WheelModel {
  import opened Odometer

  /** A registered timer: `expire` is its deadline in clock ticks. */
  datatype Event = Event(id: nat, expire: int)
  type Events = seq<Event>

  /**
    `slots` holds the five levels one after the other, 60 slots each; `pos` is
    the number the cursors denote; `now` is the clock at the last advance and
    `unit` the number of clock ticks in one millisecond.
   */
  datatype Wheel = Wheel(slots: seq<Events>, pos: nat, now: int, unit: int) {
    predicate Shaped() {
      |slots| == 60 * LEVEL_NUM && pos < RANGE && unit > 0
    }

    /** Whole milliseconds left before the deadline; duration_cast truncates toward zero. */
    function Remaining(e: Event): int
      requires unit > 0
    {
      TruncDiv(e.expire - now, unit)
    }

    /** The position at which the wheel, as it stands, should hand out e. */
    function Due(e: Event): nat
      requires unit > 0
    {
      pos + (if Remaining(e) > 0 then Remaining(e) else 0)
    }

    /** The deadline is a whole number of milliseconds away. */
    predicate Whole(e: Event)
      requires unit > 0
    {
      (e.expire - now) % unit == 0
    }

    /**
      e belongs in cell i: i is the cell of some tick at which e is already due.
      With a whole-millisecond clock (`whole`) that tick is the due one.
     */
    ghost predicate Held(e: Event, i: nat, whole: bool)
      requires unit > 0
    {
      exists d: nat :: Due(e) <= d < RANGE && Cell(pos, d) == i && (whole ==> d == Due(e) && Whole(e))
    }

    /** The representation invariant: under any clock, or the exact one for a whole-millisecond clock. */
    ghost predicate Inv(whole: bool) {
      Shaped() && forall i, e :: 0 <= i < |slots| && e in slots[i] ==> Held(e, i, whole)
    }

    ghost function Bag(): multiset<Event> {
      multiset(Concat(slots))
    }
  }

  function TruncDiv(a: int, b: int): int
    requires b > 0
  {
    if a >= 0 then a / b else -((-a) / b)
  }

  const TWO_31: int := 0x8000_0000
  const TWO_32: int := 0x1_0000_0000

  /** static_cast<int> of a 64-bit count. */
  function ToInt32(x: int): int {
    (x + TWO_31) % TWO_32 - TWO_31
  }

  function Concat(slots: seq<Events>): Events {
    if slots == [] then [] else slots[0] + Concat(slots[1..])
  }

  // ---------- the operations ----------

  datatype Outcome = Done(wheel: Wheel, out: Events) | OutOfRange(wheel: Wheel)

  predicate Fits(w: Wheel, e: Event, whole: bool)
    requires w.unit > 0
  {
    w.Due(e) < RANGE && (whole ==> w.Whole(e))
  }

  function Insert(w: Wheel, e: Event): (r: Wheel)
    requires w.Shaped() && Fits(w, e, false)
    ensures r.Shaped() && r.pos == w.pos && r.now == w.now && r.unit == w.unit
    ensures forall x :: r.Due(x) == w.Due(x)
  {
    FitsCell(w.pos, w.Due(e));
    var i := Cell(w.pos, w.Due(e));
    w.(slots := w.slots[i := w.slots[i] + [e]])
  }

  predicate AllFit(w: Wheel, es: Events, whole: bool)
    requires w.unit > 0
  {
    forall e :: e in es ==> Fits(w, e, whole)
  }

  function InsertAll(w: Wheel, es: Events): (r: Wheel)
    requires w.Shaped() && AllFit(w, es, false)
    ensures r.Shaped() && r.pos == w.pos && r.now == w.now && r.unit == w.unit
    decreases |es|
  {
    if es == [] then w
    else
      TailFits(w, es, false);
      InsertAll(Insert(w, es[0]), es[1..])
  }

  lemma TailFits(w: Wheel, es: Events, whole: bool)
    requires w.Shaped() && AllFit(w, es, whole) && es != []
    ensures Fits(w, es[0], whole) && AllFit(Insert(w, es[0]), es[1..], whole)
  {
    assert es[0] in es;
    assert Fits(w, es[0], whole);
    forall e | e in es[1..] ensures Fits(Insert(w, es[0]), e, whole) {
      assert e in es;
    }
  }

  /** Every slot before the cut emptied. */
  function Cleared(slots: seq<Events>, cut: nat): seq<Events>
    requires cut <= |slots|
  {
    seq(cut, _ => []) + slots[cut..]
  }

  /** The slot after i on the same level, wrapping round. */
  function NextOnLevel(i: nat): nat {
    if i % 60 == 59 then i - 59 else i + 1
  }

  function Without(w: Wheel, i: nat): Wheel
    requires i < |w.slots|
  {
    w.(slots := w.slots[i := []])
  }

  /** The invariant, but for slot i: its events need only lie within the wheel's range. */
  ghost predicate InvBut(w: Wheel, i: nat, whole: bool) {
    w.Shaped() && i < |w.slots| && Without(w, i).Inv(whole) && AllFit(w, w.slots[i], whole)
  }

  /** Take slot i out and store its events again. */
  function Restore(w: Wheel, i: nat): Wheel
    requires InvBut(w, i, false)
  {
    InsertAll(Without(w, i), w.slots[i])
  }

  /** The wheel after the sweep of `walk`: cursors at pos + steps, everything before the cut gone. */
  function Swept(w: Wheel, steps: nat, now: int): Wheel
    requires w.Shaped() && w.pos + steps < RANGE
  {
    FitsCell(w.pos, w.pos + steps);
    Wheel(Cleared(w.slots, Cell(w.pos, w.pos + steps)), w.pos + steps, now, w.unit)
  }

  /** The cursors can denote the new position, and the clock has moved at least that far. */
  predicate CanWalk(w: Wheel, steps: nat, now: int) {
    w.pos + steps < RANGE && steps * w.unit <= now - w.now
  }

  /** The wheel after `walk` stored the cut slot again. */
  function Settled(w: Wheel, steps: nat, now: int): (r: Wheel)
    requires w.Inv(false) && CanWalk(w, steps, now)
    ensures r.Inv(false) && r.pos == w.pos + steps && r.now == now && r.unit == w.unit
  {
    SweptInv(w, steps, now, false);
    RestoreKeeps(Swept(w, steps, now), Cell(w.pos, w.pos + steps), false);
    Restore(Swept(w, steps, now), Cell(w.pos, w.pos + steps))
  }

  /** The slot `walk` stores again after the cut: the next one on the same level. */
  function Neighbour(w: Wheel, steps: nat): (i: nat)
    requires w.pos + steps < RANGE
    ensures i < 60 * LEVEL_NUM
  {
    FitsCell(w.pos, w.pos + steps);
    NextOnLevel(Cell(w.pos, w.pos + steps))
  }

  /** The wheel after `walk` stored the cut slot, and then its neighbour, again. */
  function Cascaded(w: Wheel, steps: nat, now: int): (r: Wheel)
    requires w.Inv(false) && CanWalk(w, steps, now)
    ensures r.Inv(false) && r.pos == w.pos + steps && r.now == now && r.unit == w.unit
  {
    InvIsInvBut(Settled(w, steps, now), Neighbour(w, steps), false);
    RestoreKeeps(Settled(w, steps, now), Neighbour(w, steps), false);
    Restore(Settled(w, steps, now), Neighbour(w, steps))
  }

  function Walk(w: Wheel, steps: nat, now: int): Outcome
    requires w.Inv(false) && CanWalk(w, steps, now)
  {
    FitsCell(w.pos, w.pos + steps);
    var v := Cascaded(w, steps, now);
    Done(Without(v, v.pos % 60), Gone(w, steps) + v.slots[v.pos % 60])
  }

  /** The whole steps `expire` hands to `walk`; a negative count walks nowhere. */
  function Steps(w: Wheel, clock: int): nat
    requires w.unit > 0 && w.now < clock
  {
    var s := ToInt32((clock - w.now) / w.unit);
    if s > 0 then s else 0
  }

  function Expire(w: Wheel, clock: int): Outcome
    requires w.Inv(false)
  {
    if clock <= w.now then Done(w, [])
    else
      StepsBound(w, clock);
      if w.pos + Steps(w, clock) < RANGE then Walk(w, Steps(w, clock), clock)
      else OutOfRange(w.(now := clock))
  }

  // ---------- clock arithmetic ----------

  lemma FitsCell(p: nat, d: nat)
    requires p <= d < RANGE
    ensures Cell(p, d) < 60 * LEVEL_NUM
  {
    RangeIsPow();
    CellRange(p, d, LEVEL_NUM);
  }

  lemma StepsBound(w: Wheel, clock: int)
    requires w.unit > 0 && w.now < clock
    ensures Steps(w, clock) * w.unit <= clock - w.now
  {
    var q := (clock - w.now) / w.unit;
    assert q * w.unit <= clock - w.now && q >= 0 by {
      assert clock - w.now == w.unit * q + (clock - w.now) % w.unit;
    }
    assert Steps(w, clock) <= q;
    MulMonotone(Steps(w, clock), q, w.unit);
  }

  lemma MulMonotone(a: int, b: int, c: int)
    requires a <= b && c >= 0
    ensures a * c <= b * c
  {
  }

  /** Remaining is the quotient: positive exactly from one full millisecond on. */
  lemma TruncDivBounds(a: int, b: int, q: int)
    requires b > 0 && q > 0
    ensures TruncDiv(a, b) >= q <==> a >= q * b
  {
    if a >= 0 {
      var t := a / b;
      assert a == b * t + a % b;
      if t >= q {
        MulMonotone(q, t, b);
      } else {
        MulMonotone(t + 1, q, b);
        assert (t + 1) * b == t * b + b;
      }
    } else {
      assert (-a) / b >= 0;
      assert q * b > 0 by { MulMonotone(1, q, b); }
    }
  }

  lemma ModShift(a: int, s: int, b: int)
    requires b > 0 && a % b == 0
    ensures (a - s * b) % b == 0
  {
    var q := a / b;
    assert a == b * q;
    assert a - s * b == b * (q - s);
    MulMod(q - s, b);
  }

  lemma {:induction false} MulMod(k: int, b: int)
    requires b > 0
    ensures (b * k) % b == 0
    decreases if k < 0 then -k else k
  {
    var t, m := (b * k) / b, (b * k) % b;
    assert b * k == b * t + m;
    assert b * (k - t) == m;
    if k - t >= 1 {
      MulMonotone(1, k - t, b);
    } else if k - t <= -1 {
      MulMonotone(k - t, -1, b);
    }
  }

  /** v is w some positions later, and the clock moved at least as far (exactly as far, when whole). */
  predicate Later(w: Wheel, v: Wheel, whole: bool) {
    && 0 < w.unit == v.unit && w.pos <= v.pos
    && (v.pos - w.pos) * w.unit <= v.now - w.now
    && (whole ==> (v.pos - w.pos) * w.unit == v.now - w.now)
  }

  /**
    Time moving on never makes an event due later: it is due when it was, or at
    once. With a whole-millisecond clock it is due exactly when it was, or at once.
   */
  lemma DueNeverRises(w: Wheel, v: Wheel, e: Event, whole: bool)
    requires Later(w, v, whole)
    ensures v.pos <= v.Due(e)
    ensures v.Due(e) <= w.Due(e) || v.Due(e) == v.pos
    ensures whole ==> v.Due(e) == if w.Due(e) > v.pos then w.Due(e) else v.pos
    ensures whole && w.Whole(e) ==> v.Whole(e)
  {
    var s, r := v.pos - w.pos, v.Remaining(e);
    if r > 0 {
      RemainingShift(e.expire - w.now, e.expire - v.now, s, r, w.unit);
    }
    if whole {
      if w.Remaining(e) > s {
        RemainingShift(e.expire - w.now, e.expire - v.now, s, w.Remaining(e) - s, w.unit);
      }
      if w.Whole(e) {
        ModShift(e.expire - w.now, s, w.unit);
      }
    }
  }

  /** s milliseconds later there are s fewer left, or fewer still if the clock moved further. */
  lemma RemainingShift(before: int, after: int, s: nat, r: int, unit: int)
    requires unit > 0 && r > 0 && s * unit <= before - after
    ensures TruncDiv(after, unit) >= r ==> TruncDiv(before, unit) >= r + s
    ensures s * unit == before - after && TruncDiv(before, unit) >= r + s ==> TruncDiv(after, unit) >= r
  {
    TruncDivBounds(after, unit, r);
    TruncDivBounds(before, unit, r + s);
    assert (r + s) * unit == r * unit + s * unit;
  }

  // ---------- the representation invariant ----------

  lemma InsertKeeps(w: Wheel, e: Event, whole: bool)
    requires w.Inv(whole) && Fits(w, e, whole)
    ensures Insert(w, e).Inv(whole)
  {
    var v := Insert(w, e);
    FitsCell(w.pos, w.Due(e));
    forall i, x | 0 <= i < |v.slots| && x in v.slots[i] ensures v.Held(x, i, whole) {
      if x in w.slots[i] {
        SameHeld(w, v, x, i, whole);
      } else {
        assert x == e && Cell(v.pos, v.Due(e)) == i;
      }
    }
  }

  lemma SameHeld(w: Wheel, v: Wheel, e: Event, i: nat, whole: bool)
    requires w.unit > 0 && v.unit == w.unit && v.pos == w.pos && v.now == w.now && w.Held(e, i, whole)
    ensures v.Held(e, i, whole)
  {
    var d: nat :| w.Due(e) <= d < RANGE && Cell(w.pos, d) == i && (whole ==> d == w.Due(e) && w.Whole(e));
    assert v.Due(e) <= d && Cell(v.pos, d) == i;
  }

  lemma {:induction false} InsertAllKeeps(w: Wheel, es: Events, whole: bool)
    requires w.Inv(whole) && AllFit(w, es, whole)
    ensures InsertAll(w, es).Inv(whole)
    decreases |es|
  {
    if es != [] {
      TailFits(w, es, whole);
      InsertKeeps(w, es[0], whole);
      InsertAllKeeps(Insert(w, es[0]), es[1..], whole);
    }
  }

  lemma RemoveKeeps(w: Wheel, i: nat, whole: bool)
    requires w.Inv(whole) && i < |w.slots|
    ensures Without(w, i).Inv(whole)
  {
    var v := Without(w, i);
    forall j, x | 0 <= j < |v.slots| && x in v.slots[j] ensures v.Held(x, j, whole) {
      SameHeld(w, v, x, j, whole);
    }
  }

  lemma InvIsInvBut(w: Wheel, i: nat, whole: bool)
    requires w.Inv(whole) && i < |w.slots|
    ensures InvBut(w, i, whole)
  {
    RemoveKeeps(w, i, whole);
    forall e | e in w.slots[i] ensures Fits(w, e, whole) {
      assert w.Held(e, i, whole);
    }
  }

  lemma RestoreKeeps(w: Wheel, i: nat, whole: bool)
    requires InvBut(w, i, whole) && InvBut(w, i, false)
    ensures Restore(w, i).Inv(whole)
    ensures Restore(w, i).pos == w.pos && Restore(w, i).now == w.now && Restore(w, i).unit == w.unit
  {
    InsertAllKeeps(Without(w, i), w.slots[i], whole);
  }

  /** What an event's cell says when the position moves on: swept, at the cut, or left in place. */
  lemma HeldAfter(w: Wheel, v: Wheel, e: Event, i: nat, whole: bool)
    requires w.Shaped() && v.Shaped() && Later(w, v, whole) && w.Held(e, i, whole)
    ensures Fits(v, e, whole)
    ensures i < Cell(w.pos, v.pos) ==> w.Due(e) < v.pos
    ensures i > Cell(w.pos, v.pos) ==> v.Held(e, i, whole)
  {
    DueNeverRises(w, v, e, whole);
    var d: nat :| w.Due(e) <= d < RANGE && Cell(w.pos, d) == i && (whole ==> d == w.Due(e) && w.Whole(e));
    if d < v.pos {
      CellMonotone(w.pos, d, v.pos);
    } else {
      CellMonotone(w.pos, v.pos, d);
      if i > Cell(w.pos, v.pos) {
        CellShift(w.pos, v.pos, d);
        assert v.Due(e) <= d && Cell(v.pos, d) == i;
      }
    }
  }

  lemma SweptInv(w: Wheel, steps: nat, now: int, whole: bool)
    requires w.Inv(whole) && CanWalk(w, steps, now) && (whole ==> steps * w.unit == now - w.now)
    ensures InvBut(Swept(w, steps, now), Cell(w.pos, w.pos + steps), whole)
  {
    var v, cut := Swept(w, steps, now), Cell(w.pos, w.pos + steps);
    FitsCell(w.pos, v.pos);
    var u := Without(v, cut);
    forall i, e | 0 <= i < |u.slots| && e in u.slots[i] ensures u.Held(e, i, whole) {
      assert i > cut && e in w.slots[i];
      HeldAfter(w, u, e, i, whole);
    }
    forall e | e in v.slots[cut] ensures Fits(v, e, whole) {
      assert w.Held(e, cut, whole);
      HeldAfter(w, v, e, cut, whole);
    }
  }

  lemma SettledKeeps(w: Wheel, steps: nat, now: int, whole: bool)
    requires w.Inv(whole) && w.Inv(false) && CanWalk(w, steps, now)
    requires whole ==> steps * w.unit == now - w.now
    ensures Settled(w, steps, now).Inv(whole)
  {
    var v, cut := Swept(w, steps, now), Cell(w.pos, w.pos + steps);
    SweptInv(w, steps, now, false);
    SweptInv(w, steps, now, whole);
    RestoreKeeps(v, cut, whole);
    assert Settled(w, steps, now) == Restore(v, cut);
  }

  lemma CascadedKeeps(w: Wheel, steps: nat, now: int, whole: bool)
    requires w.Inv(whole) && w.Inv(false) && CanWalk(w, steps, now)
    requires whole ==> steps * w.unit == now - w.now
    ensures Cascaded(w, steps, now).Inv(whole)
  {
    SettledKeeps(w, steps, now, whole);
    InvIsInvBut(Settled(w, steps, now), Neighbour(w, steps), false);
    InvIsInvBut(Settled(w, steps, now), Neighbour(w, steps), whole);
    RestoreKeeps(Settled(w, steps, now), Neighbour(w, steps), whole);
  }

  /** Every walk keeps the invariant, and with a whole-millisecond clock the exact one. */
  lemma WalkKeeps(w: Wheel, steps: nat, now: int, whole: bool)
    requires w.Inv(whole) && w.Inv(false) && CanWalk(w, steps, now)
    requires whole ==> steps * w.unit == now - w.now
    ensures Walk(w, steps, now).wheel.Inv(whole)
  {
    var v := Cascaded(w, steps, now);
    assert v.Inv(whole) by { CascadedKeeps(w, steps, now, whole); }
    RemoveKeeps(v, v.pos % 60, whole);
  }

  /** Running out of range only moves the clock, which keeps the invariant too. */
  lemma StalledKeeps(w: Wheel, clock: int)
    requires w.Inv(false) && w.now <= clock
    ensures w.(now := clock).Inv(false)
  {
    var v := w.(now := clock);
    forall i, e | 0 <= i < |v.slots| && e in v.slots[i] ensures v.Held(e, i, false) {
      assert w.Held(e, i, false);
      var d: nat :| w.Due(e) <= d < RANGE && Cell(w.pos, d) == i;
      DueNeverRises(w, v, e, false);
      assert v.Due(e) <= d && Cell(v.pos, d) == i;
    }
  }

  lemma ExpireKeeps(w: Wheel, clock: int)
    requires w.Inv(false)
    ensures Expire(w, clock).wheel.Inv(false)
    ensures Expire(w, clock).wheel.unit == w.unit && Expire(w, clock).wheel.now >= w.now
  {
    if clock > w.now {
      StepsBound(w, clock);
      if w.pos + Steps(w, clock) < RANGE {
        WalkKeeps(w, Steps(w, clock), clock, false);
      } else {
        StalledKeeps(w, clock);
      }
    }
  }

  /**
    Where the invariant puts an event, in digits: a slot strictly ahead of its
    level's cursor (or at it, on level 0), and with a whole-millisecond clock the
    slot of the due tick's digit on the level above which tick and position agree.
   */
  lemma Layout(w: Wheel, k: nat, s: nat, e: Event, whole: bool)
    requires w.Inv(whole) && k < LEVEL_NUM && s < 60 && e in w.slots[60 * k + s]
    ensures if k == 0 then Digit(w.pos, 0) <= s else Digit(w.pos, k) < s
    ensures whole ==> Quo(w.Due(e), k + 1) == Quo(w.pos, k + 1) && s == Digit(w.Due(e), k)
  {
    assert w.Held(e, 60 * k + s, whole);
    var d: nat :| w.Due(e) <= d < RANGE && Cell(w.pos, d) == 60 * k + s && (whole ==> d == w.Due(e));
    CellLayout(w.pos, d, k, s);
  }

  // ---------- conservation ----------

  lemma {:induction false} ConcatSplit(a: seq<Events>, b: seq<Events>)
    ensures Concat(a + b) == Concat(a) + Concat(b)
  {
    if a == [] {
      assert a + b == b;
    } else {
      assert (a + b)[1..] == a[1..] + b;
      ConcatSplit(a[1..], b);
    }
  }

  lemma BagUpdate(slots: seq<Events>, i: nat, es: Events)
    requires i < |slots|
    ensures multiset(Concat(slots[i := es])) + multiset(slots[i]) == multiset(Concat(slots)) + multiset(es)
  {
    var a, c := slots[..i], slots[i + 1..];
    assert slots == a + ([slots[i]] + c) && slots[i := es] == a + ([es] + c);
    ConcatSplit(a, [slots[i]] + c);
    ConcatSplit(a, [es] + c);
    assert ([slots[i]] + c)[1..] == c && ([es] + c)[1..] == c;
  }

  lemma ConcatUpTo(slots: seq<Events>, a: nat, b: nat)
    requires a <= b <= |slots|
    ensures Concat(slots[..a]) + Concat(slots[a..b]) == Concat(slots[..b])
  {
    assert slots[..b] == slots[..a] + slots[a..b];
    ConcatSplit(slots[..a], slots[a..b]);
  }

  lemma {:induction false} ConcatEmpty(n: nat)
    ensures Concat(seq(n, _ => [])) == []
  {
    if n != 0 {
      var s: seq<Events> := seq(n, _ => []);
      assert s[1..] == seq(n - 1, _ => []);
      ConcatEmpty(n - 1);
    }
  }

  lemma BagAppend(slots: seq<Events>, i: nat, e: Event)
    requires i < |slots|
    ensures multiset(Concat(slots[i := slots[i] + [e]])) == multiset(Concat(slots)) + multiset{e}
  {
    var b, b' := multiset(Concat(slots)), multiset(Concat(slots[i := slots[i] + [e]]));
    var m := multiset(slots[i]);
    BagUpdate(slots, i, slots[i] + [e]);
    assert multiset(slots[i] + [e]) == m + multiset{e};
    assert b' + m - m == b';
    assert b + (m + multiset{e}) - m == b + multiset{e};
  }

  lemma ConcatCut(slots: seq<Events>, cut: nat)
    requires cut <= |slots|
    ensures Concat(Cleared(slots, cut)) == Concat(slots[cut..])
    ensures Concat(slots) == Concat(slots[..cut]) + Concat(slots[cut..])
  {
    var a, b := slots[..cut], slots[cut..];
    assert Concat(Cleared(slots, cut)) == Concat(b) by {
      ConcatSplit(seq(cut, _ => []), b);
      ConcatEmpty(cut);
    }
    assert slots == a + b;
    ConcatSplit(a, b);
  }

  lemma InsertConserves(w: Wheel, e: Event)
    requires w.Shaped() && Fits(w, e, false)
    ensures Insert(w, e).Bag() == w.Bag() + multiset{e}
  {
    FitsCell(w.pos, w.Due(e));
    BagAppend(w.slots, Cell(w.pos, w.Due(e)), e);
  }

  lemma {:induction false} InsertAllConserves(w: Wheel, es: Events)
    requires w.Shaped() && AllFit(w, es, false)
    ensures InsertAll(w, es).Bag() == w.Bag() + multiset(es)
    decreases |es|
  {
    if es != [] {
      TailFits(w, es, false);
      var v := Insert(w, es[0]);
      assert v.Bag() == w.Bag() + multiset{es[0]} by { InsertConserves(w, es[0]); }
      InsertAllConserves(v, es[1..]);
      assert multiset(es) == multiset{es[0]} + multiset(es[1..]) by { assert es == [es[0]] + es[1..]; }
    }
  }

  lemma RestoreConserves(w: Wheel, i: nat)
    requires InvBut(w, i, false)
    ensures Restore(w, i).Bag() == w.Bag()
  {
    BagUpdate(w.slots, i, []);
    InsertAllConserves(Without(w, i), w.slots[i]);
  }

  /** The events of the slots from the cut on, and of those before it. */
  ghost function Kept(w: Wheel, steps: nat): multiset<Event>
    requires w.Shaped() && w.pos + steps < RANGE
  {
    FitsCell(w.pos, w.pos + steps);
    multiset(Concat(w.slots[Cell(w.pos, w.pos + steps)..]))
  }

  function Gone(w: Wheel, steps: nat): Events
    requires w.Shaped() && w.pos + steps < RANGE
  {
    FitsCell(w.pos, w.pos + steps);
    Concat(w.slots[..Cell(w.pos, w.pos + steps)])
  }

  lemma SweptConserves(w: Wheel, steps: nat, now: int)
    requires w.Shaped() && w.pos + steps < RANGE
    ensures Swept(w, steps, now).Bag() == Kept(w, steps)
    ensures Kept(w, steps) + multiset(Gone(w, steps)) == w.Bag()
  {
    FitsCell(w.pos, w.pos + steps);
    var cut := Cell(w.pos, w.pos + steps);
    ConcatCut(w.slots, cut);
    assert Swept(w, steps, now).slots == Cleared(w.slots, cut);
    assert Gone(w, steps) == Concat(w.slots[..cut]);
  }

  lemma SettledConserves(w: Wheel, steps: nat, now: int)
    requires w.Inv(false) && CanWalk(w, steps, now)
    ensures Settled(w, steps, now).Bag() == Kept(w, steps)
  {
    SweptInv(w, steps, now, false);
    RestoreConserves(Swept(w, steps, now), Cell(w.pos, w.pos + steps));
    assert Swept(w, steps, now).Bag() == Kept(w, steps) by { SweptConserves(w, steps, now); }
  }

  lemma CascadedConserves(w: Wheel, steps: nat, now: int)
    requires w.Inv(false) && CanWalk(w, steps, now)
    ensures Cascaded(w, steps, now).Bag() == Kept(w, steps)
  {
    var v := Settled(w, steps, now);
    assert v.Bag() == Kept(w, steps) by { SettledConserves(w, steps, now); }
    InvIsInvBut(v, Neighbour(w, steps), false);
    RestoreConserves(v, Neighbour(w, steps));
  }

  lemma WithoutBag(w: Wheel, i: nat)
    requires i < |w.slots|
    ensures Without(w, i).Bag() + multiset(w.slots[i]) == w.Bag()
  {
    BagUpdate(w.slots, i, []);
  }

  /** No sweep, cascade or re-insertion loses or duplicates an event. */
  lemma WalkConserves(w: Wheel, steps: nat, now: int)
    requires w.Inv(false) && CanWalk(w, steps, now)
    ensures Walk(w, steps, now).wheel.Bag() + multiset(Walk(w, steps, now).out) == w.Bag()
  {
    var v, g := Cascaded(w, steps, now), Gone(w, steps);
    assert v.Bag() + multiset(g) == w.Bag() by {
      CascadedConserves(w, steps, now);
      SweptConserves(w, steps, now);
    }
    WithoutBag(v, v.pos % 60);
    assert Walk(w, steps, now).out == g + v.slots[v.pos % 60];
  }

  /** What a walk passes through: v after the sweep, u after the first re-insertion, c after the second. */
  ghost predicate Plan(w: Wheel, p: nat, v: Wheel, u: Wheel, c: Wheel) {
    && p <= v.pos < RANGE && Cell(p, v.pos) < |w.slots|
    && v.slots == Cleared(w.slots, Cell(p, v.pos)) && v.unit == w.unit
    && InvBut(v, Cell(p, v.pos), false) && u == Restore(v, Cell(p, v.pos))
    && InvBut(u, NextOnLevel(Cell(p, v.pos)), false) && c == Restore(u, NextOnLevel(Cell(p, v.pos)))
    && c.pos % 60 < |c.slots|
  }

  lemma MakePlan(w: Wheel, n: nat, now: int) returns (v: Wheel, u: Wheel, c: Wheel)
    requires w.Inv(false) && CanWalk(w, n, now)
    ensures Plan(w, w.pos, v, u, c) && v.pos == w.pos + n && v.now == now && c == Cascaded(w, n, now)
  {
    v, u, c := Swept(w, n, now), Settled(w, n, now), Cascaded(w, n, now);
    FitsCell(w.pos, w.pos + n);
    SweptInv(w, n, now, false);
    InvIsInvBut(u, Neighbour(w, n), false);
  }

  lemma WalkResult(w: Wheel, n: nat, now: int, c: Wheel)
    requires w.Inv(false) && CanWalk(w, n, now) && c == Cascaded(w, n, now)
    ensures Cell(w.pos, w.pos + n) < |w.slots| && c.pos % 60 < |c.slots|
    ensures Walk(w, n, now)
         == Done(Without(c, c.pos % 60), Concat(w.slots[..Cell(w.pos, w.pos + n)]) + c.slots[c.pos % 60])
  {
    FitsCell(w.pos, w.pos + n);
  }

  // ---------- what a walk emits ----------

  lemma {:induction false} InConcat(slots: seq<Events>, e: Event) returns (i: nat)
    requires e in Concat(slots)
    ensures i < |slots| && e in slots[i]
  {
    if e in slots[0] {
      i := 0;
    } else {
      i := InConcat(slots[1..], e);
      i := i + 1;
    }
  }

  /** The level-0 cursor slot holds only events with no whole millisecond left. */
  lemma CurrentSlotIsDue(w: Wheel, e: Event)
    requires w.Inv(false) && e in w.slots[w.pos % 60]
    ensures w.Due(e) == w.pos
  {
    assert w.Held(e, w.pos % 60, false);
    var d: nat :| w.Due(e) <= d < RANGE && Cell(w.pos, d) == w.pos % 60;
    CellCurrent(w.pos, d);
  }

  /** Swept events were due strictly before the new position. */
  lemma GoneIsDue(w: Wheel, steps: nat, now: int, e: Event)
    requires w.Inv(false) && CanWalk(w, steps, now) && e in Gone(w, steps)
    ensures w.Due(e) < w.pos + steps
  {
    FitsCell(w.pos, w.pos + steps);
    var cut := Cell(w.pos, w.pos + steps);
    var i := InConcat(w.slots[..cut], e);
    assert e in w.slots[i] && w.Held(e, i, false);
    HeldAfter(w, w.(pos := w.pos + steps, now := now), e, i, false);
  }

  /** Whatever the clock, an event leaves the wheel with less than one millisecond to go. */
  lemma NeverEarly(w: Wheel, steps: nat, now: int, e: Event)
    requires w.Inv(false) && CanWalk(w, steps, now) && e in Walk(w, steps, now).out
    ensures e.expire - now < w.unit
  {
    var v := Cascaded(w, steps, now);
    if e in Gone(w, steps) {
      GoneIsDue(w, steps, now, e);
      DueNeverRises(w, v, e, false);
    } else {
      CurrentSlotIsDue(v, e);
    }
    TruncDivBounds(e.expire - now, w.unit, 1);
  }
}
