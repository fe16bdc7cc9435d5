/**
  The timing wheel as the source runs it: carry loops over the cursors, slot
  sweeps that start at the cursor and wrap round, re-insertion of two slots.
  Every method is proved to compute the corresponding function of WheelModel.
 */
module TimingWheel {
  import opened Odometer
  import opened WheelModel

  function Max0(n: int): nat {
    if n > 0 then n else 0
  }

  /**
    One iteration of the carry loop: from the quotients' difference at level k
    to the difference at level k + 1.
   */
  lemma CarryStep(p: nat, d: nat, k: nat)
    requires p <= d
    ensures Quo(p, k) <= Quo(d, k)
    ensures var t := Quo(d, k) - Quo(p, k);
      Quo(d, k + 1) - Quo(p, k + 1) == t / 60 + (if t % 60 >= 60 - Digit(p, k) then 1 else 0)
  {
    QuoMonotone(p, d, k);
    QuoStep(p, k);
    QuoStep(d, k);
  }

  lemma {:induction false} QuoEqualAbove(p: nat, d: nat, k: nat, m: nat)
    requires Quo(p, k) == Quo(d, k) && k <= m
    ensures Quo(p, m) == Quo(d, m)
    decreases m - k
  {
    if k < m {
      QuoStep(p, k);
      QuoStep(d, k);
      QuoEqualAbove(p, d, k + 1, m);
    }
  }

  /** The carry loop's invariant, adding up from position p to position d. */
  ghost predicate Carrying(p: nat, d: nat, level: nat, total: int, levelSteps: seq<int>) {
    && level <= LEVEL_NUM && |levelSteps| == 60
    && Max0(total) == Quo(d, level) - Quo(p, level)
    && (if level == 0 then levelSteps[0] == 0 else Quo(p, level - 1) < Quo(d, level - 1))
    && forall i :: 0 <= i < level ==> levelSteps[i] == (Quo(d, i) - Quo(p, i)) % 60
  }

  lemma CarryAdvances(p: nat, d: nat, level: nat, total: int, levelSteps: seq<int>, cursor: nat)
    requires p <= d && Carrying(p, d, level, total, levelSteps) && total > 0
    requires level < LEVEL_NUM && cursor == Digit(p, level)
    ensures Carrying(p, d, level + 1, total / 60 + (if total % 60 >= 60 - cursor then 1 else 0),
              levelSteps[level := total % 60])
  {
    CarryStep(p, d, level);
  }

  /**
    The sum of position and step count, as the loop leaves it: the highest level
    that changes, which with the sum's digit there is the sum's cell, and the
    steps each level has to take.
   */
  ghost predicate Added(p: nat, d: nat, level: nat, levelSteps: seq<int>) {
    && level < LEVEL_NUM && |levelSteps| == 60
    && Cell(p, d) == 60 * level + Digit(d, level)
    && 0 <= levelSteps[level] == Digit(d, level) - Digit(p, level)
    && (forall i :: 0 <= i < level ==> levelSteps[i] == (Quo(d, i) - Quo(p, i)) % 60)
    && (forall m :: level < m < LEVEL_NUM ==> Digit(p, m) == Digit(d, m))
  }

  lemma CarryStops(p: nat, d: nat, level: nat, total: int, levelSteps: seq<int>)
    requires p <= d && p < RANGE && Carrying(p, d, level, total, levelSteps) && total <= 0
    ensures d < RANGE && Added(p, d, if level == 0 then 0 else level - 1, levelSteps)
  {
    var top := if level == 0 then 0 else level - 1;
    QuoMonotone(p, d, top);
    QuoStep(p, top);
    QuoStep(d, top);
    forall m | top < m < LEVEL_NUM ensures Digit(p, m) == Digit(d, m) {
      QuoEqualAbove(p, d, level, m);
    }
    CellLayout(p, d, top, Digit(d, top));
    RangeIsPow();
    CellRange(p, d, LEVEL_NUM);
  }

  /** The loop would need a sixth level exactly beyond the range. */
  lemma CarryOverflows(p: nat, d: nat)
    requires p <= d && Quo(p, LEVEL_NUM) < Quo(d, LEVEL_NUM)
    ensures d >= RANGE
  {
    RangeIsPow();
    QuoZero(d, LEVEL_NUM);
  }

  lemma {:induction false} ZeroDigits(k: nat)
    ensures Quo(0, k) == 0
  {
    if k != 0 {
      ZeroDigits(k - 1);
    }
  }

  /** The slots from a up to b emptied. */
  function Emptied(slots: seq<Events>, a: nat, b: nat): seq<Events> {
    seq(|slots|, i requires 0 <= i < |slots| => if a <= i < b then [] else slots[i])
  }

  lemma NothingEmptied(slots: seq<Events>, a: nat)
    requires a <= |slots|
    ensures Emptied(slots, a, a) == slots && Concat(slots[a..a]) == []
  {
  }

  lemma UpdateTwice(cursors: seq<int>, k: nat, a: int, b: int)
    requires k < |cursors|
    ensures cursors[k := a][k := b] == cursors[k := b]
  {
  }

  /** One more slot swept: what it held comes out after the rest. */
  lemma SweepSlot(was: seq<Events>, a: nat, b: nat)
    requires a <= b < |was|
    ensures Emptied(was, a, b)[b] == was[b]
    ensures Emptied(was, a, b)[b := []] == Emptied(was, a, b + 1)
    ensures Concat(was[a..b + 1]) == Concat(was[a..b]) + was[b]
  {
    ConcatExtend(was, a, b);
  }

  lemma SweepNothing(was: seq<Events>, a: nat, b: nat, i: nat)
    requires i < |was| && !(a <= i < b) && was[i] == []
    ensures Emptied(was, a, b)[i] == [] && Emptied(was, a, b)[i := []] == Emptied(was, a, b)
  {
  }

  lemma SweepRow(was: seq<Events>, base: nat, start: nat)
    requires base <= start <= base + 60 <= |was|
    requires forall i :: base <= i < start ==> was[i] == []
    ensures Concat(was[start..base + 60]) == Concat(was[base..base + 60])
    ensures Emptied(was, start, base + 60) == Emptied(was, base, base + 60)
  {
    assert was[base..base + 60] == was[base..start] + was[start..base + 60];
    ConcatSplit(was[base..start], was[start..base + 60]);
    ConcatAllEmpty(was[base..start]);
  }

  lemma ConcatOne(es: Events)
    ensures Concat([es]) == es
  {
  }

  lemma ConcatExtend(slots: seq<Events>, a: nat, b: nat)
    requires a <= b < |slots|
    ensures Concat(slots[a..b + 1]) == Concat(slots[a..b]) + slots[b]
  {
    assert slots[a..b + 1] == slots[a..b] + [slots[b]];
    ConcatSplit(slots[a..b], [slots[b]]);
    ConcatOne(slots[b]);
  }

  lemma {:induction false} ConcatAllEmpty(slots: seq<Events>)
    requires forall i :: 0 <= i < |slots| ==> slots[i] == []
    ensures Concat(slots) == []
  {
    if slots != [] {
      ConcatAllEmpty(slots[1..]);
    }
  }

  lemma DigitSum(p: nat, q: nat, k: nat)
    requires p <= q
    ensures var t := (Quo(q, k) - Quo(p, k)) % 60;
      Digit(q, k) == if t >= 60 - Digit(p, k) then Digit(p, k) + t - 60 else Digit(p, k) + t
  {
    QuoMonotone(p, q, k);
    QuoStep(p, k);
    QuoStep(q, k);
    CarryStep(p, q, k);
  }

  /** The full sweeps and the partial one together clear everything before the cut, and hand it out in order. */
  lemma SweepsMeet(slots: seq<Events>, row: nat, a: nat, b: nat)
    requires row <= a <= b <= |slots|
    requires forall i :: row <= i < a ==> slots[i] == []
    ensures Emptied(Emptied(slots, 0, row), a, b) == Cleared(slots, b)
    ensures Concat(slots[..row]) + Concat(Emptied(slots, 0, row)[a..b]) == Concat(slots[..b])
  {
    assert Emptied(slots, 0, row)[a..b] == slots[a..b];
    ConcatGap(slots, row, a, b);
  }

  lemma ConcatGap(slots: seq<Events>, row: nat, a: nat, b: nat)
    requires row <= a <= b <= |slots|
    requires forall i :: row <= i < a ==> slots[i] == []
    ensures Concat(slots[..row]) + Concat(slots[a..b]) == Concat(slots[..b])
  {
    ConcatUpTo(slots, row, b);
    SliceOfSlice(slots, row, a, b);
    ConcatSplit(slots[row..a], slots[a..b]);
    ConcatAllEmpty(slots[row..a]);
  }

  lemma SliceOfSlice(slots: seq<Events>, row: nat, a: nat, b: nat)
    requires row <= a <= b <= |slots|
    ensures slots[row..b] == slots[row..a] + slots[a..b]
  {
    var whole, parts := slots[row..b], slots[row..a] + slots[a..b];
    forall i | 0 <= i < |whole| ensures whole[i] == parts[i] {
      if i < a - row {
        assert parts[i] == slots[row..a][i];
      } else {
        assert parts[i] == slots[a..b][i - (a - row)];
      }
    }
  }

  lemma NextRow(slots: seq<Events>, row: nat)
    requires row + 60 <= |slots|
    ensures Emptied(Emptied(slots, 0, row), row, row + 60) == Emptied(slots, 0, row + 60)
    ensures Concat(slots[..row]) + Concat(Emptied(slots, 0, row)[row..row + 60]) == Concat(slots[..row + 60])
  {
    assert Emptied(slots, 0, row)[row..row + 60] == slots[row..row + 60];
    ConcatUpTo(slots, row, row + 60);
  }

  /** Every slot its level's cursor has passed is empty. */
  predicate BehindEmpty(slots: seq<Events>, p: nat) {
    |slots| == 60 * LEVEL_NUM && forall k :: 0 <= k < LEVEL_NUM ==> RowBehindEmpty(slots, 60 * k, Digit(p, k))
  }

  predicate RowBehindEmpty(slots: seq<Events>, row: nat, cursor: nat) {
    forall i :: row <= i < row + cursor && i < |slots| ==> slots[i] == []
  }

  lemma InvBehindEmpty(w: Wheel)
    requires w.Inv(false)
    ensures BehindEmpty(w.slots, w.pos)
  {
    forall k | 0 <= k < LEVEL_NUM ensures RowBehindEmpty(w.slots, 60 * k, Digit(w.pos, k)) {
      forall i | 60 * k <= i < 60 * k + Digit(w.pos, k) ensures w.slots[i] == [] {
        if w.slots[i] != [] {
          Layout(w, k, i - 60 * k, w.slots[i][0], false);
        }
      }
    }
  }

  lemma NextSlot(level: nat, slot: nat)
    requires slot < 60
    ensures NextOnLevel(60 * level + slot) == 60 * level + (if slot + 1 == 60 then 0 else slot + 1)
  {
  }

  class TimingWheel {
    const slots: array<Events>
    const cursors: array<nat>
    const unit: int
    var now: int

    ghost predicate Valid()
      reads this, cursors
    {
      && slots.Length == 60 * LEVEL_NUM && cursors.Length == LEVEL_NUM
      && unit > 0 && AllDigits(cursors[..])
    }

    ghost function Pos(): nat
      reads this, cursors
    {
      Value(cursors[..])
    }

    ghost function Abs(): Wheel
      reads this, slots, cursors
    {
      Wheel(slots[..], Pos(), now, unit)
    }

    constructor (clock: int, ticksPerMs: int)
      requires ticksPerMs > 0
      ensures Valid() && fresh(slots) && fresh(cursors)
      ensures Abs() == Wheel(seq(60 * LEVEL_NUM, _ => []), 0, clock, ticksPerMs)
    {
      slots := new Events[60 * LEVEL_NUM](_ => []);
      cursors := new nat[LEVEL_NUM](_ => 0);
      now := clock;
      unit := ticksPerMs;
      new;
      forall k | 0 <= k < LEVEL_NUM ensures cursors[..][k] == Digit(0, k) {
        ZeroDigits(k);
      }
      RangeIsPow();
      ValueOfDigits(cursors[..], 0);
      assert slots[..] == seq(60 * LEVEL_NUM, _ => []);
    }

    lemma CursorIsDigit(k: nat)
      requires Valid() && k < LEVEL_NUM
      ensures cursors[k] == Digit(Pos(), k) && Pos() < RANGE
    {
      DigitOfValue(cursors[..], k);
      ValueBound(cursors[..]);
      RangeIsPow();
    }

    /**
      The carry loop of insertion and of walking: adds `steps` to the cursors in
      base 60, level by level, and stops at the highest level that changes. It
      fails exactly when a level past the last one would be needed.
     */
    method Carry(steps: int) returns (ok: bool, level: nat, levelSteps: seq<int>)
      requires Valid()
      ensures Pos() < RANGE && (ok <==> Pos() + Max0(steps) < RANGE)
      ensures ok ==> Added(Pos(), Pos() + Max0(steps), level, levelSteps)
    {
      CursorIsDigit(0);
      ghost var p, d := Pos(), Pos() + Max0(steps);
      var total := steps;
      level, levelSteps := 0, seq(60, _ => 0);
      while total > 0
        invariant Carrying(p, d, level, total, levelSteps)
        decreases LEVEL_NUM - level
      {
        if level == LEVEL_NUM {
          CarryOverflows(p, d);
          return false, level, levelSteps;
        }
        CursorIsDigit(level);
        CarryAdvances(p, d, level, total, levelSteps, cursors[level]);
        levelSteps := levelSteps[level := total % 60];
        var anotherCycle := levelSteps[level] >= 60 - cursors[level];
        total := total / 60 + (if anotherCycle then 1 else 0);
        level := level + 1;
      }
      CarryStops(p, d, level, total, levelSteps);
      level := if level - 1 > 0 then level - 1 else 0;
      ok := true;
    }

    /** Stores e, or reports that the source's bounds check threw. */
    method InsertEvent(e: Event) returns (ok: bool)
      requires Valid()
      modifies slots
      ensures Valid() && old(Abs()).Shaped()
      ensures ok <==> Fits(old(Abs()), e, false)
      ensures Abs() == if ok then Insert(old(Abs()), e) else old(Abs())
    {
      var level, levelSteps;
      ok, level, levelSteps := Carry(TruncDiv(e.expire - now, unit));
      if ok {
        CursorIsDigit(level);
        var slot, steps := cursors[level], levelSteps[level];
        if steps >= 60 - slot {
          steps := steps - 60;
        }
        slot := slot + steps;
        slots[60 * level + slot] := slots[60 * level + slot] + [e];
      }
    }

    /**
      The full sweep of one level: 60 slots in cursor order, wrapping round. The
      slots behind the cursor are empty, so what comes out is the row in slot order.
     */
    method SweepLevel(level: nat) returns (out: Events)
      requires Valid() && level < LEVEL_NUM
      requires RowBehindEmpty(slots[..], 60 * level, cursors[level])
      modifies slots
      ensures out == Concat(old(slots[..])[60 * level..60 * level + 60])
      ensures slots[..] == Emptied(old(slots[..]), 60 * level, 60 * level + 60)
    {
      var base, slot := 60 * level, cursors[level];
      ghost var was, start, done := slots[..], base + slot, base + slot;
      NothingEmptied(was, start);
      out := [];
      for j := 0 to 60
        invariant slot < 60 && start + j == (if done < base + 60 then base + slot else base + 60 + slot)
        invariant done == (if start + j < base + 60 then start + j else base + 60)
        invariant out == Concat(was[start..done])
        invariant slots[..] == Emptied(was, start, done)
      {
        if done < base + 60 {
          SweepSlot(was, start, done);
          done := done + 1;
        } else {
          SweepNothing(was, start, done, base + slot);
        }
        var events := TakeSlot(base + slot);
        out := out + events;
        slot := slot + 1;
        if slot == 60 {
          slot := 0;
        }
      }
      SweepRow(was, base, start);
    }

    method TakeSlot(i: nat) returns (events: Events)
      requires i < slots.Length
      modifies slots
      ensures events == old(slots[..])[i] && slots[..] == old(slots[..])[i := []]
    {
      events := slots[i];
      slots[i] := [];
    }

    /** The partial sweep of the top level, which carries its cursor along. */
    method SweepTop(level: nat, steps: int) returns (out: Events)
      requires Valid() && level < LEVEL_NUM && 0 <= steps && cursors[level] + steps < 60
      modifies slots, cursors
      ensures Valid() && cursors[..] == old(cursors[..])[level := old(cursors[level]) + steps]
      ensures var start := 60 * level + old(cursors[level]);
        && out == Concat(old(slots[..])[start..start + steps])
        && slots[..] == Emptied(old(slots[..]), start, start + steps)
    {
      ghost var was, start, c := slots[..], 60 * level + cursors[level], cursors[level];
      ghost var cs: seq<int> := cursors[..];
      NothingEmptied(was, start);
      out := [];
      for i := 0 to steps
        invariant cursors[..] == cs[level := c + i]
        invariant out == Concat(was[start..start + i])
        invariant slots[..] == Emptied(was, start, start + i)
      {
        SweepSlot(was, start, start + i);
        UpdateTwice(cs, level, c + i, c + i + 1);
        assert cursors[..][level] == c + i;
        var events := TakeAndMove(level);
        out := out + events;
      }
    }

    /** One round of it: the cursor's slot is taken and the cursor moves on. */
    method TakeAndMove(level: nat) returns (events: Events)
      requires level < cursors.Length && 60 * level + cursors[level] < slots.Length
      modifies slots, cursors
      ensures var i := 60 * level + old(cursors[level]);
        events == old(slots[..])[i] && slots[..] == old(slots[..])[i := []]
      ensures cursors[..]
           == old(cursors[..])[level := if old(cursors[level]) + 1 == 60 then 0 else old(cursors[level]) + 1]
    {
      var slot := cursors[level];
      events := TakeSlot(60 * level + slot);
      cursors[level] := if slot + 1 == 60 then 0 else slot + 1;
    }

    /** Copies slot i out, clears it and inserts every event again. */
    method StoreAgain(i: nat, ghost v: Wheel)
      requires Valid() && Abs() == v && InvBut(v, i, false)
      modifies slots
      ensures Valid() && Abs() == Restore(v, i)
    {
      var events := TakeSlot(i);
      ghost var w := Without(v, i);
      assert Abs() == w;
      for k := 0 to |events|
        invariant Abs().Shaped() && AllFit(Abs(), events[k..], false)
        invariant InsertAll(Abs(), events[k..]) == InsertAll(w, events)
      {
        TailFits(Abs(), events[k..], false);
        assert events[k..][0] == events[k] && events[k..][1..] == events[k + 1..];
        var ok := InsertEvent(events[k]);
      }
    }

    /** Some cursors already show position q, the others still position p. */
    ghost predicate Between(p: nat, q: nat, level: nat)
      reads this, cursors
    {
      Valid() && forall k :: 0 <= k < LEVEL_NUM ==> cursors[k] == Digit(if k < level then q else p, k)
    }

    method AdvanceCursor(level: nat, levelStep: int, ghost p: nat, ghost q: nat)
      requires level < LEVEL_NUM && p <= q && Between(p, q, level)
      requires levelStep == (Quo(q, level) - Quo(p, level)) % 60
      modifies cursors
      ensures Between(p, q, level + 1)
    {
      DigitSum(p, q, level);
      var steps := levelStep;
      if steps >= 60 - cursors[level] {
        steps := steps - 60;
      }
      cursors[level] := cursors[level] + steps;
    }

    /** The first loop of `walk`: every level below the top one is swept and its cursor advanced. */
    method SweepBelow(level: nat, levelSteps: seq<int>, ghost was: seq<Events>, ghost p: nat, ghost q: nat)
      returns (out: Events)
      requires slots[..] == was && BehindEmpty(was, p) && Between(p, q, 0)
      requires p <= q && Added(p, q, level, levelSteps)
      modifies slots, cursors
      ensures Between(p, q, level)
      ensures out == Concat(was[..60 * level]) && slots[..] == Emptied(was, 0, 60 * level)
    {
      out := [];
      assert slots[..] == Emptied(was, 0, 0);
      for i := 0 to level
        invariant Between(p, q, i)
        invariant out == Concat(was[..60 * i]) && slots[..] == Emptied(was, 0, 60 * i)
      {
        assert RowBehindEmpty(was, 60 * i, cursors[i]);
        NextRow(was, 60 * i);
        var events := SweepLevel(i);
        out := out + events;
        AdvanceCursor(i, levelSteps[i], p, q);
      }
    }

    lemma CursorsShow(q: nat)
      requires Valid() && q < RANGE
      requires forall k :: 0 <= k < LEVEL_NUM ==> cursors[k] == Digit(q, k)
      ensures Pos() == q
    {
      RangeIsPow();
      ValueOfDigits(cursors[..], q);
    }

    /** Both sweeping loops: the cursors end at q, everything before q's cell comes out. */
    method Sweep(level: nat, levelSteps: seq<int>, ghost was: seq<Events>, ghost p: nat, ghost q: nat)
      returns (out: Events)
      requires slots[..] == was && BehindEmpty(was, p) && Between(p, q, 0)
      requires p <= q < RANGE && Added(p, q, level, levelSteps) && Cell(p, q) < |was|
      modifies slots, cursors
      ensures Valid() && Pos() == q && cursors[level] == Digit(q, level)
      ensures slots[..] == Cleared(was, Cell(p, q)) && out == Concat(was[..Cell(p, q)])
    {
      ghost var cut := Cell(p, q);
      var lower := SweepBelow(level, levelSteps, was, p, q);
      assert RowBehindEmpty(was, 60 * level, cursors[level]);
      SweepsMeet(was, 60 * level, 60 * level + cursors[level], cut);
      var upper := SweepTop(level, levelSteps[level]);
      out := lower + upper;
      CursorsShow(q);
    }

    /** Advances the cursors by `steps` and hands out what is due; w is the wheel before the clock moved. */
    method Walk(steps: int, ghost w: Wheel) returns (ok: bool, out: Events)
      requires Valid() && w.Inv(false) && Abs() == w.(now := now) && Max0(steps) * unit <= now - w.now
      modifies slots, cursors
      ensures Valid() && (ok <==> w.pos + Max0(steps) < RANGE)
      ensures ok ==> WheelModel.Walk(w, Max0(steps), now) == Done(Abs(), out)
      ensures !ok ==> Abs() == old(Abs()) && out == []
    {
      var level, levelSteps;
      ok, level, levelSteps := Carry(steps);
      if !ok {
        return false, [];
      }
      out := WalkInRange(level, levelSteps, w, Max0(steps));
    }

    /** The walk when it does not throw. */
    method WalkInRange(level: nat, levelSteps: seq<int>, ghost w: Wheel, ghost n: nat) returns (out: Events)
      requires Valid() && w.Inv(false) && Abs() == w.(now := now) && CanWalk(w, n, now)
      requires Added(w.pos, w.pos + n, level, levelSteps)
      modifies slots, cursors
      ensures Valid() && WheelModel.Walk(w, n, now) == Done(Abs(), out)
    {
      ghost var c;
      out, c := SweepAndCascade(level, levelSteps, w, n);
      WalkResult(w, n, now, c);
    }

    method SweepAndCascade(level: nat, levelSteps: seq<int>, ghost w: Wheel, ghost n: nat)
      returns (out: Events, ghost c: Wheel)
      requires Valid() && w.Inv(false) && Abs() == w.(now := now) && CanWalk(w, n, now)
      requires Added(w.pos, w.pos + n, level, levelSteps)
      modifies slots, cursors
      ensures Valid() && c == Cascaded(w, n, now) && c.pos % 60 < |c.slots| && Cell(w.pos, w.pos + n) < |w.slots|
      ensures Abs() == Without(c, c.pos % 60)
      ensures out == Concat(w.slots[..Cell(w.pos, w.pos + n)]) + c.slots[c.pos % 60]
    {
      forall k | 0 <= k < LEVEL_NUM ensures cursors[k] == Digit(w.pos, k) {
        CursorIsDigit(k);
      }
      InvBehindEmpty(w);
      ghost var v, u;
      v, u, c := MakePlan(w, n, now);
      out := WalkTo(level, levelSteps, w, w.pos, v, u, c);
    }

    /** The walk once the sum is known. */
    method WalkTo(level: nat, levelSteps: seq<int>, ghost w: Wheel, ghost p: nat, ghost v: Wheel, ghost u: Wheel,
                  ghost c: Wheel)
      returns (out: Events)
      requires slots[..] == w.slots && BehindEmpty(w.slots, p) && Between(p, v.pos, 0) && now == v.now && unit == v.unit
      requires Plan(w, p, v, u, c) && Added(p, v.pos, level, levelSteps)
      modifies slots, cursors
      ensures Valid() && Abs() == Without(c, c.pos % 60)
      ensures out == Concat(w.slots[..Cell(p, v.pos)]) + c.slots[c.pos % 60]
    {
      out := Sweep(level, levelSteps, w.slots, p, v.pos);
      Cascade(level, Cell(p, v.pos), v, u);
      var events := TakeCurrent(c);
      out := out + events;
    }

    /** Stores the cut slot and the one after it on the same level again. */
    method Cascade(level: nat, ghost i: nat, ghost v: Wheel, ghost u: Wheel)
      requires Valid() && level < LEVEL_NUM && i == 60 * level + cursors[level] && Abs() == v
      requires InvBut(v, i, false) && u == Restore(v, i) && InvBut(u, NextOnLevel(i), false)
      modifies slots
      ensures Valid() && Abs() == Restore(u, NextOnLevel(i))
    {
      var slot := cursors[level];
      NextSlot(level, slot);
      StoreAgain(60 * level + slot, v);
      slot := slot + 1;
      if slot == 60 {
        slot := 0;
      }
      StoreAgain(60 * level + slot, u);
    }

    /** Takes what lies at the level-0 cursor. */
    method TakeCurrent(ghost v: Wheel) returns (events: Events)
      requires Valid() && Abs() == v
      modifies slots
      ensures Valid() && v.pos % 60 < |v.slots|
      ensures events == v.slots[v.pos % 60] && Abs() == Without(v, v.pos % 60)
    {
      CursorIsDigit(0);
      events := TakeSlot(cursors[0]);
    }

    /** Reads the clock and, if it moved forward, walks the whole milliseconds since the last time. */
    method Expire(clock: int) returns (ok: bool, out: Events)
      requires Valid() && Abs().Inv(false)
      modifies this, slots, cursors
      ensures Valid() && Abs() == WheelModel.Expire(old(Abs()), clock).wheel && Abs().Inv(false)
      ensures ok <==> WheelModel.Expire(old(Abs()), clock).Done?
      ensures out == if ok then WheelModel.Expire(old(Abs()), clock).out else []
    {
      ghost var w := Abs();
      ok, out := true, [];
      if clock > now {
        StepsBound(w, clock);
        var steps := ToInt32((clock - now) / unit);
        now := clock;
        ok, out := Walk(steps, w);
      }
      ExpireKeeps(w, clock);
    }
  }
}
