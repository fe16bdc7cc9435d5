/**
  Base-60 positions. The cursors of the timing wheel are the digits of one
  number, the position; a tick is stored relative to that position. All
  arithmetic here divides by the literal 60, one level at a time.
 */
module Odometer {

  const LEVEL_NUM: nat := 5

  /** 60^LEVEL_NUM: the first position the five cursors cannot denote. */
  const RANGE: nat := 777_600_000

  function Pow60(k: nat): nat {
    if k == 0 then 1 else 60 * Pow60(k - 1)
  }

  /** n / 60^k */
  function Quo(n: nat, k: nat): nat {
    if k == 0 then n else Quo(n / 60, k - 1)
  }

  /** The digit of n at level k. */
  function Digit(n: nat, k: nat): nat {
    Quo(n, k) % 60
  }

  /** The number whose digits, least significant first, are the cursors. */
  function Value(cursors: seq<nat>): nat {
    if cursors == [] then 0 else cursors[0] + 60 * Value(cursors[1..])
  }

  predicate AllDigits(cursors: seq<nat>) {
    forall k :: 0 <= k < |cursors| ==> cursors[k] < 60
  }

  /**
    The cell of tick d seen from position p, numbered 60 * level + slot: the
    level is the highest one at which the quotients of p and d differ (level 0
    when they agree everywhere) and the slot is the digit of d there.
   */
  function Cell(p: nat, d: nat): nat
    decreases p + d
  {
    if p / 60 == d / 60 then d % 60 else 60 + Cell(p / 60, d / 60)
  }

  // ---------- digits and quotients ----------

  lemma {:induction false} QuoStep(n: nat, k: nat)
    ensures Quo(n, k + 1) == Quo(n, k) / 60
    ensures Quo(n, k) == 60 * Quo(n, k + 1) + Digit(n, k)
  {
    if k != 0 {
      QuoStep(n / 60, k - 1);
    }
  }

  lemma {:induction false} QuoMonotone(a: nat, b: nat, k: nat)
    requires a <= b
    ensures Quo(a, k) <= Quo(b, k)
  {
    if k != 0 {
      QuoMonotone(a / 60, b / 60, k - 1);
    }
  }

  lemma {:induction false} QuoZero(n: nat, k: nat)
    ensures Quo(n, k) == 0 <==> n < Pow60(k)
  {
    if k != 0 {
      QuoZero(n / 60, k - 1);
    }
  }

  /** The digits of Value(cursors) are the cursors themselves. */
  lemma {:induction false} DigitOfValue(cursors: seq<nat>, k: nat)
    requires AllDigits(cursors) && k < |cursors|
    ensures Digit(Value(cursors), k) == cursors[k]
  {
    var n := Value(cursors);
    assert n == cursors[0] + 60 * Value(cursors[1..]);
    if k != 0 {
      assert n / 60 == Value(cursors[1..]);
      DigitOfValue(cursors[1..], k - 1);
    }
  }

  lemma {:induction false} ValueBound(cursors: seq<nat>)
    requires AllDigits(cursors)
    ensures Value(cursors) < Pow60(|cursors|)
  {
    if cursors != [] {
      ValueBound(cursors[1..]);
    }
  }

  /** Digits determine the number: cursors that hold the digits of n denote n. */
  lemma {:induction false} ValueOfDigits(cursors: seq<nat>, n: nat)
    requires n < Pow60(|cursors|)
    requires forall k :: 0 <= k < |cursors| ==> cursors[k] == Digit(n, k)
    ensures Value(cursors) == n
  {
    if cursors != [] {
      var rest := cursors[1..];
      forall k | 0 <= k < |rest| ensures rest[k] == Digit(n / 60, k) {
        assert cursors[k + 1] == Digit(n, k + 1);
      }
      ValueOfDigits(rest, n / 60);
      assert cursors[0] == Digit(n, 0);
    }
  }

  lemma RangeIsPow()
    ensures Pow60(LEVEL_NUM) == RANGE
  {
    assert Pow60(1) == 60;
    assert Pow60(2) == 3600;
    assert Pow60(3) == 216_000;
  }

  // ---------- cells ----------

  /** Later ticks never go to an earlier cell. */
  lemma {:induction false} CellMonotone(p: nat, a: nat, b: nat)
    requires p <= a <= b
    ensures Cell(p, a) <= Cell(p, b)
    decreases p + b
  {
    if p / 60 != a / 60 {
      CellMonotone(p / 60, a / 60, b / 60);
    }
  }

  /** Moving the position from p to q leaves every cell beyond that of q in place. */
  lemma {:induction false} CellShift(p: nat, q: nat, d: nat)
    requires p <= q <= d
    requires Cell(p, q) < Cell(p, d)
    ensures Cell(q, d) == Cell(p, d)
    ensures q < d
    decreases p + d
  {
    if p / 60 != q / 60 {
      CellShift(p / 60, q / 60, d / 60);
    }
  }

  /** The level-0 cursor slot is the cell of the position itself and of no later tick. */
  lemma CellCurrent(p: nat, d: nat)
    requires p <= d
    ensures Cell(p, p) == p % 60
    ensures Cell(p, d) == p % 60 <==> d == p
  {
    assert d == 60 * (d / 60) + d % 60;
    assert p == 60 * (p / 60) + p % 60;
  }

  /** Seen from a position below 60^k, the cells of the first k levels hold exactly the ticks below 60^k. */
  lemma {:induction false} CellRange(p: nat, d: nat, k: nat)
    requires p < Pow60(k) && p <= d && k > 0
    ensures Cell(p, d) < 60 * k <==> d < Pow60(k)
    decreases k
  {
    assert Pow60(k) == 60 * Pow60(k - 1);
    assert d / 60 < Pow60(k - 1) <==> d < Pow60(k);
    if p / 60 != d / 60 {
      if k == 1 {
        assert Cell(p, d) >= 60;
      } else {
        CellRange(p / 60, d / 60, k - 1);
      }
    }
  }

  /**
    The wheel's layout, stated with digits: tick d >= p has its cell in slot s
    of level k exactly when d and p share every digit above k, s is d's digit
    at k, and s is ahead of p's digit at k (or equal to it, on level 0).
   */
  lemma {:induction false} CellLayout(p: nat, d: nat, k: nat, s: nat)
    requires p <= d && s < 60
    ensures Cell(p, d) == 60 * k + s
       <==> Quo(d, k + 1) == Quo(p, k + 1) && s == Digit(d, k)
            && (if k == 0 then Digit(p, 0) <= s else Digit(p, k) < s)
    decreases k
  {
    if k == 0 {
      QuoStep(d, 0);
      QuoStep(p, 0);
    } else if p / 60 == d / 60 {
      assert Quo(d, k) == Quo(p, k);
    } else {
      CellLayout(p / 60, d / 60, k - 1, s);
      assert Cell(p, d) == 60 + Cell(p / 60, d / 60);
      assert Digit(p / 60, k - 1) == Digit(p, k) && Digit(d / 60, k - 1) == Digit(d, k);
      if k == 1 {
        QuoStep(p / 60, 0);
        QuoStep(d / 60, 0);
      }
    }
  }
}
