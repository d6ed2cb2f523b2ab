/** 32-bit machine words as bounded integers: the rounding macros of common.h with their wrap-around, and the
    bitwise operators `|` and `&` defined bit by bit, with the facts that turn them into arithmetic. */
module Words {

  const WORD_RANGE: int := 0x1_0000_0000

  type Word = x: int | 0 <= x < 0x1_0000_0000

  /** What an unsigned 32-bit computation leaves of an exact result. */
  function Wrap(x: int): Word {
    x % WORD_RANGE
  }

  /** ROUNDDOWN(a, n). */
  function RoundDown(a: Word, n: Word): Word
    requires 0 < n
  {
    a - a % n
  }

  /** ROUNDUP(a, n): the sum is taken in 32 bits before it is rounded down. */
  function RoundUp(a: Word, n: Word): Word
    requires 0 < n
  {
    RoundDown(Wrap(a + n - 1), n)
  }

  /** x is the least multiple of n that is not below a. */
  ghost predicate IsLeastMultipleFrom(x: int, a: int, n: int)
    requires 0 < n
  {
    x % n == 0 && a <= x < a + n
  }

  lemma MultipleGap(q: int, n: int)
    requires 0 < n && 0 < q
    ensures n <= q * n
  {
  }

  /** ROUNDUP rounds up exactly when its 32-bit sum does not wrap; when it wraps (for an n that divides 2^32) the
      result is 0. */
  lemma RoundUpExact(a: Word, n: Word)
    requires 0 < n && WORD_RANGE % n == 0
    ensures IsLeastMultipleFrom(RoundUp(a, n), a, n) <==> a + n - 1 < WORD_RANGE
    ensures a + n - 1 >= WORD_RANGE ==> RoundUp(a, n) == 0
  {
    var t := a + n - 1;
    if t < WORD_RANGE {
      assert Wrap(t) == t;
      assert t == (t / n) * n + t % n;
      assert (t - t % n) % n == 0 by {
        assert t - t % n == (t / n) * n;
        MultipleHasNoRemainder(t / n, n);
      }
    } else {
      assert Wrap(t) == t - WORD_RANGE < n;
      assert Wrap(t) % n == Wrap(t) by { SmallModulus(Wrap(t), n); }
      assert RoundUp(a, n) == 0;
      assert 0 < a;
    }
  }

  lemma MultipleHasNoRemainder(q: int, n: int)
    requires 0 < n
    ensures (q * n) % n == 0
  {
    var r := (q * n) % n;
    var p := (q * n) / n;
    assert q * n == p * n + r;
    assert (q - p) * n == r;
    if q - p > 0 {
      MultipleGap(q - p, n);
    } else if q - p < 0 {
      MultipleGap(p - q, n);
    }
  }

  lemma SmallModulus(x: int, n: int)
    requires 0 <= x < n
    ensures x % n == x
  {
  }

  // ------------------------------------------------------------------ bitwise operators

  function Pow2(k: nat): (p: nat)
    ensures 0 < p
  {
    if k == 0 then 1 else 2 * Pow2(k - 1)
  }

  function BitOr(a: nat, b: nat): nat
    decreases a + b
  {
    if a == 0 then b
    else if b == 0 then a
    else (if a % 2 == 1 || b % 2 == 1 then 1 else 0) + 2 * BitOr(a / 2, b / 2)
  }

  function BitAnd(a: nat, b: nat): nat
    decreases a + b
  {
    if a == 0 || b == 0 then 0
    else (if a % 2 == 1 && b % 2 == 1 then 1 else 0) + 2 * BitAnd(a / 2, b / 2)
  }

  lemma {:induction false} OrCommutes(a: nat, b: nat)
    ensures BitOr(a, b) == BitOr(b, a)
    decreases a + b
  {
    if a != 0 && b != 0 {
      OrCommutes(a / 2, b / 2);
    }
  }

  lemma HalfOfScaled(h: nat, k: nat)
    requires 0 < k
    ensures h * Pow2(k) == 2 * (h * Pow2(k - 1))
  {
  }

  lemma Halves(x: nat, y: nat, l: nat)
    requires x == 2 * y
    ensures (x + l) / 2 == y + l / 2 && (x + l) % 2 == l % 2
  {
  }

  /** OR distributes over the split of a word at bit k, when the second operand lies below the split. */
  lemma {:induction false} OrBelow(h: nat, k: nat, l: nat, b: nat)
    requires l < Pow2(k) && b < Pow2(k)
    ensures BitOr(l, b) < Pow2(k)
    ensures BitOr(h * Pow2(k) + l, b) == h * Pow2(k) + BitOr(l, b)
    decreases k
  {
    if k == 0 {
      assert l == 0 && b == 0;
    } else {
      var x, y := h * Pow2(k), h * Pow2(k - 1);
      HalfOfScaled(h, k);
      Halves(x, y, l);
      OrBelow(h, k - 1, l / 2, b / 2);
      if b != 0 {
        OrUnfolds(x + l, b);
        OrUnfolds(l, b);
      }
    }
  }

  lemma OrUnfolds(a: nat, b: nat)
    ensures BitOr(a, b) == (if a % 2 == 1 || b % 2 == 1 then 1 else 0) + 2 * BitOr(a / 2, b / 2)
  {
  }

  /** OR-ing a value below 2^k onto a multiple of 2^k is adding it. */
  lemma OrIsAdd(h: nat, k: nat, b: nat)
    requires b < Pow2(k)
    ensures BitOr(h * Pow2(k), b) == h * Pow2(k) + b
  {
    OrBelow(h, k, 0, b);
  }

  lemma AndUnfolds(a: nat, b: nat)
    ensures BitAnd(a, b) == (if a % 2 == 1 && b % 2 == 1 then 1 else 0) + 2 * BitAnd(a / 2, b / 2)
  {
  }

  /** AND with a mask shifted up by k bits clears the k low bits and masks the others. */
  lemma {:induction false} AndShiftedMask(h: nat, k: nat, l: nat, mask: nat)
    requires l < Pow2(k) && BitAnd(h, mask) == h
    ensures BitAnd(h * Pow2(k) + l, mask * Pow2(k)) == h * Pow2(k)
    decreases k
  {
    if k != 0 {
      var x, y := h * Pow2(k), h * Pow2(k - 1);
      var m, n := mask * Pow2(k), mask * Pow2(k - 1);
      HalfOfScaled(h, k);
      HalfOfScaled(mask, k);
      Halves(x, y, l);
      Halves(m, n, 0);
      AndShiftedMask(h, k - 1, l / 2, mask);
      AndUnfolds(x + l, m);
    }
  }

  lemma {:induction false} AndLowMask(h: nat, w: nat)
    requires h < Pow2(w)
    ensures BitAnd(h, Pow2(w) - 1) == h
    decreases w
  {
    if w != 0 {
      AndLowMask(h / 2, w - 1);
      AndUnfolds(h, Pow2(w) - 1);
    }
  }

  // ------------------------------------------------------------------ bit fields by division

  lemma QuotientOfSum(a: nat, d: nat, low: nat)
    requires 0 < d
    ensures (a * d + low) / d == a + low / d
  {
    var q, r := (a * d + low) / d, (a * d + low) % d;
    assert a * d + low == q * d + r;
    assert low == low / d * d + low % d;
    assert (q - a - low / d) * d == low % d - r;
    if q - a - low / d > 0 {
      MultipleGap(q - a - low / d, d);
    } else if q - a - low / d < 0 {
      MultipleGap(a + low / d - q, d);
    }
  }

  lemma RemainderOfSum(a: nat, d: nat, low: nat)
    requires 0 < d
    ensures (a * d + low) % d == low % d
  {
    QuotientOfSum(a, d, low);
    assert a * d + low == (a + low / d) * d + (a * d + low) % d;
    assert (a + low / d) * d == a * d + low / d * d;
  }

  /** Quotient and remainder, recognised from the sum they make up. */
  lemma DivMod(x: nat, d: nat, q: nat, r: nat)
    requires x == q * d + r && r < d
    ensures x / d == q && x % d == r
  {
    QuotientOfSum(q, d, r);
    RemainderOfSum(q, d, r);
    SmallModulus(r, d);
    assert r == r / d * d + r % d;
    if r / d > 0 {
      MultipleGap(r / d, d);
    }
  }

  lemma WrapIs(x: nat, q: nat, r: Word)
    requires x == q * WORD_RANGE + r
    ensures Wrap(x) == r
  {
    DivMod(x, WORD_RANGE, q, r);
  }

  /** Wrapping a summand early makes no difference. */
  lemma WrapSum(a: nat, x: nat)
    ensures Wrap(a + Wrap(x)) == Wrap(a + x)
  {
    var q, p := x / WORD_RANGE, (a + Wrap(x)) / WORD_RANGE;
    WrapIs(a + x, q + p, Wrap(a + Wrap(x)));
  }

  /** A field of width log2(m) at bit log2(d) is not changed by adding multiples of a power of two above it. */
  lemma FieldBelow(h: nat, top: nat, low: nat, d: nat, m: nat, q: nat)
    requires 0 < d && 0 < m && top == q * m * d
    ensures (h * top + low) / d % m == low / d % m
  {
    assert h * top == (h * q * m) * d;
    QuotientOfSum(h * q * m, d, low);
    RemainderOfSum(h * q, m, low / d);
  }
}
