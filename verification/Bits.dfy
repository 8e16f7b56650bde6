/** Powers of two, the quotient and remainder of a number given by both, and exclusive or. */
module Bits {
  predicate PowerOfTwo(n: nat) { n == 1 || (n > 0 && n % 2 == 0 && PowerOfTwo(n / 2)) }

  function Exp2(n: nat): (p: nat)
    ensures p > 0
  {
    if n == 0 then 1 else 2 * Exp2(n - 1)
  }

  /** The numbers that a halving test accepts are the powers. */
  lemma {:induction false} PowerIs(n: nat) returns (k: nat)
    requires PowerOfTwo(n)
    ensures n == Exp2(k)
  {
    if n == 1 {
      k := 0;
    } else {
      var l := PowerIs(n / 2);
      k := l + 1;
    }
  }

  lemma {:induction false} IsPower(k: nat)
    ensures PowerOfTwo(Exp2(k))
  {
    if k > 0 {
      IsPower(k - 1);
    }
  }

  lemma {:induction false} PowerTwice(n: nat)
    requires PowerOfTwo(n)
    ensures n > 0 && PowerOfTwo(2 * n)
  {
    assert 2 * n / 2 == n;
  }

  lemma {:induction false} PowerHalf(n: nat) returns (h: nat)
    requires PowerOfTwo(n) && n != 1
    ensures PowerOfTwo(h) && n == 2 * h && 0 < h < n
  {
    h := n / 2;
  }

  lemma {:induction false} PowerProduct(a: nat, b: nat)
    requires PowerOfTwo(a) && PowerOfTwo(b)
    ensures PowerOfTwo(a * b)
  {
    hide PowerOfTwo;
    if a == 1 {
      assert a * b == b;
    } else {
      var h := PowerHalf(a);
      PowerProduct(h, b);
      PowerTwice(h * b);
      assert a * b == 2 * (h * b);
    }
  }

  lemma {:induction false} DivModUnique(q: nat, r: nat, d: nat)
    requires d > 0 && r < d
    ensures (q * d + r) / d == q && (q * d + r) % d == r
  {
    var n := q * d + r;
    assert n == (n / d) * d + n % d;
    if n / d < q {
      MulStep(n / d, q, d);
    } else if n / d > q {
      MulStep(q, n / d, d);
    }
  }

  lemma {:induction false} MulStep(a: nat, b: nat, d: nat)
    requires a < b
    ensures a * d + d <= b * d
  {
    assert (b - a - 1) * d >= 0;
    assert b * d == (b - a - 1) * d + a * d + d;
  }

  lemma {:induction false} ModTwice(p: nat, y: nat, m: nat)
    requires p < 2 && m > 0
    ensures (p + 2 * y) % (2 * m) == p + 2 * (y % m)
  {
    var q, r := y / m, y % m;
    assert y == q * m + r;
    assert p + 2 * y == q * (2 * m) + (p + 2 * r);
    DivModUnique(q, p + 2 * r, 2 * m);
  }

  ghost predicate IsMultiple(a: nat, n: nat) { exists q: nat :: a == q * n }

  lemma {:induction false} MultipleIs(a: nat, n: nat)
    ensures IsMultiple(a, n) <==> if n == 0 then a == 0 else a % n == 0
  {
    if n > 0 && a % n == 0 {
      assert a == a / n * n;
    }
    if n == 0 && a == 0 {
      assert a == 0 * n;
    }
    if q: nat :| a == q * n && n > 0 {
      DivModUnique(q, 0, n);
    }
  }

  /** A smaller power of two divides a larger one. */
  lemma {:induction false} PowerDivides(n: nat, m: nat)
    requires PowerOfTwo(n) && PowerOfTwo(m) && n <= m
    ensures m % n == 0
  {
    if n > 1 {
      PowerDivides(n / 2, m / 2);
      var q := (m / 2) / (n / 2);
      assert m / 2 == q * (n / 2);
      assert m == q * n + 0 by { assert n == 2 * (n / 2) && m == 2 * (m / 2); assert q * n == 2 * (q * (n / 2)); }
      DivModUnique(q, 0, n);
    }
  }

  lemma {:induction false} MultipleBelow(a: nat, n: nat, space: nat)
    requires n > 0 && a < space && a % n == 0 && space % n == 0
    ensures a + n <= space
  {
    var p, q := a / n, space / n;
    assert a == p * n && space == q * n;
    if p < q {
      MulStep(p, q, n);
    } else if p > q {
      MulStep(q, p, n);
    }
  }

  /** What is aligned to a power of two stays within a space of at least that size. */
  lemma {:induction false} AlignedFits(a: nat, n: nat, space: nat)
    requires PowerOfTwo(n) && PowerOfTwo(space) && n <= space && a < space && a % n == 0
    ensures a + n <= space
  {
    PowerDivides(n, space);
    MultipleBelow(a, n, space);
  }

  /** The bitwise exclusive or. */
  function Xor(a: nat, b: nat): nat {
    if a == 0 && b == 0 then 0 else (a + b) % 2 + 2 * Xor(a / 2, b / 2)
  }
}
