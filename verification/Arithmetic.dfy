/** Division facts and Euclid's algorithm, as used by the in-place block rotation. */
module Arithmetic {

  /** Quotient and remainder are determined by the division equation. */
  lemma DivModUnique(a: int, q: int, n: int, r: int)
    requires 0 <= r < n
    requires a == q * n + r
    ensures a % n == r && a / n == q
  {
    var d := a / n - q;
    assert a == (a / n) * n + a % n;
    assert d * n == r - a % n by {
      assert (a / n - q) * n == (a / n) * n - q * n;
    }
    assert d >= 1 ==> d * n >= n;
    assert d <= -1 ==> d * n <= -n;
  }

  /** A number below `count` times `n` has a quotient below `count`. */
  lemma QuotientBelow(i: nat, count: nat, n: nat)
    requires i < count * n && n > 0
    ensures i / n < count && i == (i / n) * n + i % n
  {
    var q := i / n;
    assert i == q * n + i % n;
    assert (q - count) * n == q * n - count * n;
    assert q >= count ==> (q - count) * n >= 0;
  }

  lemma MulAssoc(a: int, b: int, c: int)
    ensures (a * b) * c == a * (b * c)
  {
  }

  lemma MulDistributes(a: int, b: int, c: int)
    ensures a * (b - c) == a * b - a * c
  {
  }

  lemma MulSwap(a: int, b: int, c: int)
    ensures a * (b * c) == (a * c) * b
  {
  }

  /** Adding a multiple of the modulus changes nothing. */
  lemma ModShift(a: int, k: int, n: int)
    requires n > 0
    ensures (a + k * n) % n == a % n
  {
    assert a + k * n == (a / n + k) * n + a % n by {
      assert (a / n + k) * n == (a / n) * n + k * n;
    }
    DivModUnique(a + k * n, a / n + k, n, a % n);
  }

  /** A remainder may be replaced by the number it came from under a product. */
  lemma ModMul(a: int, c: int, n: int)
    requires n > 0
    ensures ((a % n) * c) % n == (a * c) % n
  {
    var q := a / n;
    assert a == q * n + a % n;
    assert a * c == (a % n) * c + (q * c) * n by {
      calc {
        a * c;
        (q * n + a % n) * c;
        (q * n) * c + (a % n) * c;
        { MulAssoc(q, n, c); MulAssoc(q, c, n); assert n * c == c * n; }
        (q * c) * n + (a % n) * c;
      }
    }
    ModShift((a % n) * c, q * c, n);
  }

  /** Taking the modulus before or after adding is the same. */
  lemma ModAdd(a: int, c: int, n: int)
    requires n > 0
    ensures (a % n + c) % n == (a + c) % n
  {
    assert a + c == (a % n + c) + (a / n) * n;
    ModShift(a % n + c, a / n, n);
  }

  /** The greatest common divisor, by Euclid's recursion. */
  function Gcd(a: nat, b: nat): nat
    decreases b
  {
    if b == 0 then a else Gcd(b, a % b)
  }

  /** Gcd divides both numbers and is an integer combination of them, so the two
      cofactors are coprime. */
  lemma {:induction false} GcdCofactors(a: nat, b: nat) returns (p: nat, r: nat, x: int, y: int)
    requires a > 0 || b > 0
    ensures Gcd(a, b) > 0
    ensures a == Gcd(a, b) * p && b == Gcd(a, b) * r
    ensures p * x + r * y == 1
    decreases b
  {
    if b == 0 {
      p, r, x, y := 1, 0, 1, 0;
    } else {
      var t, rem := a / b, a % b;
      var p', r', x', y' := GcdCofactors(b, rem);
      p, r, x, y := p' * t + r', p', y', x' - t * y';
      EuclidStep(Gcd(b, rem), a, b, t, rem, p', r');
      BezoutStep(p', r', x', y', t);
    }
  }

  lemma EuclidStep(g: int, a: int, b: int, t: int, rem: int, p: int, r: int)
    requires a == t * b + rem && b == g * p && rem == g * r
    ensures a == g * (p * t + r)
  {
    assert t * b == g * (p * t);
    assert g * (p * t + r) == g * (p * t) + g * r;
  }

  lemma BezoutStep(p: int, r: int, x: int, y: int, t: int)
    requires p * x + r * y == 1
    ensures (p * t + r) * y + p * (x - t * y) == 1
  {
    assert (p * t + r) * y == p * (t * y) + r * y;
    assert p * (x - t * y) == p * x - p * (t * y);
  }

  /** Euclid's loop. */
  method GreatestCommonDivisor(a0: nat, b0: nat) returns (g: nat)
    ensures g == Gcd(a0, b0)
  {
    var b: nat := b0;
    g := a0;
    while b != 0
      invariant Gcd(g, b) == Gcd(a0, b0)
      decreases b
    {
      var remainder := g % b;
      g := b;
      b := remainder;
    }
  }
}
