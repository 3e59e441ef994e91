// Python's integer bit operations on unbounded two's-complement integers:
// `x >> k` is floor division by 2^k (Dafny's `/` by a positive divisor),
// `x & 0xff` is `x % 256`, and `|`, `&`, `^` are defined bit by bit from
// the least significant end until both operands are 0 or -1.
module Bits {
  function Pow2(k: nat): (r: nat)
    ensures r >= 1
  {
    if k == 0 then 1 else 2 * Pow2(k - 1)
  }

  /** A measure that halving strictly decreases except at 0 and -1. */
  function Size(x: int): nat { if x >= 0 then x else -x - 1 }

  predicate Sign(x: int) { x == 0 || x == -1 }

  function Bit(x: int): int { x % 2 }

  /** Python's a | b. */
  function Or(a: int, b: int): int
    decreases Size(a) + Size(b)
  {
    if Sign(a) && Sign(b) then (if a == -1 || b == -1 then -1 else 0)
    else 2 * Or(a / 2, b / 2) + (if Bit(a) == 1 || Bit(b) == 1 then 1 else 0)
  }

  /** Python's a & b. */
  function And(a: int, b: int): int
    decreases Size(a) + Size(b)
  {
    if Sign(a) && Sign(b) then (if a == -1 && b == -1 then -1 else 0)
    else 2 * And(a / 2, b / 2) + (if Bit(a) == 1 && Bit(b) == 1 then 1 else 0)
  }

  /** Python's a ^ b. */
  function Xor(a: int, b: int): int
    decreases Size(a) + Size(b)
  {
    if Sign(a) && Sign(b) then (if a != b then -1 else 0)
    else 2 * Xor(a / 2, b / 2) + (if Bit(a) != Bit(b) then 1 else 0)
  }

  // --------------------------------------------------- division facts

  lemma DivDiv(a: int, m: nat, n: nat)
    requires m > 0 && n > 0
    ensures a / m / n == a / (m * n)
    ensures a % (m * n) == (a / m % n) * m + a % m
  {
    var q, r := a / m, a % m;
    var q2, r2 := q / n, q % n;
    assert a == q2 * (m * n) + (r2 * m + r) by {
      assert a == q * m + r;
      assert q == q2 * n + r2;
    }
    assert 0 <= r2 * m + r < m * n by {
      assert r2 <= n - 1;
      assert r2 * m <= (n - 1) * m;
    }
    DivModUnique(a, m * n, q2, r2 * m + r);
  }

  lemma DivModUnique(a: int, d: nat, q: int, r: int)
    requires d > 0 && 0 <= r < d && a == q * d + r
    ensures a / d == q && a % d == r
  {
    var q0, r0 := a / d, a % d;
    assert a == q0 * d + r0;
    if q0 > q {
      assert (q0 - q) * d == q0 * d - q * d;
      MulAtLeast(q0 - q, d);
    } else if q0 < q {
      assert (q - q0) * d == q * d - q0 * d;
      MulAtLeast(q - q0, d);
    }
  }

  lemma {:induction false} MulAtLeast(t: int, d: nat)
    requires t >= 1
    ensures t * d >= d
    decreases t
  {
    if t > 1 {
      MulAtLeast(t - 1, d);
      assert t * d == (t - 1) * d + d;
    }
  }

  lemma {:induction false} Pow2Add(a: nat, b: nat)
    ensures Pow2(a + b) == Pow2(a) * Pow2(b)
  {
    if a > 0 { Pow2Add(a - 1, b); }
  }

  /** (2^n - 1) >> p is 2^(n - p) - 1. */
  lemma OnesDiv(n: nat, p: nat)
    requires p <= n
    ensures (Pow2(n) - 1) / Pow2(p) == Pow2(n - p) - 1
  {
    Pow2Add(n - p, p);
    assert n - p + p == n;
    DivOnes(Pow2(n - p), Pow2(p));
  }

  lemma DivOnes(a: int, b: nat)
    requires b > 0
    ensures (a * b - 1) / b == a - 1
  {
    assert a * b - 1 == (a - 1) * b + (b - 1);
    DivModUnique(a * b - 1, b, a - 1, b - 1);
  }

  lemma Pow2Consts()
    ensures Pow2(8) == 256 && Pow2(16) == 65536 && Pow2(24) == 16777216
    ensures Pow2(32) == 4294967296 && Pow2(48) == 281474976710656
  {
    assert Pow2(2) == 4;
    assert Pow2(4) == 16;
    assert Pow2(6) == 64;
    assert Pow2(8) == 256;
    Pow2Add(8, 8);
    Pow2Add(16, 8);
    Pow2Add(24, 8);
    Pow2Add(32, 16);
  }

  lemma HalfPow2(k: nat)
    requires k > 0
    ensures Pow2(k) / 2 == Pow2(k - 1) && Pow2(k) % 2 == 0
  {
  }

  // ---------------------------------------------------- | on disjoint bits

  lemma {:induction false} OrZero(a: int)
    ensures Or(a, 0) == a
    decreases Size(a)
  {
    if !Sign(a) {
      OrZero(a / 2);
    }
  }

  /** OR-ing a value below 2^k into a multiple of 2^k adds it. */
  lemma {:induction false} OrShiftAdd(w: int, low: int, k: nat)
    requires 0 <= low < Pow2(k)
    ensures Or(w * Pow2(k), low) == w * Pow2(k) + low
  {
    if k == 0 {
      OrZero(w);
    } else {
      var a := w * Pow2(k);
      assert a == 2 * (w * Pow2(k - 1));
      assert a / 2 == w * Pow2(k - 1) && Bit(a) == 0;
      if Sign(a) && Sign(low) {
        assert a == 0 && low == 0;
      } else {
        OrShiftAdd(w, low / 2, k - 1);
      }
    }
  }

  /** a | (2^n - 1) sets the low n bits of a and keeps the others. */
  lemma {:induction false} OrLowOnes(a: int, n: nat)
    ensures Or(a, Pow2(n) - 1) == a - a % Pow2(n) + Pow2(n) - 1
    decreases n
  {
    if n == 0 {
      OrZero(a);
    } else {
      HalfPow2(n);
      assert (Pow2(n) - 1) / 2 == Pow2(n - 1) - 1 && Bit(Pow2(n) - 1) == 1;
      OrLowOnes(a / 2, n - 1);
      DivDiv(a, 2, Pow2(n - 1));
    }
  }

  // ---------------------------------------------------- masks for ipAdd

  lemma {:induction false} XorZero(a: int)
    ensures Xor(a, 0) == a
    decreases Size(a)
  {
    if !Sign(a) {
      XorZero(a / 2);
    }
  }

  /** (2^n - 1) ^ (2^m - 1) clears the low m bits. */
  lemma {:induction false} XorOnes(n: nat, m: nat)
    requires m <= n
    ensures Xor(Pow2(n) - 1, Pow2(m) - 1) == Pow2(n) - Pow2(m)
  {
    if m == 0 {
      XorZero(Pow2(n) - 1);
    } else {
      HalfPow2(n);
      HalfPow2(m);
      assert (Pow2(n) - 1) / 2 == Pow2(n - 1) - 1;
      assert (Pow2(m) - 1) / 2 == Pow2(m - 1) - 1;
      XorOnes(n - 1, m - 1);
    }
  }

  lemma {:induction false} AndZero(a: int)
    ensures And(a, 0) == 0
    decreases Size(a)
  {
    if !Sign(a) {
      AndZero(a / 2);
    }
  }

  lemma {:induction false} AndLowOnes(a: int, n: nat)
    ensures And(a, Pow2(n) - 1) == a % Pow2(n)
    decreases n
  {
    if n == 0 {
      AndZero(a);
    } else {
      HalfPow2(n);
      assert (Pow2(n) - 1) / 2 == Pow2(n - 1) - 1 && Bit(Pow2(n) - 1) == 1;
      AndLowOnes(a / 2, n - 1);
      DivDiv(a, 2, Pow2(n - 1));
    }
  }

  /** a & (2^n - 2^m) keeps bits m..n-1 of a. */
  lemma {:induction false} AndMask(a: int, n: nat, m: nat)
    requires m <= n
    ensures And(a, Pow2(n) - Pow2(m)) == a % Pow2(n) / Pow2(m) * Pow2(m)
    decreases m
  {
    if m == 0 {
      AndLowOnes(a, n);
      assert Pow2(m) == 1;
      var x := a % Pow2(n);
      assert x / 1 * 1 == x;
    } else {
      var b := Pow2(n) - Pow2(m);
      MaskHalf(n, m);
      if Sign(a) && Sign(b) {
        assert n == m by { if m < n { Pow2Mono(m, n); } }
        assert And(a, b) == 0 by { AndZero(a); }
        ModBelow(a % Pow2(n), Pow2(m));
      } else {
        var half := And(a / 2, b / 2);
        assert And(a, b) == 2 * half;
        AndMask(a / 2, n - 1, m - 1);
        assert half == a / 2 % Pow2(n - 1) / Pow2(m - 1) * Pow2(m - 1);
        MaskStep(a, n, m);
        assert And(a, b) == a % Pow2(n) / Pow2(m) * Pow2(m);
      }
    }
  }

  /** Halving 2^n - 2^m drops one bit from each power, and the low bit is 0. */
  lemma MaskHalf(n: nat, m: nat)
    requires 0 < m <= n
    ensures (Pow2(n) - Pow2(m)) / 2 == Pow2(n - 1) - Pow2(m - 1) && Bit(Pow2(n) - Pow2(m)) == 0
  {
    HalfDiff(Pow2(n - 1), Pow2(m - 1));
  }

  lemma HalfDiff(x: int, y: int)
    ensures (2 * x - 2 * y) / 2 == x - y && (2 * x - 2 * y) % 2 == 0
  {
    DivModUnique(2 * x - 2 * y, 2, x - y, 0);
  }

  /** 2^m < 2^n when m < n. */
  lemma {:induction false} Pow2Mono(m: nat, n: nat)
    requires m < n
    ensures Pow2(m) < Pow2(n)
    decreases n
  {
    if m < n - 1 {
      Pow2Mono(m, n - 1);
    }
  }

  /** A value below the divisor is its own remainder, with quotient 0. */
  lemma ModBelow(x: int, d: nat)
    requires 0 <= x < d
    ensures x / d * d == 0 && x % d == x
  {
    DivModUnique(x, d, 0, x);
  }

  lemma MaskStep(a: int, n: nat, m: nat)
    requires 0 < m <= n
    ensures 2 * (a / 2 % Pow2(n - 1) / Pow2(m - 1) * Pow2(m - 1)) == a % Pow2(n) / Pow2(m) * Pow2(m)
  {
    var x := a / 2 % Pow2(n - 1);
    var y := a % Pow2(n);
    DivDiv(a, 2, Pow2(n - 1));
    assert y == x * 2 + a % 2;
    DivDiv(y, 2, Pow2(m - 1));
    assert y / 2 == x;
    var z := x / Pow2(m - 1);
    assert y / Pow2(m) == z;
    assert 2 * (z * Pow2(m - 1)) == z * Pow2(m);
  }
}
