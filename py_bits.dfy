/** Python's & and | on non-negative ints, bit by bit from the least
    significant, for the match codes and channel masks of the SysAP
    configuration. */
module PyBits {
  /** a & b. */
  function BitAnd(a: nat, b: nat): nat
  {
    if a == 0 || b == 0 then 0
    else 2 * BitAnd(a / 2, b / 2) + (if a % 2 == 1 && b % 2 == 1 then 1 else 0)
  }

  /** a | b. */
  function BitOr(a: nat, b: nat): nat
  {
    if a == 0 && b == 0 then 0
    else 2 * BitOr(a / 2, b / 2) + (if a % 2 == 1 || b % 2 == 1 then 1 else 0)
  }

  /** a ^ b. */
  function BitXor(a: nat, b: nat): nat
  {
    if a == 0 && b == 0 then 0
    else 2 * BitXor(a / 2, b / 2) + (if a % 2 != b % 2 then 1 else 0)
  }

  /** Python's a & b on ints of either sign, where a negative n stands for
      the two's complement ~(-n - 1) with infinitely many sign bits. */
  function IntAnd(a: int, b: int): int
  {
    if a >= 0 && b >= 0 then BitAnd(a, b)
    else if a >= 0 then a - BitAnd(a, -b - 1)
    else if b >= 0 then b - BitAnd(b, -a - 1)
    else -1 - BitOr(-a - 1, -b - 1)
  }

  /** Python's a | b on ints of either sign. */
  function IntOr(a: int, b: int): int
  {
    if a >= 0 && b >= 0 then BitOr(a, b)
    else if a >= 0 then -1 - ((-b - 1) - BitAnd(-b - 1, a))
    else if b >= 0 then -1 - ((-a - 1) - BitAnd(-a - 1, b))
    else -1 - BitAnd(-a - 1, -b - 1)
  }

  /** Python's a ^ b on ints of either sign. */
  function IntXor(a: int, b: int): int
  {
    if a >= 0 && b >= 0 then BitXor(a, b)
    else if a >= 0 then -1 - BitXor(a, -b - 1)
    else if b >= 0 then -1 - BitXor(-a - 1, b)
    else BitXor(-a - 1, -b - 1)
  }

  function Pow2(k: nat): (p: nat)
    ensures p >= 1
  {
    if k == 0 then 1 else 2 * Pow2(k - 1)
  }

  /** The mask 0xFFFFFFFF. */
  const ALL_32_BITS: nat := 0xFFFF_FFFF

  /** m & (s | t) == 0 exactly when m shares no bit with s and none with t:
      a datapoint is filtered out exactly when its match code meets neither
      the sensor nor the actuator match code. */
  lemma {:induction false} AndOrZero(m: nat, s: nat, t: nat)
    ensures BitAnd(m, BitOr(s, t)) == 0 <==> BitAnd(m, s) == 0 && BitAnd(m, t) == 0
  {
    if m != 0 && (s != 0 || t != 0) {
      AndOrZero(m / 2, s / 2, t / 2);
      var o := BitOr(s, t);
      assert o / 2 == BitOr(s / 2, t / 2);
      assert o % 2 == 1 <==> s % 2 == 1 || t % 2 == 1;
    }
  }

  /** a & (2^k - 1) == a % 2^k: the low k bits of a. */
  lemma {:induction false} AndLowBits(a: nat, k: nat)
    ensures BitAnd(a, Pow2(k) - 1) == a % Pow2(k)
  {
    hide Pow2;
    if k == 0 {
      Pow2Zero();
    } else if a != 0 {
      var p := Pow2(k - 1);
      Pow2Succ(k);
      var m := 2 * p - 1;
      assert m / 2 == p - 1 && m % 2 == 1;
      AndLowBits(a / 2, k - 1);
      var q, r := (a / 2) / p, (a / 2) % p;
      assert BitAnd(a, m) == 2 * r + a % 2;
      DivModOf(a / 2, p);
      DoubleProduct(p, q);
      assert a == (2 * p) * q + (2 * r + a % 2);
      DivModUnique(a, 2 * p, q, 2 * r + a % 2);
    }
  }

  lemma DivModOf(x: int, d: int)
    requires d > 0
    ensures x == d * (x / d) + x % d && 0 <= x % d < d
  {
  }

  lemma DoubleProduct(p: int, q: int)
    ensures 2 * (p * q) == (2 * p) * q
  {
  }

  lemma Pow2Zero()
    ensures Pow2(0) == 1
  {
  }

  lemma Pow2Succ(k: nat)
    requires k > 0
    ensures Pow2(k) == 2 * Pow2(k - 1)
  {
  }

  lemma DivModUnique(a: nat, d: nat, q: int, r: int)
    requires d > 0 && a == d * q + r && 0 <= r < d
    ensures a % d == r
  {
    var e := a / d - q;
    assert d * e == r - a % d;
    MulSign(d, e);
  }

  lemma MulSign(d: int, e: int)
    requires d >= 0
    ensures e >= 1 ==> d * e >= d
    ensures e <= -1 ==> d * e <= 0 - d
  {
  }

  /** Multiplying by a non-negative factor keeps an order. */
  lemma MulLe(a: int, b: int, c: int)
    requires a <= b && c >= 0
    ensures a * c <= b * c
  {
    MulSign(c, b - a + 1);
    assert c * (b - a + 1) == b * c - a * c + c;
  }

  lemma {:induction false} Pow2Add(a: nat, b: nat)
    ensures Pow2(a + b) == Pow2(a) * Pow2(b)
  {
    if a > 0 {
      Pow2Add(a - 1, b);
    }
  }

  lemma Pow2Of32()
    ensures Pow2(32) == 0x1_0000_0000
  {
    assert Pow2(2) == 4;
    Pow2Add(2, 2);
    Pow2Add(4, 4);
    Pow2Add(8, 8);
    Pow2Add(16, 16);
  }

  /** Under the default mask 0xFFFFFFFF a match code is filtered out exactly
      when its low 32 bits are all zero. */
  lemma DefaultMask(a: nat)
    ensures BitAnd(a, ALL_32_BITS) == 0 <==> a % 0x1_0000_0000 == 0
  {
    Pow2Of32();
    AndLowBits(a, 32);
  }

  lemma {:induction false} BitAndComm(a: nat, b: nat)
    ensures BitAnd(a, b) == BitAnd(b, a)
  {
    if a != 0 && b != 0 {
      BitAndComm(a / 2, b / 2);
    }
  }

  lemma {:induction false} BitOrComm(a: nat, b: nat)
    ensures BitOr(a, b) == BitOr(b, a)
  {
    if a != 0 || b != 0 {
      BitOrComm(a / 2, b / 2);
    }
  }

  lemma {:induction false} BitXorComm(a: nat, b: nat)
    ensures BitXor(a, b) == BitXor(b, a)
  {
    if a != 0 || b != 0 {
      BitXorComm(a / 2, b / 2);
    }
  }

  /** &, | and ^ do not depend on the order of their operands. */
  lemma IntOpsComm(a: int, b: int)
    ensures IntAnd(a, b) == IntAnd(b, a) && IntOr(a, b) == IntOr(b, a) && IntXor(a, b) == IntXor(b, a)
  {
    if a >= 0 && b >= 0 {
      BitAndComm(a, b);
      BitOrComm(a, b);
      BitXorComm(a, b);
    } else if a < 0 && b < 0 {
      BitAndComm(-a - 1, -b - 1);
      BitOrComm(-a - 1, -b - 1);
      BitXorComm(-a - 1, -b - 1);
    } else if a >= 0 {
      BitXorComm(a, -b - 1);
    } else {
      BitXorComm(-a - 1, b);
    }
  }

  /** a | b is zero exactly when both are. */
  lemma {:induction false} BitOrZero(a: nat, b: nat)
    ensures BitOr(a, b) == 0 <==> a == 0 && b == 0
  {
    if a != 0 || b != 0 {
      BitOrZero(a / 2, b / 2);
    }
  }

  /** Or and exclusive or of two k-bit numbers have k bits. */
  lemma {:induction false} BitOrXorBound(a: nat, b: nat, k: nat)
    requires a < Pow2(k) && b < Pow2(k)
    ensures BitOr(a, b) < Pow2(k) && BitXor(a, b) < Pow2(k)
  {
    if a != 0 || b != 0 {
      assert k > 0;
      BitOrXorBound(a / 2, b / 2, k - 1);
    }
  }

  /** Or-ing a number below 2^n into a multiple of 2^n adds it. */
  lemma {:induction false} BitOrDisjoint(a: nat, b: nat, n: nat)
    requires b < Pow2(n)
    ensures BitOr(a * Pow2(n), b) == a * Pow2(n) + b
  {
    if n > 0 {
      var h := a * Pow2(n - 1);
      assert a * Pow2(n) == 2 * h;
      assert b / 2 < Pow2(n - 1);
      BitOrDisjoint(a, b / 2, n - 1);
      if h != 0 || b != 0 {
        assert (2 * h) / 2 == h && (2 * h) % 2 == 0;
      }
    } else {
      BitOrNone(a);
    }
  }

  lemma {:induction false} BitOrNone(a: nat)
    ensures BitOr(a, 0) == a
  {
    if a != 0 {
      BitOrNone(a / 2);
    }
  }

  /** Exclusive or with 2^k - 1 flips each of the k low bits. */
  lemma {:induction false} BitXorMask(a: nat, k: nat)
    requires a < Pow2(k)
    ensures BitXor(a, Pow2(k) - 1) == Pow2(k) - 1 - a
  {
    if k > 0 {
      var m := Pow2(k) - 1;
      assert m / 2 == Pow2(k - 1) - 1 && m % 2 == 1;
      BitXorMask(a / 2, k - 1);
    }
  }

  /** Reducing k * a + s modulo k * d, for s below k, reduces a modulo d. */
  lemma ModScaled(k: int, a: int, s: int, d: int)
    requires k > 0 && d > 0 && a >= 0 && 0 <= s < k
    ensures (k * a + s) % (k * d) == k * (a % d) + s
  {
    var q, r := a / d, a % d;
    ScaleSplit(k, a, d, q, r);
    MulLe(r, d - 1, k);
    MulLe(0, r, k);
    assert (d - 1) * k == k * d - k;
    DivModUnique(k * a + s, k * d, q, k * r + s);
  }

  /** a == d * q + r scaled by k. */
  lemma ScaleSplit(k: int, a: int, d: int, q: int, r: int)
    requires a == d * q + r
    ensures k * a == (k * d) * q + k * r
  {
    assert k * (d * q) == (k * d) * q;
  }

  /** a % (m * n) % m == a % m. */
  lemma ModOfMod(a: int, m: int, n: int)
    requires a >= 0 && m > 0 && n > 0
    ensures (a % (m * n)) % m == a % m
  {
    var q, r := a / (m * n), a % (m * n);
    assert a == (m * n) * q + r && 0 <= r;
    var q2, r2 := r / m, r % m;
    assert r == m * q2 + r2 && 0 <= r2 < m;
    assert a == m * (n * q + q2) + r2;
    DivModUnique(a, m, n * q + q2, r2);
  }

  /** a < p * q gives a / p < q. */
  lemma DivBelow(a: int, p: int, q: int)
    requires a >= 0 && p > 0 && a < p * q
    ensures a / p < q
  {
    var d, r := a / p, a % p;
    assert a == p * d + r && 0 <= r;
    MulSign(p, d - q);
    assert p * (d - q) == p * d - p * q;
  }

  /** a | b is at least b. */
  lemma {:induction false} BitOrAtLeast(a: nat, b: nat)
    ensures BitOr(a, b) >= b
  {
    if a != 0 || b != 0 {
      BitOrAtLeast(a / 2, b / 2);
    }
  }

  /** a & b is at most a and at most b. */
  lemma {:induction false} BitAndAtMost(a: nat, b: nat)
    ensures BitAnd(a, b) <= a && BitAnd(a, b) <= b
  {
    if a != 0 && b != 0 {
      BitAndAtMost(a / 2, b / 2);
    }
  }

  /** & works on the low n bits and the rest separately: with q = 2^n and
      a, b below q, (a + q*x) & (b + q*y) == (a & b) + q*(x & y). */
  lemma {:induction false} BitAndSplit(a: nat, b: nat, x: nat, y: nat, n: nat, q: nat)
    requires q == Pow2(n) && a < q && b < q
    ensures BitAnd(a + q * x, b + q * y) == BitAnd(a, b) + q * BitAnd(x, y)
  {
    if n == 0 {
      assert a == 0 && b == 0 && q == 1;
      assert BitAnd(a, b) == 0;
    } else {
      var p := Pow2(n - 1);
      HalfSplit(a, p, 0);
      HalfSplit(b, p, 0);
      BitAndSplit(a / 2, b / 2, x, y, n - 1, p);
      BitAndSplitStep(a, b, x, y, p, q);
    }
  }

  /** One step of BitAndSplit: the lowest bit, then the rest one position
      further down. */
  lemma BitAndSplitStep(a: nat, b: nat, x: nat, y: nat, p: nat, q: nat)
    requires q == 2 * p && a < q && b < q
    requires BitAnd(a / 2 + p * x, b / 2 + p * y) == BitAnd(a / 2, b / 2) + p * BitAnd(x, y)
    ensures BitAnd(a + q * x, b + q * y) == BitAnd(a, b) + q * BitAnd(x, y)
  {
    var w := BitAnd(x, y);
    hide BitAnd;
    DoubleProducts(q, p, x, y, w);
    var px, py, pw := p * x, p * y, p * w;
    HalfSplit(a, p, px);
    HalfSplit(b, p, py);
    HalfSplit(a, p, 0);
    HalfSplit(b, p, 0);
    BitAndLowBit(a % 2, b % 2, a / 2 + px, b / 2 + py);
    BitAndLowBit(a % 2, b % 2, a / 2, b / 2);
    RegroupAnd(BitAnd(a + q * x, b + q * y), BitAnd(a % 2, b % 2), BitAnd(a / 2, b / 2), pw, BitAnd(a, b), q * w);
  }

  lemma RegroupAnd(l: int, lo: int, m: int, pw: int, s: int, qw: int)
    requires l == lo + 2 * (m + pw) && s == lo + 2 * m && qw == 2 * pw
    ensures l == s + qw
  {
  }

  lemma DoubleProducts(q: nat, p: nat, x: nat, y: nat, w: nat)
    requires q == 2 * p
    ensures q * x == 2 * (p * x) && q * y == 2 * (p * y) && q * w == 2 * (p * w)
  {
  }

  lemma HalfSplit(a: nat, p: nat, px: nat)
    requires a < 2 * p
    ensures a / 2 < p && a + 2 * px == a % 2 + 2 * (a / 2 + px)
  {
  }

  /** & on the lowest bit and the rest separately. */
  lemma BitAndLowBit(a: nat, b: nat, x: nat, y: nat)
    requires a < 2 && b < 2
    ensures BitAnd(a + 2 * x, b + 2 * y) == BitAnd(a, b) + 2 * BitAnd(x, y)
  {
    if x == 0 || y == 0 {
      assert BitAnd(x, y) == 0;
    }
  }
}
