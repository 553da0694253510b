/** The helpers of pure_pynacl/tweetnacl.py, the Python port of TweetNaCl:
    the 32-bit rotate, the little- and big-endian loads and stores, the
    constant-time comparison, the Poly1305 limb addition, the key and scalar
    clamps and the Salsa20 block-counter step. Numbers follow the classes of
    PyNaclInt; on an LP64 platform u32 and u64 both keep 64 bits, so the
    32-bit properties are stated modulo 2^32. Buffers of u8 hold bytes. */
module TweetNacl {
  import opened Wrappers
  import opened Bytes
  import PyBits
  import PyValue
  import opened PyNaclInt

  const TWO32: nat := 0x1_0000_0000
  const TWO64: nat := 0x1_0000_0000_0000_0000

  /** u32(n) and u64(n) for a non-negative n: both classes keep 64 bits. */
  function Masked64(n: nat): nat
  {
    n % TWO64
  }

  lemma Masked64IsNew(n: nat)
    ensures New(U32, n) == Typed(U32, Masked64(n)) && New(U64, n) == Typed(U64, Masked64(n))
    ensures n < TWO64 ==> Masked64(n) == n
  {
  }

  lemma Masked64Small(n: nat)
    requires n < TWO64
    ensures Masked64(n) == n
  {
  }

  // ---------------------------------------------------------------- L32

  /** The 32-bit rotation to the left by c, written as the exchange of the
      low 32 - c bits and the high c bits of v. */
  function RotateLeft32(v: nat, c: nat): int
    requires c <= 32
  {
    (v % PyBits.Pow2(32 - c)) * PyBits.Pow2(c) + v / PyBits.Pow2(32 - c)
  }

  /** 2^(32 - c) * 2^c == 2^32. */
  lemma RotateFactors(c: nat)
    requires c <= 32
    ensures PyBits.Pow2(32 - c) * PyBits.Pow2(c) == TWO32
  {
    PyBits.Pow2Add(32 - c, c);
    PyBits.Pow2Of32();
  }

  /** With v = hi * p + lo below p * q, swapping the parts gives lo * q + hi,
      again below p * q, and swapping back gives v. */
  lemma SwapParts(v: int, p: int, q: int)
    requires 0 <= v < p * q && p > 0 && q > 0
    ensures v / p < q
    ensures var r := (v % p) * q + v / p; 0 <= r < p * q && r % q * p + r / q == v
  {
    var lo, hi := v % p, v / p;
    PyBits.DivBelow(v, p, q);
    SwapBound(lo, hi, p, q);
    DivModPair(lo * q + hi, q, lo, hi);
    assert v == p * hi + lo;
  }

  /** lo * q + hi with lo < p and hi < q lies below p * q. */
  lemma SwapBound(lo: int, hi: int, p: int, q: int)
    requires 0 <= lo < p && 0 <= hi < q
    ensures 0 <= lo * q + hi < p * q
  {
    PyBits.MulLe(lo, p - 1, q);
    PyBits.MulLe(0, lo, q);
    assert (p - 1) * q == p * q - q;
  }

  /** Rotating by c and then by 32 - c gives the number back, and a
      rotation stays below 2^32. */
  lemma RotateLeft32Inverse(v: nat, c: nat)
    requires v < TWO32 && c <= 32
    ensures 0 <= RotateLeft32(v, c) < TWO32
    ensures RotateLeft32(RotateLeft32(v, c), 32 - c) == v
  {
    var p, q := PyBits.Pow2(32 - c), PyBits.Pow2(c);
    RotateFactors(c);
    assert PyBits.Pow2(32 - (32 - c)) == q;
    hide PyBits.Pow2;
    SwapParts(v, p, q);
  }

  lemma ModBounds(a: nat, e: nat)
    requires e >= 1
    ensures 0 <= a % e < e
  {
  }

  /** a == d * q + r with 0 <= r < d fixes the quotient and the remainder. */
  lemma DivModPair(a: int, d: int, q: int, r: int)
    requires d > 0 && a == d * q + r && 0 <= r < d
    ensures a / d == q && a % d == r
  {
    var e := a / d - q;
    assert d * e == r - a % d;
    PyBits.MulSign(d, e);
  }

  /** L32(x, c): (u32(x) << c) | ((u32(x) & 0xFFFFFFFF) >> (32 - c)). The
      masked right operand is a plain int, so the result is a plain int; a
      negative shift count raises. */
  function L32(x: int, c: int): (r: Result<Num, PyValue.PyError>)
  {
    var ux := New(U32, x);
    var high :- Shift(LeftShift, ux, Plain(c));
    var masked :- BinOp(And, ux, Plain(PyBits.ALL_32_BITS));
    var low :- Shift(RightShift, masked, Plain(32 - c));
    BinOp(Or, high, low)
  }

  /** L32 raises exactly for a count outside 0..32 and otherwise returns a
      plain int whose low 32 bits are the rotation of the low 32 bits of
      u32(x). */
  lemma L32Rotates(x: int, c: int)
    ensures L32(x, c).Err? <==> c < 0 || c > 32
    ensures 0 <= c <= 32 ==>
              (L32(x, c).value.Plain? && L32(x, c).value.v % TWO32 == RotateLeft32(New(U32, x).v % TWO32, c))
  {
    if 0 <= c <= 32 {
      var p, q := PyBits.Pow2(32 - c), PyBits.Pow2(c);
      L32Value(x, c, p, q);
      L32Arith(New(U32, x).v, c, p, q);
    } else {
      L32Fails(x, c);
    }
  }

  lemma L32Fails(x: int, c: int)
    requires c < 0 || c > 32
    ensures L32(x, c).Err?
  {
    hide New, BinOp;
    var ux := New(U32, x);
    if c >= 0 {
      LeftShiftTyped(U32, ux.v, c);
    }
  }

  /** (v << c) | ((v & 0xFFFFFFFF) >> (32 - c)) with p = 2^(32 - c) and
      q = 2^c. */
  function OrParts(v: nat, p: nat, q: nat): nat
    requires p >= 1
  {
    PyBits.BitOr((v * q) % TWO64, (v % TWO32) / p)
  }

  /** The value L32 computes, with p = 2^(32 - c) and q = 2^c. */
  lemma L32Value(x: int, c: int, p: nat, q: nat)
    requires 0 <= c <= 32 && p == PyBits.Pow2(32 - c) && q == PyBits.Pow2(c)
    ensures var v := New(U32, x).v;
            v >= 0 && p >= 1 && L32(x, c) == Ok(Plain(OrParts(v, p, q)))
  {
    hide New, PyBits.Pow2, Shift, BinOp;
    var ux := New(U32, x);
    var v := ux.v;
    var high := Typed(U32, (v * q) % TWO64);
    var low := Plain((v % TWO32) / p);
    DivBounds(v % TWO32, p);
    LeftShiftTyped(U32, v, c);
    MaskLow32(v);
    RightShiftPlain(v % TWO32, 32 - c, p);
    OrPlain(high.v, low.v);
    assert Shift(LeftShift, ux, Plain(c)) == Ok(high);
  }

  /** A plain right shift is the floor division by the power of two. */
  lemma RightShiftPlain(a: nat, n: nat, p: nat)
    requires p == PyBits.Pow2(n)
    ensures Shift(RightShift, Plain(a), Plain(n)) == Ok(Plain(a / p))
  {
  }
  /** u32 & 0xFFFFFFFF is the plain low 32 bits. */
  lemma MaskLow32(v: nat)
    ensures BinOp(And, Typed(U32, v), Plain(PyBits.ALL_32_BITS)) == Ok(Plain(v % TWO32))
  {
    PyBits.AndLowBits(v, 32);
    PyBits.Pow2Of32();
  }

  /** u32 | a plain int is the plain or. */
  lemma OrPlain(h: nat, l: nat)
    ensures BinOp(Or, Typed(U32, h), Plain(l)) == Ok(Plain(PyBits.BitOr(h, l)))
  {
  }

  /** The low 32 bits of the or L32 computes are the rotation. */
  lemma L32Arith(v: nat, c: nat, p: nat, q: nat)
    requires c <= 32 && p == PyBits.Pow2(32 - c) && q == PyBits.Pow2(c)
    ensures p >= 1 && OrParts(v, p, q) % TWO32 == RotateLeft32(v % TWO32, c)
  {
    hide PyBits.Pow2, PyBits.BitOr;
    var e := PyBits.Pow2(64 - c);
    RotateConsts(c, p, q, e);
    var low := (v % TWO32) / p;
    var a := v % e;
    DivBounds(v % TWO32, p);
    ModBounds(v, e);
    PyBits.DivBelow(v % TWO32, p, q);
    PyBits.BitOrDisjoint(a, low, c);
    RotateArith(v, p, q, e, TWO32, TWO64, low);
  }

  /** The powers of two a rotation by c works with. */
  lemma RotateConsts(c: nat, p: nat, q: nat, e: nat)
    requires c <= 32 && p == PyBits.Pow2(32 - c) && q == PyBits.Pow2(c) && e == PyBits.Pow2(64 - c)
    ensures p >= 1 && q >= 1 && e >= 1
    ensures q * e == TWO64 && e == p * TWO32 && p * q == TWO32
  {
    RotateFactors(c);
    PyBits.Pow2Add(c, 64 - c);
    PyBits.Pow2Add(32 - c, 32);
    PyNaclInt.Pow2Values();
    PyBits.Pow2Of32();
  }

  /** The arithmetic of L32Arith with the powers of two as plain numbers
      (m = 2^32, w = 2^64): (v * q) % w is (v % e) * q, and its low 32 bits
      with low added are the rotation. */
  lemma RotateArith(v: nat, p: nat, q: nat, e: nat, m: nat, w: nat, low: nat)
    requires p > 0 && q > 0 && p * q == m && q * e == w && e == p * m
    requires low == (v % m) / p && low < q
    ensures (v * q) % w == (v % e) * q
    ensures ((v * q) % w + low) % m == (v % m % p) * q + (v % m) / p
  {
    var a := v % e;
    ScaledMod(v, q, e, w);
    assert (v * q) % w == q * a;
    ScaledModPlus(a, low, p, q, m);
    PyBits.ModOfMod(v, p, m);
    PyBits.ModOfMod(v, p, q);
    assert a % p == v % p;
    assert (v % m) % p == v % p;
  }

  lemma ScaledMod(v: nat, q: nat, e: nat, w: nat)
    requires q > 0 && e > 0 && q * e == w
    ensures (v * q) % w == q * (v % e)
  {
    PyBits.ModScaled(q, v, 0, e);
    assert v * q == q * v + 0;
  }

  lemma ScaledModPlus(a: nat, low: nat, p: nat, q: nat, m: nat)
    requires p > 0 && q > 0 && low < q && p * q == m
    ensures (q * a + low) % m == q * (a % p) + low
  {
    PyBits.ModScaled(q, a, low, p);
    assert q * p == m;
  }

  // ------------------------------------------------------ ld32 and st32

  /** (u << 8) | b for u a u32 or u64 and b a byte: the class keeps its 64
      bits. */
  function ShiftInByte(u: nat, b: byte): nat
  {
    Masked64(PyBits.BitOr(Masked64(u * 256), b))
  }

  /** Below 2^56 shifting a byte in is u * 256 + b. */
  lemma ShiftInByteValue(u: nat, b: byte)
    requires u < 0x100_0000_0000_0000
    ensures ShiftInByte(u, b) == u * 256 + b
  {
    hide PyBits.Pow2, PyBits.BitOr, Masked64;
    var w := u * 256;
    Pow2Of8();
    PyBits.BitOrDisjoint(u, b, 8);
    Masked64Small(w);
    Masked64Small(w + b);
  }
  lemma Pow2Of8()
    ensures PyBits.Pow2(8) == 256
  {
    assert PyBits.Pow2(4) == 16;
    PyBits.Pow2Add(4, 4);
  }

  /** ld32(x): the first four bytes, the last one loaded first. */
  function Ld32(x: seq<byte>): nat
    requires |x| >= 4
  {
    ShiftInByte(ShiftInByte(ShiftInByte(x[3], x[2]), x[1]), x[0])
  }

  /** ld32 reads the first four bytes as a little-endian number. */
  lemma Ld32IsLE(x: seq<byte>)
    requires |x| >= 4
    ensures Ld32(x) == LE(x[..4])
  {
    var b0, b1, b2, b3: int := x[0], x[1], x[2], x[3];
    ShiftInByteValue(b3, b2);
    ShiftInByteValue(b3 * 256 + b2, b1);
    ShiftInByteValue((b3 * 256 + b2) * 256 + b1, b0);
    var s := x[..4];
    assert s[1..][1..][1..][1..] == [];
    assert LE(s[1..][1..][1..]) == b3;
    assert LE(s[1..][1..]) == b2 + 256 * b3;
    assert LE(s[1..]) == b1 + 256 * (b2 + 256 * b3);
    hide ShiftInByte;
  }

  /** st32(x, u): the four low bytes of u, least significant first; the
      rest of x is left alone. */
  method St32(x: array<byte>, u: nat)
    requires x.Length >= 4
    modifies x
    ensures x[..4] == ToLE(u, 4)
    ensures x[4..] == old(x[4..])
  {
    var w := u;
    for i := 0 to 4
      invariant x[..i] + ToLE(w, 4 - i) == ToLE(u, 4)
      invariant x[4..] == old(x[4..])
    {
      assert ToLE(w, 4 - i) == [w % 256] + ToLE(w / 256, 3 - i);
      x[i] := w % 256;
      w := w / 256;
      assert x[..i + 1] == x[..i] + [x[i]];
    }
  }

  /** Decoding the k low bytes of any n gives n modulo 256^k. */
  lemma {:induction false} LEOfToLEMod(n: nat, k: nat)
    ensures LE(ToLE(n, k)) == n % Pow256(k)
  {
    if k > 0 {
      LEOfToLEMod(n / 256, k - 1);
      assert ToLE(n, k)[1..] == ToLE(n / 256, k - 1);
      PyBits.ModScaled(256, n / 256, n % 256, Pow256(k - 1));
    }
  }

  lemma Pow256Values()
    ensures Pow256(4) == TWO32 && Pow256(7) == 0x100_0000_0000_0000 && Pow256(8) == TWO64
  {
    assert Pow256(4) == TWO32;
    assert Pow256(8) == 256 * Pow256(7);
  }

  /** ld32 after st32 gives u modulo 2^32. */
  lemma Ld32OfSt32(u: nat)
    ensures Ld32(ToLE(u, 4)) == u % TWO32
  {
    Ld32IsLE(ToLE(u, 4));
    assert ToLE(u, 4)[..4] == ToLE(u, 4);
    LEOfToLEMod(u, 4);
    Pow256Values();
  }

  // ------------------------------------------------------ dl64 and ts64

  /** The k low bytes of n, most significant first. */
  function ToBE(n: nat, k: nat): (r: seq<byte>)
    ensures |r| == k
  {
    if k == 0 then [] else ToBE(n / 256, k - 1) + [n % 256]
  }

  lemma {:induction false} BEBound(s: seq<byte>)
    ensures BE(s) < Pow256(|s|)
  {
    if s != [] {
      BEBound(s[..|s| - 1]);
    }
  }

  /** Decoding the k low bytes of n, most significant first, gives n
      modulo 256^k. */
  lemma {:induction false} BEOfToBE(n: nat, k: nat)
    ensures BE(ToBE(n, k)) == n % Pow256(k)
  {
    hide BE, ToBE, Pow256;
    Pow256Cons(k);
    if k > 0 {
      BEOfToBE(n / 256, k - 1);
      var s := ToBE(n, k);
      ToBECons(n, k);
      assert s[..k - 1] == ToBE(n / 256, k - 1) && s[k - 1] == n % 256;
      BESnoc(s);
      PyBits.ModScaled(256, n / 256, n % 256, Pow256(k - 1));
      assert n == 256 * (n / 256) + n % 256;
    } else {
      BESnoc([]);
    }
  }

  lemma ToBECons(n: nat, k: nat)
    requires k > 0
    ensures ToBE(n, k) == ToBE(n / 256, k - 1) + [n % 256]
  {
  }

  lemma BESnoc(s: seq<byte>)
    ensures s == [] ==> BE(s) == 0
    ensures s != [] ==> BE(s) == 256 * BE(s[..|s| - 1]) + s[|s| - 1]
  {
  }

  lemma Pow256Cons(k: nat)
    ensures k == 0 ==> Pow256(k) == 1
    ensures k > 0 ==> Pow256(k) == 256 * Pow256(k - 1)
  {
  }

  /** dl64(x): the first eight bytes shifted into a u64, most significant
      first. */
  method Dl64(x: seq<byte>) returns (u: nat)
    requires |x| >= 8
    ensures u == BE(x[..8])
  {
    u := 0;
    Pow256Values();
    for i := 0 to 8
      invariant u == BE(x[..i])
    {
      BEBound(x[..i]);
      assert Pow256(i) <= Pow256(7) by {
        Pow256Mono(i, 7);
      }
      ShiftInByteValue(u, x[i]);
      u := ShiftInByte(u, x[i]);
      assert x[..i + 1][..i] == x[..i];
    }
  }

  lemma {:induction false} Pow256Mono(i: nat, j: nat)
    requires i <= j
    ensures Pow256(i) <= Pow256(j)
  {
    if i < j {
      Pow256Mono(i, j - 1);
    }
  }

  /** ts64(x, u): the eight low bytes of u, most significant first; the
      rest of x is left alone. */
  method Ts64(x: array<byte>, u: nat)
    requires x.Length >= 8
    modifies x
    ensures x[..8] == ToBE(u, 8)
    ensures x[8..] == old(x[8..])
  {
    var w := u;
    var i := 8;
    while i > 0
      invariant 0 <= i <= 8
      invariant ToBE(w, i) + x[i..8] == ToBE(u, 8)
      invariant x[8..] == old(x[8..])
    {
      assert ToBE(w, i) == ToBE(w / 256, i - 1) + [w % 256];
      x[i - 1] := w % 256;
      w := w / 256;
      i := i - 1;
      assert x[i..8] == [x[i]] + x[i + 1..8];
    }
  }

  /** dl64 after ts64 gives u modulo 2^64. */
  method Ts64ThenDl64(u: nat) returns (r: nat)
    ensures r == u % TWO64
  {
    var x := new byte[8];
    Ts64(x, u);
    r := Dl64(x[..]);
    assert x[..][..8] == ToBE(u, 8);
    BEOfToBE(u, 8);
    Pow256Values();
  }

  // ------------------------------------------------- vn, crypto_verify

  lemma {:induction false} XorBitsSame(a: nat, k: nat)
    ensures XorBits(a, a, k) == 0
  {
    if k > 0 {
      XorBitsSame(a / 2, k - 1);
    }
  }

  lemma {:induction false} XorBitsZero(b: nat, k: nat)
    requires b < Bytes.Pow2(k)
    ensures XorBits(0, b, k) == b
  {
    if k > 0 {
      XorBitsZero(b / 2, k - 1);
    }
  }

  /** x ^ y is zero exactly when the bytes are equal. */
  lemma XorZero(x: byte, y: byte)
    ensures Bytes.Xor(x, y) == 0 <==> x == y
  {
    XorBitsSame(x, 8);
    assert Bytes.Pow2(8) == 256;
    if Bytes.Xor(x, y) == 0 {
      XorTwice(x, y);
      XorBitsZero(y, 8);
    }
  }

  /** (1 & ((d - 1) >> 8)) - 1 on plain ints. */
  function VnResult(d: int): int
  {
    PyBits.IntAnd(1, (d - 1) / 256) - 1
  }

  /** For a byte d the result is 0 when d is 0 and -1 otherwise. */
  lemma VnResultOfByte(d: nat)
    requires d < 256
    ensures VnResult(d) == if d == 0 then 0 else -1
  {
  }

  /** vn(x, y, n): or together the exclusive ors of the first n byte pairs,
      then map 0 to 0 and anything else to -1 without a branch. */
  method Vn(x: seq<byte>, y: seq<byte>, n: nat) returns (r: int)
    requires |x| >= n && |y| >= n
    ensures r == 0 <==> x[..n] == y[..n]
    ensures r == 0 || r == -1
  {
    var d: nat := 0;
    for i := 0 to n
      invariant d < 256
      invariant d == 0 <==> x[..i] == y[..i]
    {
      VnStep(d, x[i], y[i]);
      PrefixEqStep(x, y, i);
      hide PyBits.BitOr, Masked64, Bytes.Xor;
      d := Masked64(PyBits.BitOr(d, Bytes.Xor(x[i], y[i])));
    }
    VnResultOfByte(d);
    r := VnResult(d);
  }

  /** One step of vn: or-ing in x ^ y keeps d a byte, and d stays zero
      exactly when it was zero and x == y. */
  lemma VnStep(d: nat, x: byte, y: byte)
    requires d < 256
    ensures var d2 := Masked64(PyBits.BitOr(d, Bytes.Xor(x, y)));
      d2 < 256 && (d2 == 0 <==> d == 0 && x == y)
  {
    var e := Bytes.Xor(x, y);
    PyNaclInt.Pow2Values();
    XorZero(x, y);
    PyBits.BitOrZero(d, e);
    PyBits.BitOrXorBound(d, e, 8);
    Masked64Small(PyBits.BitOr(d, e));
  }

  /** Two prefixes one longer agree exactly when the shorter ones agree
      and so do the next elements. */
  lemma PrefixEqStep<T>(x: seq<T>, y: seq<T>, i: nat)
    requires i < |x| && i < |y|
    ensures x[..i + 1] == y[..i + 1] <==> x[..i] == y[..i] && x[i] == y[i]
  {
    assert x[..i + 1] == x[..i] + [x[i]] && y[..i + 1] == y[..i] + [y[i]];
    if x[..i + 1] == y[..i + 1] {
      assert x[..i + 1][i] == y[..i + 1][i] && x[..i + 1][..i] == y[..i + 1][..i];
    }
  }

  /** crypto_verify_16: 0 when the first 16 bytes agree, else -1. */
  method CryptoVerify16(x: seq<byte>, y: seq<byte>) returns (r: int)
    requires |x| >= 16 && |y| >= 16
    ensures r == 0 <==> x[..16] == y[..16]
    ensures r == 0 || r == -1
  {
    r := Vn(x, y, 16);
  }

  /** crypto_verify_32: 0 when the first 32 bytes agree, else -1. */
  method CryptoVerify32(x: seq<byte>, y: seq<byte>) returns (r: int)
    requires |x| >= 32 && |y| >= 32
    ensures r == 0 <==> x[..32] == y[..32]
    ensures r == 0 || r == -1
  {
    r := Vn(x, y, 32);
  }

  // ------------------------------------------------------------ add1305

  /** The number held by limbs of 8 bits each, least significant first
      (a limb may hold more than 8 bits). */
  function Limbs(s: seq<nat>): nat
  {
    if s == [] then 0 else s[0] + 256 * Limbs(s[1..])
  }

  /** The limbs add1305 leaves in h: each step adds u32(h[j] + c[j]) to the
      running u32 carry u, keeps u & 255 and shifts u right by 8. */
  function AddLimbs(h: seq<nat>, c: seq<nat>, u: nat): (r: seq<nat>)
    requires |h| <= |c|
    ensures |r| == |h|
  {
    if h == [] then []
    else
      var v := Masked64(u + Masked64(h[0] + c[0]));
      [v % 256] + AddLimbs(h[1..], c[1..], v / 256)
  }

  /** Every limb add1305 leaves is a byte. */
  lemma {:induction false} AddLimbsBytes(h: seq<nat>, c: seq<nat>, u: nat)
    requires |h| <= |c|
    ensures forall j :: 0 <= j < |h| ==> AddLimbs(h, c, u)[j] < 256
  {
    if h != [] {
      var v := Masked64(u + Masked64(h[0] + c[0]));
      AddLimbsBytes(h[1..], c[1..], v / 256);
      assert forall j :: 1 <= j < |h| ==> AddLimbs(h, c, u)[j] == AddLimbs(h[1..], c[1..], v / 256)[j - 1];
    }
  }

  /** With limbs below 2^32 nothing wraps at 64 bits, and add1305 adds the
      numbers modulo 256^|h|, the carry out of the top limb dropped. */
  lemma {:induction false} AddLimbsSum(h: seq<nat>, c: seq<nat>, u: nat)
    requires |h| == |c| && u < 0x2_0000_0000
    requires forall j :: 0 <= j < |h| ==> h[j] < TWO32 && c[j] < TWO32
    ensures Limbs(AddLimbs(h, c, u)) == (Limbs(h) + Limbs(c) + u) % Pow256(|h|)
  {
    if h != [] {
      var v := u + h[0] + c[0];
      assert Masked64(u + Masked64(h[0] + c[0])) == v;
      var rest := Limbs(h[1..]) + Limbs(c[1..]);
      AddLimbsSum(h[1..], c[1..], v / 256);
      PyBits.ModScaled(256, rest + v / 256, v % 256, Pow256(|h| - 1));
      assert 256 * (rest + v / 256) + v % 256 == Limbs(h) + Limbs(c) + u;
    }
  }

  lemma AddLimbsCons(h: seq<nat>, c: seq<nat>, u: nat)
    requires h != [] && |h| <= |c|
    ensures AddLimbs(h, c, u) == [Masked64(u + Masked64(h[0] + c[0])) % 256] + AddLimbs(h[1..], c[1..], Masked64(u + Masked64(h[0] + c[0])) / 256)
  {
  }

  /** add1305(h, c) on the 17 limbs of h. */
  method Add1305(h: array<nat>, c: seq<nat>)
    requires h.Length >= 17 && |c| >= 17
    modifies h
    ensures h[..17] == AddLimbs(old(h[..17]), c, 0)
    ensures h[17..] == old(h[17..])
  {
    hide AddLimbs, Masked64;
    var u: nat := 0;
    ghost var h0 := h[..17];
    ghost var rest := h[17..];
    ghost var done: seq<nat> := [];
    assert h0[0..] == h0 && c[0..] == c;
    for j := 0 to 17
      invariant done + AddLimbs(h0[j..], c[j..], u) == AddLimbs(h0, c, 0)
      invariant h[..] == done + h0[j..] + rest
    {
      StoreStep(h[..], done, h0, rest, j, h[j]);
      var v := Masked64(u + Masked64(h[j] + c[j]));
      AddLimbsStep(h0, c, j, u, done);
      StoreStep(h[..], done, h0, rest, j, v % 256);
      h[j] := v % 256;
      done := done + [v % 256];
      u := v / 256;
    }
    assert h[..] == h[..17] + h[17..];
  }

  /** One iteration of add1305 against AddLimbs. */
  lemma AddLimbsStep(h0: seq<nat>, c: seq<nat>, j: nat, u: nat, done: seq<nat>)
    requires j < |h0| <= |c| && done + AddLimbs(h0[j..], c[j..], u) == AddLimbs(h0, c, 0)
    ensures var v := Masked64(u + Masked64(h0[j] + c[j]));
      (done + [v % 256]) + AddLimbs(h0[j + 1..], c[j + 1..], v / 256) == AddLimbs(h0, c, 0)
  {
    hide AddLimbs, Masked64;
    AddLimbsCons(h0[j..], c[j..], u);
    assert h0[j..][1..] == h0[j + 1..] && c[j..][1..] == c[j + 1..];
    assert h0[j..][0] == h0[j] && c[j..][0] == c[j];
  }


  // ------------------------------------------------------------- clamps

  /** The bytes & with the key's first 16 bytes when Poly1305 clamps r:
      bytes 3, 7, 11 and 15 keep their low four bits, bytes 4, 8 and 12
      lose their low two bits. */
  const POLY1305_CLAMP: seq<byte> :=
    [255, 255, 255, 15, 252, 255, 255, 15, 252, 255, 255, 15, 252, 255, 255, 15]

  /** a & b byte by byte. */
  function AndBytes(a: seq<byte>, b: seq<byte>): (r: seq<byte>)
    requires |a| == |b|
    ensures |r| == |a|
    ensures forall i :: 0 <= i < |a| ==> r[i] == PyBits.BitAnd(a[i], b[i])
  {
    if a == [] then []
    else
      PyBits.BitAndAtMost(a[0], b[0]);
      [PyBits.BitAnd(a[0], b[0]) as byte] + AndBytes(a[1..], b[1..])
  }

  /** Byte-wise & of two little-endian numbers is the & of the numbers. */
  lemma {:induction false} AndBytesLE(a: seq<byte>, b: seq<byte>)
    requires |a| == |b|
    ensures LE(AndBytes(a, b)) == PyBits.BitAnd(LE(a), LE(b))
  {
    if a != [] {
      hide AndBytes, LE, PyBits.BitAnd;
      AndBytesLE(a[1..], b[1..]);
      AndBytesCons(a, b);
      AndSplitByte(a[0], b[0], LE(a[1..]), LE(b[1..]));
    }
  }

  /** & of two numbers split into a low byte and the rest. */
  lemma AndSplitByte(a: byte, b: byte, x: nat, y: nat)
    ensures PyBits.BitAnd(a + 256 * x, b + 256 * y) == PyBits.BitAnd(a, b) + 256 * PyBits.BitAnd(x, y)
  {
    hide PyBits.BitAnd;
    PyNaclInt.Pow2Values();
    PyBits.BitAndSplit(a, b, x, y, 8, 256);
  }

  /** One byte of AndBytes, then the rest, as little-endian numbers. */
  lemma AndBytesCons(a: seq<byte>, b: seq<byte>)
    requires |a| == |b| && a != []
    ensures LE(a) == a[0] + 256 * LE(a[1..]) && LE(b) == b[0] + 256 * LE(b[1..])
    ensures LE(AndBytes(a, b)) == PyBits.BitAnd(a[0], b[0]) + 256 * LE(AndBytes(a[1..], b[1..]))
  {
    assert AndBytes(a, b)[1..] == AndBytes(a[1..], b[1..]);
  }

  /** The Poly1305 multiplier r: the first 16 key bytes in 17 u32 limbs,
      clamped byte by byte, the top limb zero. */
  method ClampPoly1305Key(k: seq<byte>) returns (r: array<nat>)
    requires |k| >= 16
    ensures fresh(r) && r.Length == 17
    ensures r[..16] == AndBytes(k[..16], POLY1305_CLAMP) && r[16] == 0
  {
    hide PyBits.BitAnd, AndBytes;
    r := new nat[17](_ => 0);
    for j := 0 to 16
      invariant r[..j] == k[..j] && r[16] == 0
    {
      r[j] := k[j];
      assert r[..j + 1] == r[..j] + [k[j]] && k[..j + 1] == k[..j] + [k[j]];
    }
    ghost var r1: seq<nat> := r[..];
    assert r1 == k[..16] + [0];
    r[3] := PyBits.BitAnd(r[3], 15);
    r[4] := PyBits.BitAnd(r[4], 252);
    r[7] := PyBits.BitAnd(r[7], 15);
    r[8] := PyBits.BitAnd(r[8], 252);
    r[11] := PyBits.BitAnd(r[11], 15);
    r[12] := PyBits.BitAnd(r[12], 252);
    r[15] := PyBits.BitAnd(r[15], 15);
    assert r[..] == r1[3 := r[3]][4 := r[4]][7 := r[7]][8 := r[8]][11 := r[11]][12 := r[12]][15 := r[15]];
    ClampedBytes(k[..16], r[..16]);
  }

  /** Bytes that agree with the key where the mask is 255 and hold the &
      elsewhere are the clamped key. */
  lemma ClampedBytes(k: seq<byte>, r: seq<nat>)
    requires |k| == 16 && |r| == 16
    requires r[3] == PyBits.BitAnd(k[3], 15) && r[7] == PyBits.BitAnd(k[7], 15)
    requires r[11] == PyBits.BitAnd(k[11], 15) && r[15] == PyBits.BitAnd(k[15], 15)
    requires r[4] == PyBits.BitAnd(k[4], 252) && r[8] == PyBits.BitAnd(k[8], 252)
    requires r[12] == PyBits.BitAnd(k[12], 252)
    requires forall i | 0 <= i < 16 && i !in {3, 4, 7, 8, 11, 12, 15} :: r[i] == k[i]
    ensures r == AndBytes(k, POLY1305_CLAMP)
  {
    var c := AndBytes(k, POLY1305_CLAMP);
    forall i | 0 <= i < 16
      ensures r[i] == c[i]
    {
      if i !in {3, 4, 7, 8, 11, 12, 15} {
        ByteAnd255(k[i]);
      }
    }
  }

  /** & 255 keeps a byte. */
  lemma ByteAnd255(b: byte)
    ensures PyBits.BitAnd(b, 255) == b
  {
    hide PyBits.Pow2, PyBits.BitAnd;
    Pow2Of8();
    PyBits.AndLowBits(b, 8);
  }
  /** The clamp mask read little-endian. */
  lemma ClampMaskValue()
    ensures LE(POLY1305_CLAMP) == 0x0fff_fffc_0fff_fffc_0fff_fffc_0fff_ffff
  {
    assert LE([15]) == 0xf;
    assert LE([255, 15]) == 0xfff;
    assert LE([255, 255, 15]) == 0xfffff;
    assert LE([252, 255, 255, 15]) == 0xffffffc;
    assert LE([15, 252, 255, 255, 15]) == 0xffffffc0f;
    assert LE([255, 15, 252, 255, 255, 15]) == 0xffffffc0fff;
    assert LE([255, 255, 15, 252, 255, 255, 15]) == 0xffffffc0fffff;
    assert LE([252, 255, 255, 15, 252, 255, 255, 15]) == 0xffffffc0ffffffc;
    assert LE([15, 252, 255, 255, 15, 252, 255, 255, 15]) == 0xffffffc0ffffffc0f;
    assert LE([255, 15, 252, 255, 255, 15, 252, 255, 255, 15]) == 0xffffffc0ffffffc0fff;
    assert LE([255, 255, 15, 252, 255, 255, 15, 252, 255, 255, 15]) == 0xffffffc0ffffffc0fffff;
    assert LE([252, 255, 255, 15, 252, 255, 255, 15, 252, 255, 255, 15]) == 0xffffffc0ffffffc0ffffffc;
    assert LE([15, 252, 255, 255, 15, 252, 255, 255, 15, 252, 255, 255, 15]) == 0xffffffc0ffffffc0ffffffc0f;
    assert LE([255, 15, 252, 255, 255, 15, 252, 255, 255, 15, 252, 255, 255, 15]) == 0xffffffc0ffffffc0ffffffc0fff;
    assert LE([255, 255, 15, 252, 255, 255, 15, 252, 255, 255, 15, 252, 255, 255, 15]) == 0xffffffc0ffffffc0ffffffc0fffff;
    assert LE([255, 255, 255, 15, 252, 255, 255, 15, 252, 255, 255, 15, 252, 255, 255, 15]) == 0xffffffc0ffffffc0ffffffc0fffffff;
  }

  /** The clamp is r &= 0x0ffffffc0ffffffc0ffffffc0fffffff on the key's
      first 16 bytes read little-endian, as section 2.5.1 of RFC 8439
      states it. */
  lemma ClampIsRfc8439(k: seq<byte>)
    requires |k| >= 16
    ensures LE(AndBytes(k[..16], POLY1305_CLAMP)) == PyBits.BitAnd(LE(k[..16]), 0x0fff_fffc_0fff_fffc_0fff_fffc_0fff_ffff)
  {
    AndBytesLE(k[..16], POLY1305_CLAMP);
    ClampMaskValue();
  }

  /** The X25519 scalar z as crypto_scalarmult builds it from n: bytes 0 to
      30 copied, z[31] = (n[31] & 127) | 64, then z[0] &= 248. */
  function ClampedScalar(n: seq<byte>): (z: seq<byte>)
    requires |n| >= 32
    ensures |z| == 32
  {
    ScalarEnds(n[0], n[31]);
    [PyBits.BitAnd(n[0], 248) as byte] + n[1..31] + [PyBits.BitOr(PyBits.BitAnd(n[31], 127), 64) as byte]
  }

  lemma ClampedScalarParts(n: seq<byte>)
    requires |n| >= 32
    ensures PyBits.BitAnd(n[0], 248) < 256 && PyBits.BitOr(PyBits.BitAnd(n[31], 127), 64) < 256
    ensures ClampedScalar(n) ==
      [PyBits.BitAnd(n[0], 248) as byte] + n[1..31] + [PyBits.BitOr(PyBits.BitAnd(n[31], 127), 64) as byte]
  {
    ScalarEnds(n[0], n[31]);
  }

  /** The clamped end bytes: n0 & 248 is a multiple of 8 and a byte, and
      (n31 & 127) | 64 lies in 64..127. */
  lemma ScalarEnds(n0: byte, n31: byte)
    ensures PyBits.BitAnd(n0, 248) < 256 && PyBits.BitAnd(n0, 248) % 8 == 0
    ensures 64 <= PyBits.BitOr(PyBits.BitAnd(n31, 127), 64) < 128
  {
    ScalarLowEnd(n0);
    ScalarHighEnd(n31);
  }

  lemma ScalarLowEnd(n0: byte)
    ensures PyBits.BitAnd(n0, 248) < 256 && PyBits.BitAnd(n0, 248) % 8 == 0
  {
    assert PyBits.Pow2(3) == 8;
    assert PyBits.BitAnd(0, 0) == 0;
    hide PyBits.BitAnd, PyBits.Pow2;
    PyBits.BitAndAtMost(n0, 248);
    assert n0 == n0 % 8 + 8 * (n0 / 8) && 248 == 0 + 8 * 31;
    PyBits.BitAndSplit(n0 % 8, 0, n0 / 8, 31, 3, 8);
  }

  lemma ScalarHighEnd(n31: byte)
    ensures 64 <= PyBits.BitOr(PyBits.BitAnd(n31, 127), 64) < 128
  {
    assert PyBits.Pow2(7) == 128;
    hide PyBits.BitAnd, PyBits.BitOr, PyBits.Pow2;
    var t := PyBits.BitAnd(n31, 127);
    PyBits.BitAndAtMost(n31, 127);
    PyBits.BitOrAtLeast(t, 64);
    PyBits.BitOrXorBound(t, 64, 7);
  }

  /** The scalar clamp of crypto_scalarmult_curve25519. */
  method ClampScalar(n: seq<byte>) returns (z: array<byte>)
    requires |n| >= 32
    ensures fresh(z) && z[..] == ClampedScalar(n)
  {
    hide PyBits.BitAnd, PyBits.BitOr, ClampedScalar;
    ScalarEnds(n[0], n[31]);
    var lo: byte, hi: byte := PyBits.BitAnd(n[0], 248), PyBits.BitOr(PyBits.BitAnd(n[31], 127), 64);
    ClampedScalarParts(n);
    z := new byte[32](_ => 0);
    for i := 0 to 31
      invariant z[..i] == n[..i]
    {
      z[i] := n[i];
      assert z[..i + 1] == z[..i] + [n[i]] && n[..i + 1] == n[..i] + [n[i]];
    }
    ghost var z1: seq<byte> := z[..];
    z[31] := PyBits.BitOr(PyBits.BitAnd(n[31], 127), 64);
    z[0] := PyBits.BitAnd(z[0], 248);
    assert z[..] == z1[31 := hi][0 := lo];
    assert z1[..31] == n[..31];
    assert z[..] == [lo] + n[1..31] + [hi];
  }

  /** The clamped scalar is the one section 5 of RFC 7748 decodes: a
      multiple of the cofactor 8 with bit 254 set and bit 255 clear, so
      2^254 <= z < 2^255. */
  lemma ClampedScalarRange(n: seq<byte>)
    requires |n| >= 32
    ensures LE(ClampedScalar(n)) % 8 == 0
    ensures 64 * Pow256(31) <= LE(ClampedScalar(n)) < 128 * Pow256(31)
  {
    var z := ClampedScalar(n);
    ScalarEnds(n[0], n[31]);
    hide Pow256, LE, ClampedScalar, PyBits.BitAnd, PyBits.BitOr;
    ClampedScalarEnds(n, z);
    ScalarRangeOf(z);
  }

  lemma ClampedScalarEnds(n: seq<byte>, z: seq<byte>)
    requires |n| >= 32 && z == ClampedScalar(n)
    ensures z[0] % 8 == 0 && 64 <= z[31] < 128
  {
    ScalarEnds(n[0], n[31]);
  }

  lemma ScalarRangeOf(z: seq<byte>)
    requires |z| == 32 && z[0] % 8 == 0 && 64 <= z[31] < 128
    ensures LE(z) % 8 == 0
    ensures 64 * Pow256(31) <= LE(z) < 128 * Pow256(31)
  {
    hide Pow256, LE;
    LEEnds(z);
    LEBound(z[..31]);
    Pow256Top();
    var low, top, P := LE(z[..31]), z[31], Pow256(31);
    EightDivides(z[0], LE(z[1..31]), low);
    ScalarSum(low, top, P, 32 * Pow256(30));
  }

  lemma Pow256Top()
    ensures Pow256(31) == 8 * (32 * Pow256(30))
  {
  }

  /** A 32-byte string read little-endian: its first byte, the middle 30
      bytes and its top byte. */
  lemma LEEnds(z: seq<byte>)
    requires |z| == 32
    ensures LE(z) == LE(z[..31]) + Pow256(31) * z[31]
    ensures LE(z[..31]) == z[0] + 256 * LE(z[1..31])
  {
    assert z == z[..31] + [z[31]];
    LEAppend(z[..31], [z[31]]);
    assert z[..31][1..] == z[1..31];
    assert LE([z[31]]) == z[31];
  }

  lemma EightDivides(z0: int, m: int, low: int)
    requires low == z0 + 256 * m && z0 % 8 == 0
    ensures low % 8 == 0
  {
    assert low == z0 + 8 * (32 * m);
  }

  lemma ScalarSum(low: int, t: int, P: int, r: int)
    requires low % 8 == 0 && 0 <= low < P && P == 8 * r && 64 <= t < 128
    ensures (low + P * t) % 8 == 0
    ensures 64 * P <= low + P * t < 128 * P
  {
    var k := r * t;
    assert P * t == 8 * k;
    assert low + P * t == 8 * (low / 8 + k);
    PyBits.MulLe(64, t, P);
    PyBits.MulLe(t, 127, P);
  }

  // ------------------------------------------------- Salsa20 counter step

  /** The counter step of crypto_stream_salsa20_xor as TweetNaCl's C code
      does it on the u8 counter bytes z[8..16]: add the carry u, keep the
      low byte, carry the rest. */
  function CounterBytes(s: seq<byte>, u: nat): (r: seq<byte>)
    ensures |r| == |s|
  {
    if s == [] then []
    else
      var v := u + s[0];
      [v % 256] + CounterBytes(s[1..], v / 256)
  }

  /** The little-endian counter advances by the carry: the step adds one
      to the block number modulo 2^64. */
  lemma {:induction false} CounterBytesAdds(j: nat, k: nat, u: nat)
    ensures CounterBytes(ToLE(j, k), u) == ToLE(j + u, k)
  {
    if k > 0 {
      var v := u + j % 256;
      CounterBytesAdds(j / 256, k - 1, v / 256);
      assert (j + u) / 256 == j / 256 + v / 256 && (j + u) % 256 == v % 256;
    }
  }

  /** Every counter the corrected step produces is again eight bytes, and
      the block number it encodes is the old one plus one. */
  lemma CounterStepIncrements(j: nat)
    ensures CounterBytes(ToLE(j, 8), 1) == ToLE(j + 1, 8)
    ensures LE(CounterBytes(ToLE(j, 8), 1)) == (j + 1) % TWO64
  {
    CounterBytesAdds(j, 8, 1);
    LEOfToLEMod(j + 1, 8);
    Pow256Values();
  }

  /** The counter step as tweetnacl.py writes it: u is a u32 (64 bits
      wide) and z[i] = u stores it without truncation, since an IntArray
      does not convert what is stored in it. */
  function CounterBytesAsWritten(s: seq<nat>, u: nat): (r: seq<nat>)
    ensures |r| == |s|
  {
    if s == [] then []
    else
      var v := Masked64(u + Masked64(s[0]));
      [v] + CounterBytesAsWritten(s[1..], v / 256)
  }

  /** One step of either counter function, as a fact the loops can use
      with the definitions hidden. */
  lemma CounterBytesCons(s: seq<byte>, u: nat)
    requires s != []
    ensures CounterBytes(s, u) == [(u + s[0]) % 256] + CounterBytes(s[1..], (u + s[0]) / 256)
  {
  }

  lemma CounterAsWrittenCons(s: seq<nat>, u: nat)
    requires s != []
    ensures CounterBytesAsWritten(s, u) == [Masked64(u + Masked64(s[0]))] + CounterBytesAsWritten(s[1..], Masked64(u + Masked64(s[0])) / 256)
  {
  }

  /** A zero carry through zero bytes changes nothing, in both versions. */
  lemma {:induction false} CounterZeros(n: nat)
    ensures CounterBytes(Zeros(n), 0) == Zeros(n)
    ensures CounterBytesAsWritten(Zeros(n), 0) == Zeros(n)
  {
    if n > 0 {
      assert Zeros(n)[1..] == Zeros(n - 1);
      CounterZeros(n - 1);
    }
  }

  /** After 256 blocks the counter bytes differ: the step from block 255
      leaves 256 in z[8] where TweetNaCl leaves 0, and the next step gives
      the input [257, 2, ...] where block 257 is [1, 1, ...]. */
  lemma CounterAsWrittenDiverges()
    ensures CounterBytes([255, 0, 0, 0, 0, 0, 0, 0], 1) == [0, 1, 0, 0, 0, 0, 0, 0]
    ensures CounterBytesAsWritten([255, 0, 0, 0, 0, 0, 0, 0], 1) == [256, 1, 0, 0, 0, 0, 0, 0]
    ensures CounterBytesAsWritten([256, 1, 0, 0, 0, 0, 0, 0], 1) == [257, 2, 0, 0, 0, 0, 0, 0]
    ensures CounterBytes([0, 1, 0, 0, 0, 0, 0, 0], 1) == [1, 1, 0, 0, 0, 0, 0, 0]
  {
    CounterFrom255();
    CounterFrom256();
    AsWrittenFrom255();
    AsWrittenFrom256();
  }

  lemma CounterFrom255()
    ensures CounterBytes([255, 0, 0, 0, 0, 0, 0, 0], 1) == [0, 1, 0, 0, 0, 0, 0, 0]
  {
    hide CounterBytes, Zeros;
    ZerosSix();
    CounterZeros(6);
    CounterTwoBytes(255, 0, 1, Zeros(6));
    assert [255, 0] + Zeros(6) == [255, 0, 0, 0, 0, 0, 0, 0];
    assert [0, 1] + Zeros(6) == [0, 1, 0, 0, 0, 0, 0, 0];
  }

  lemma CounterFrom256()
    ensures CounterBytes([0, 1, 0, 0, 0, 0, 0, 0], 1) == [1, 1, 0, 0, 0, 0, 0, 0]
  {
    hide CounterBytes, Zeros;
    ZerosSix();
    CounterZeros(6);
    CounterTwoBytes(0, 1, 1, Zeros(6));
    assert [0, 1] + Zeros(6) == [0, 1, 0, 0, 0, 0, 0, 0];
    assert [1, 1] + Zeros(6) == [1, 1, 0, 0, 0, 0, 0, 0];
  }

  lemma AsWrittenFrom255()
    ensures CounterBytesAsWritten([255, 0, 0, 0, 0, 0, 0, 0], 1) == [256, 1, 0, 0, 0, 0, 0, 0]
  {
    hide CounterBytesAsWritten, Zeros;
    ZerosSix();
    CounterZeros(6);
    var z6: seq<nat> := Zeros(6);
    CounterTwoAsWritten(255, 0, 1, z6);
    assert [255, 0] + z6 == [255, 0, 0, 0, 0, 0, 0, 0];
    assert [256, 1] + z6 == [256, 1, 0, 0, 0, 0, 0, 0];
  }

  lemma AsWrittenFrom256()
    ensures CounterBytesAsWritten([256, 1, 0, 0, 0, 0, 0, 0], 1) == [257, 2, 0, 0, 0, 0, 0, 0]
  {
    hide CounterBytesAsWritten, Zeros;
    ZerosSix();
    CounterZeros(6);
    var z6: seq<nat> := Zeros(6);
    CounterTwoAsWritten(256, 1, 1, z6);
    assert [256, 1] + z6 == [256, 1, 0, 0, 0, 0, 0, 0];
    assert [257, 2] + z6 == [257, 2, 0, 0, 0, 0, 0, 0];
  }

  lemma ZerosSix()
    ensures Zeros(6) == [0, 0, 0, 0, 0, 0]
  {
  }

  /** The step on two bytes followed by bytes the step leaves alone
      without a carry, with no carry out of the second. */
  lemma CounterTwoBytes(a: byte, b: byte, u: nat, rest: seq<byte>)
    requires b + (u + a) / 256 < 256 && CounterBytes(rest, 0) == rest
    ensures CounterBytes([a, b] + rest, u) == [(u + a) % 256, b + (u + a) / 256] + rest
  {
    hide CounterBytes;
    var s1, s2 := [a, b] + rest, [b] + rest;
    var c := (u + a) / 256;
    assert s1[0] == a && s1[1..] == s2 && s2[0] == b && s2[1..] == rest;
    CounterBytesCons(s1, u);
    CounterBytesCons(s2, c);
    assert (c + b) / 256 == 0 && (c + b) % 256 == b + c;
    assert [(u + a) % 256] + ([b + c] + rest) == [(u + a) % 256, b + c] + rest;
  }

  lemma CounterTwoAsWritten(a: nat, b: nat, u: nat, rest: seq<nat>)
    requires u + a < 256 * 256 && b + (u + a) / 256 < 256 && CounterBytesAsWritten(rest, 0) == rest
    ensures CounterBytesAsWritten([a, b] + rest, u) == [u + a, b + (u + a) / 256] + rest
  {
    hide CounterBytesAsWritten, Masked64;
    var s1, s2 := [a, b] + rest, [b] + rest;
    var v1 := u + a;
    var v2 := b + v1 / 256;
    assert s1[0] == a && s1[1..] == s2 && s2[0] == b && s2[1..] == rest;
    Masked64Small(b);
    Masked64Small(v2);
    Masked64Small(a);
    Masked64Small(v1);
    CounterAsWrittenCons(s2, v1 / 256);
    CounterAsWrittenCons(s1, u);
    assert [v1] + ([v2] + rest) == [v1, v2] + rest;
  }

  /** The loop at tweetnacl.py 313-317 as written, on z[8..16]. */
  method CounterStepAsWritten(z: array<nat>)
    requires z.Length == 16
    modifies z
    ensures z[8..] == CounterBytesAsWritten(old(z[8..]), 1)
    ensures z[..8] == old(z[..8])
  {
    hide CounterBytesAsWritten, Masked64;
    ghost var z0 := z[..];
    ghost var done: seq<nat> := z0[..8];
    var u: nat := 1;
    for i := 8 to 16
      invariant |done| == i && done[..8] == z0[..8]
      invariant done[8..] + CounterBytesAsWritten(z0[i..], u) == CounterBytesAsWritten(z0[8..], 1)
      invariant z[..] == done + z0[i..] + []
    {
      StoreStep(z[..], done, z0, [], i, z[i]);
      AsWrittenStep(z0, i, u, done);
      u := Masked64(u + Masked64(z[i]));
      StoreStep(z[..], done, z0, [], i, u);
      z[i] := u;
      done := done + [u];
      u := u / 256;
    }
  }

  /** One iteration of the as-written loop against CounterBytesAsWritten. */
  lemma AsWrittenStep(z0: seq<nat>, i: nat, u: nat, done: seq<nat>)
    requires 8 <= i < |z0| && |done| == i && done[..8] == z0[..8]
    requires done[8..] + CounterBytesAsWritten(z0[i..], u) == CounterBytesAsWritten(z0[8..], 1)
    ensures var v := Masked64(u + Masked64(z0[i]));
      (done + [v])[8..] + CounterBytesAsWritten(z0[i + 1..], v / 256) == CounterBytesAsWritten(z0[8..], 1)
    ensures (done + [Masked64(u + Masked64(z0[i]))])[..8] == z0[..8]
  {
    CounterAsWrittenCons(z0[i..], u);
    assert z0[i..][1..] == z0[i + 1..];
    assert (done + [Masked64(u + Masked64(z0[i]))])[8..] == done[8..] + [Masked64(u + Masked64(z0[i]))];
  }

  /** The same loop storing the low byte, as the C code's u8 store does. */
  method CounterStep(z: array<byte>)
    requires z.Length == 16
    modifies z
    ensures z[8..] == CounterBytes(old(z[8..]), 1)
    ensures z[..8] == old(z[..8])
  {
    hide CounterBytes;
    ghost var z0 := z[..];
    ghost var done: seq<byte> := z0[..8];
    var u: nat := 1;
    for i := 8 to 16
      invariant |done| == i && done[..8] == z0[..8]
      invariant done[8..] + CounterBytes(z0[i..], u) == CounterBytes(z0[8..], 1)
      invariant z[..] == done + z0[i..] + []
    {
      StoreStep(z[..], done, z0, [], i, z[i]);
      var v := u + z[i];
      CounterStepStep(z0, i, u, done);
      StoreStep(z[..], done, z0, [], i, v % 256);
      z[i] := v % 256;
      done := done + [v % 256];
      u := v / 256;
    }
  }

  /** One iteration of the corrected loop against CounterBytes. */
  lemma CounterStepStep(z0: seq<byte>, i: nat, u: nat, done: seq<byte>)
    requires 8 <= i < |z0| && |done| == i && done[..8] == z0[..8]
    requires done[8..] + CounterBytes(z0[i..], u) == CounterBytes(z0[8..], 1)
    ensures (done + [(u + z0[i]) % 256])[8..] + CounterBytes(z0[i + 1..], (u + z0[i]) / 256) == CounterBytes(z0[8..], 1)
    ensures (done + [(u + z0[i]) % 256])[..8] == z0[..8]
  {
    CounterBytesCons(z0[i..], u);
    assert z0[i..][1..] == z0[i + 1..];
    assert (done + [(u + z0[i]) % 256])[8..] == done[8..] + [(u + z0[i]) % 256];
  }

  /** Storing x at index j of done + h0[j..] + rest, where j = |done|,
      gives done + [x] + h0[j + 1..] + rest. */
  lemma StoreStep<T>(s: seq<T>, done: seq<T>, h0: seq<T>, rest: seq<T>, j: nat, x: T)
    requires |done| == j < |h0| && s == done + h0[j..] + rest
    ensures s[j] == h0[j]
    ensures s[j := x] == (done + [x]) + h0[j + 1..] + rest
  {
    assert (done + [x]) + h0[j + 1..] + rest == done + [x] + (h0[j + 1..] + rest);
  }
}
