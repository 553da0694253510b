/** Byte strings and the little- and big-endian integer encodings the
    protocol code builds with Python's int.to_bytes / int.from_bytes and
    struct packing. */
module Bytes {
  type byte = x: int | 0 <= x < 256

  /** 256 to the power k. */
  function Pow256(k: nat): (r: nat)
    ensures r >= 1
  {
    if k == 0 then 1 else 256 * Pow256(k - 1)
  }

  /** int.from_bytes(s, 'little'). */
  function LE(s: seq<byte>): nat
  {
    if s == [] then 0 else s[0] + 256 * LE(s[1..])
  }

  /** int.from_bytes(s, 'big'). */
  function BE(s: seq<byte>): nat
  {
    if s == [] then 0 else 256 * BE(s[..|s| - 1]) + s[|s| - 1]
  }

  /** The k low-order bytes of n, least significant first; for n < 256^k
      this is n.to_bytes(k, 'little'). */
  function ToLE(n: nat, k: nat): (r: seq<byte>)
    ensures |r| == k
  {
    if k == 0 then [] else [n % 256] + ToLE(n / 256, k - 1)
  }

  /** bytes(n): n zero bytes. */
  function Zeros(n: nat): (r: seq<byte>)
    ensures |r| == n
  {
    if n == 0 then [] else [0] + Zeros(n - 1)
  }

  lemma {:induction false} LEBound(s: seq<byte>)
    ensures LE(s) < Pow256(|s|)
  {
    if s != [] {
      LEBound(s[1..]);
    }
  }

  /** Encoding a number that fits and decoding it gives the number back. */
  lemma {:induction false} LEOfToLE(n: nat, k: nat)
    requires n < Pow256(k)
    ensures LE(ToLE(n, k)) == n
  {
    if k > 0 {
      LEOfToLE(n / 256, k - 1);
      assert ToLE(n, k)[1..] == ToLE(n / 256, k - 1);
    }
  }

  /** Decoding k bytes and encoding the value again gives the same bytes. */
  lemma {:induction false} ToLEOfLE(s: seq<byte>)
    ensures ToLE(LE(s), |s|) == s
  {
    if s != [] {
      ToLEOfLE(s[1..]);
      assert LE(s) % 256 == s[0];
      assert LE(s) / 256 == LE(s[1..]);
    }
  }

  /** Little-endian decoding of a concatenation. */
  lemma Regroup(d: int, x: int, p: int, l: int)
    ensures d + 256 * (x + p * l) == (d + 256 * x) + (256 * p) * l
  {
  }

  lemma {:induction false} LEAppend(a: seq<byte>, b: seq<byte>)
    ensures LE(a + b) == LE(a) + Pow256(|a|) * LE(b)
  {
    if a != [] {
      LEAppend(a[1..], b);
      assert (a + b)[1..] == a[1..] + b;
      Regroup(a[0], LE(a[1..]), Pow256(|a| - 1), LE(b));
    } else {
      assert a + b == b;
    }
  }

  /** A number of k bytes is zero exactly when all its bytes are. */
  lemma {:induction false} LEZero(s: seq<byte>)
    ensures LE(s) == 0 <==> forall i :: 0 <= i < |s| ==> s[i] == 0
  {
    if s != [] {
      LEZero(s[1..]);
      assert forall i :: 1 <= i < |s| ==> s[i] == s[1..][i - 1];
    }
  }

  function Pow2(k: nat): (r: nat)
    ensures r >= 1
  {
    if k == 0 then 1 else 2 * Pow2(k - 1)
  }

  /** Bitwise exclusive or of the k low bits of x and y. */
  function XorBits(x: nat, y: nat, k: nat): (z: nat)
    ensures z < Pow2(k)
  {
    if k == 0 then 0 else (x + y) % 2 + 2 * XorBits(x / 2, y / 2, k - 1)
  }

  /** x ^ y on bytes. */
  function Xor(x: byte, y: byte): byte
  {
    XorBits(x, y, 8)
  }

  lemma {:induction false} XorBitsTwice(x: nat, y: nat, k: nat)
    requires x < Pow2(k)
    ensures XorBits(XorBits(x, y, k), y, k) == x
  {
    hide XorBits, Pow2;
    if k > 0 {
      var w := XorBits(x / 2, y / 2, k - 1);
      var b := (x + y) % 2;
      var z := XorBits(x, y, k);
      XorBitsCons(x, y, k);
      Halves(z, b, w);
      Parity(x, y, z);
      Pow2Cons(k);
      assert x / 2 < Pow2(k - 1);
      XorBitsTwice(x / 2, y / 2, k - 1);
      XorBitsCons(z, y, k);
      assert XorBits(z, y, k) == x % 2 + 2 * (x / 2);
    } else {
      Pow2Cons(k);
    }
  }

  lemma XorBitsCons(x: nat, y: nat, k: nat)
    requires k > 0
    ensures XorBits(x, y, k) == (x + y) % 2 + 2 * XorBits(x / 2, y / 2, k - 1)
  {
  }

  lemma Pow2Cons(k: nat)
    ensures k == 0 ==> Pow2(k) == 1
    ensures k > 0 ==> Pow2(k) == 2 * Pow2(k - 1)
  {
  }

  lemma {:induction false} XorBitsComm(x: nat, y: nat, k: nat)
    ensures XorBits(x, y, k) == XorBits(y, x, k)
  {
    if k > 0 {
      XorBitsComm(x / 2, y / 2, k - 1);
    }
  }

  lemma Halves(z: int, b: int, w: int)
    requires z == b + 2 * w && 0 <= b < 2
    ensures z / 2 == w && z % 2 == b
  {
  }

  lemma Parity(x: int, y: int, z: int)
    requires z % 2 == (x + y) % 2
    ensures (z + y) % 2 == x % 2
  {
  }

  /** Exclusive or undoes itself and does not depend on argument order. */
  lemma XorTwice(x: byte, y: byte)
    ensures Xor(Xor(x, y), y) == x && Xor(x, y) == Xor(y, x)
  {
    assert Pow2(8) == 256;
    XorBitsTwice(x, y, 8);
    XorBitsComm(x, y, 8);
  }
}
