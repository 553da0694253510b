/** The Salsa20 and XSalsa20 stream ciphers, the Poly1305 verification and
    crypto_secretbox / crypto_secretbox_open of pure_pynacl/tweetnacl.py.
    The fixed-constant kernels (the Salsa20 and HSalsa20 cores and the
    Poly1305 main loop) are parameters of the model: what is proved here is
    the buffer handling around them, the length guards and the round trip
    of a box through open. */
module TweetNaclBox {
  import opened Wrappers
  import opened Bytes
  import opened TweetNacl
  import PyBits

  type Block = s: seq<byte> | |s| == 64 witness Zeros(64)
  type Key = s: seq<byte> | |s| == 32 witness Zeros(32)
  type Tag = s: seq<byte> | |s| == 16 witness Zeros(16)

  /** crypto_core_salsa20 (16 input bytes, key) giving one 64-byte block,
      crypto_core_hsalsa20 (16 nonce bytes, key) giving a 32-byte key, and
      the Poly1305 authenticator (message, 32-byte key) giving 16 bytes. */
  datatype Kernels = Kernels(
    salsa20: (seq<byte>, seq<byte>) -> Block,
    hsalsa20: (seq<byte>, seq<byte>) -> Key,
    poly1305: (seq<byte>, seq<byte>) -> Tag)

  // ----------------------------------------------------- specification

  /** Byte i of the message, where an empty message stands for zeros. */
  function MsgByte(m: seq<byte>, i: nat): byte
  {
    if m == [] || i >= |m| then 0 else m[i]
  }

  /** Byte i of the Salsa20 key stream for an 8-byte nonce: byte i % 64 of
      the block whose little-endian 64-bit counter is i / 64. */
  function StreamByte(kern: Kernels, n: seq<byte>, k: seq<byte>, i: nat): byte
  {
    kern.salsa20(n + ToLE(i / 64, 8), k)[i % 64]
  }

  /** The b bytes crypto_stream_salsa20_xor writes: message xor key stream,
      with the nonce taken from the first 8 bytes of n. */
  function XorStream(kern: Kernels, m: seq<byte>, b: nat, n: seq<byte>, k: seq<byte>): (r: seq<byte>)
    requires b == 0 || |n| >= 8
    ensures |r| == b
  {
    seq(b, i requires 0 <= i < b => Xor(MsgByte(m, i), StreamByte(kern, n[..8], k, i)))
  }

  lemma XorStreamAt(kern: Kernels, m: seq<byte>, b: nat, n: seq<byte>, k: seq<byte>, i: nat)
    requires i < b && |n| >= 8
    ensures XorStream(kern, m, b, n, k)[i] == Xor(MsgByte(m, i), StreamByte(kern, n[..8], k, i))
  {
  }

  /** XSalsa20: the HSalsa20 subkey of the first 16 nonce bytes keys a
      Salsa20 stream over the remaining nonce bytes. */
  function XStream(kern: Kernels, m: seq<byte>, d: nat, n: seq<byte>, k: seq<byte>): (r: seq<byte>)
    requires |n| >= 16 && (d == 0 || |n| >= 24)
    ensures |r| == d
  {
    XorStream(kern, m, d, n[16..], kern.hsalsa20(n[..16], k))
  }

  /** What crypto_secretbox leaves in c[..d]: 16 zero bytes, the Poly1305
      tag of the ciphertext under the first 32 stream bytes, and the
      ciphertext itself. */
  function Sealed(kern: Kernels, m: seq<byte>, d: nat, n: seq<byte>, k: seq<byte>): (r: seq<byte>)
    requires d >= 32 && |n| >= 24 && (m == [] || d <= |m|)
  {
    var s := XStream(kern, m, d, n, k);
    Zeros(16) + kern.poly1305(s[32..], s[..32]) + s[32..]
  }

  /** What crypto_secretbox_open accepts and the d bytes it leaves in m:
      None when the box is shorter than 32 bytes or its tag does not
      match. */
  function Opened(kern: Kernels, c: seq<byte>, d: nat, n: seq<byte>, k: seq<byte>): (r: Option<seq<byte>>)
    requires d < 32 || (d <= |c| && |n| >= 24)
  {
    if d < 32 then None
    else
      var key := XStream(kern, [], 32, n, k);
      if c[16..32] != kern.poly1305(c[32..d], key) then None
      else Some(Zeros(32) + XStream(kern, c, d, n, k)[32..])
  }

  // ----------------------------------------------------------- streams

  /** crypto_stream_salsa20_xor: c[..b] becomes m xor the key stream (the
      key stream alone when m is empty); nothing past b changes. */
  method StreamSalsa20Xor(kern: Kernels, c: array<byte>, m: seq<byte>, b: nat, n: seq<byte>, k: seq<byte>) returns (r: int)
    requires b <= c.Length && (m == [] || b <= |m|) && (b == 0 || |n| >= 8)
    modifies c
    ensures r == 0
    ensures c[..b] == XorStream(kern, m, b, n, k) && c[b..] == old(c[b..])
  {
    hide XorStream, StreamByte, MsgByte, Xor, ToLE, CounterBytes, LE;
    if b == 0 {
      return 0;
    }
    ghost var s := XorStream(kern, m, b, n, k);
    var z := new byte[16](_ => 0);
    CounterStart(z[..]);
    for i := 0 to 8
      modifies z
      invariant z[..i] == n[..i] && z[8..] == ToLE(0, 8)
    {
      z[i] := n[i];
    }
    var off := 0;
    var left := b;
    ghost var blk := 0;
    while left >= 64
      invariant off + left == b && off == 64 * blk
      invariant z[..8] == n[..8] && z[8..] == ToLE(blk, 8)
      invariant forall j :: 0 <= j < off ==> c[j] == s[j]
      invariant forall j :: b <= j < c.Length ==> c[j] == old(c[j])
    {
      assert z[..] == n[..8] + ToLE(blk, 8);
      var x := kern.salsa20(z[..], k);
      XorBlock(c, m, off, 64, x);
      BlockInStream(kern, m, b, n, k, blk, 64, x);
      CounterStep(z);
      CounterStepIncrements(blk);
      blk := blk + 1;
      off := off + 64;
      left := left - 64;
    }
    if left > 0 {
      assert z[..] == n[..8] + ToLE(blk, 8);
      var x := kern.salsa20(z[..], k);
      XorBlock(c, m, off, left, x);
      BlockInStream(kern, m, b, n, k, blk, left, x);
    }
    assert c[..b] == s;
    r := 0;
  }

  /** The zeroed counter bytes encode block 0. */
  lemma CounterStart(z: seq<byte>)
    requires |z| == 16 && forall j :: 8 <= j < 16 ==> z[j] == 0
    ensures z[8..] == ToLE(0, 8)
  {
  }

  /** The inner loop of crypto_stream_salsa20_xor: c[off + i] = m[off + i]
      ^ x[i] for i < len (a zero message byte when m is empty). */
  method XorBlock(c: array<byte>, m: seq<byte>, off: nat, len: nat, x: Block)
    requires len <= 64 && off + len <= c.Length && (m == [] || off + len <= |m|)
    modifies c
    ensures forall j :: off <= j < off + len ==> c[j] == Xor(MsgByte(m, j), x[j - off])
    ensures forall j :: 0 <= j < c.Length && !(off <= j < off + len) ==> c[j] == old(c[j])
  {
    for i := 0 to len
      invariant forall j :: off <= j < off + i ==> c[j] == Xor(MsgByte(m, j), x[j - off])
      invariant forall j :: 0 <= j < c.Length && !(off <= j < off + i) ==> c[j] == old(c[j])
    {
      var mi := if m == [] then 0 else m[i + off];
      c[i + off] := Xor(mi, x[i]);
    }
  }

  /** A block written by XorBlock is the matching stretch of the stream. */
  lemma BlockInStream(kern: Kernels, m: seq<byte>, b: nat, n: seq<byte>, k: seq<byte>, blk: nat, len: nat, x: Block)
    requires len <= 64 && 64 * blk + len <= b && |n| >= 8
    requires x == kern.salsa20(n[..8] + ToLE(blk, 8), k)
    ensures forall j :: 64 * blk <= j < 64 * blk + len ==> XorStream(kern, m, b, n, k)[j] == Xor(MsgByte(m, j), x[j - 64 * blk])
  {
    hide XorStream, MsgByte;
    forall j | 64 * blk <= j < 64 * blk + len
      ensures XorStream(kern, m, b, n, k)[j] == Xor(MsgByte(m, j), x[j - 64 * blk])
    {
      StreamStep(kern, m, b, n, k, blk, j - 64 * blk, x);
    }
  }

  /** Byte i of block blk is byte 64 * blk + i of the stream. */
  lemma StreamStep(kern: Kernels, m: seq<byte>, b: nat, n: seq<byte>, k: seq<byte>, blk: nat, i: nat, x: Block)
    requires 64 * blk + i < b && i < 64 && |n| >= 8
    requires x == kern.salsa20(n[..8] + ToLE(blk, 8), k)
    ensures XorStream(kern, m, b, n, k)[64 * blk + i] == Xor(MsgByte(m, 64 * blk + i), x[i])
  {
    hide XorStream;
    var j := 64 * blk + i;
    XorStreamAt(kern, m, b, n, k, j);
    PyBits.DivModUnique(j, 64, blk, i);
    assert j / 64 == blk;
  }

  /** crypto_stream_salsa20: the key stream alone. */
  method StreamSalsa20(kern: Kernels, c: array<byte>, d: nat, n: seq<byte>, k: seq<byte>) returns (r: int)
    requires d <= c.Length && (d == 0 || |n| >= 8)
    modifies c
    ensures r == 0
    ensures c[..d] == XorStream(kern, [], d, n, k) && c[d..] == old(c[d..])
  {
    r := StreamSalsa20Xor(kern, c, [], d, n, k);
  }

  /** crypto_stream_xsalsa20_xor. */
  method StreamXSalsa20Xor(kern: Kernels, c: array<byte>, m: seq<byte>, d: nat, n: seq<byte>, k: seq<byte>) returns (r: int)
    requires |n| >= 16 && d <= c.Length && (m == [] || d <= |m|) && (d == 0 || |n| >= 24)
    modifies c
    ensures r == 0
    ensures c[..d] == XStream(kern, m, d, n, k) && c[d..] == old(c[d..])
  {
    var s := kern.hsalsa20(n[..16], k);
    r := StreamSalsa20Xor(kern, c, m, d, n[16..], s);
  }

  /** crypto_stream_xsalsa20. */
  method StreamXSalsa20(kern: Kernels, c: array<byte>, d: nat, n: seq<byte>, k: seq<byte>) returns (r: int)
    requires |n| >= 16 && d <= c.Length && (d == 0 || |n| >= 24)
    modifies c
    ensures r == 0
    ensures c[..d] == XStream(kern, [], d, n, k) && c[d..] == old(c[d..])
  {
    var s := kern.hsalsa20(n[..16], k);
    r := StreamSalsa20(kern, c, d, n[16..], s);
  }

  /** Xoring the same key stream twice gives back the message. */
  lemma XorStreamTwice(kern: Kernels, m: seq<byte>, b: nat, n: seq<byte>, k: seq<byte>)
    requires b <= |m| && (b == 0 || |n| >= 8)
    ensures XorStream(kern, XorStream(kern, m, b, n, k), b, n, k) == m[..b]
  {
    hide XorStream, StreamByte;
    var c := XorStream(kern, m, b, n, k);
    forall i | 0 <= i < b
      ensures XorStream(kern, c, b, n, k)[i] == m[i]
    {
      XorStreamAt(kern, m, b, n, k, i);
      XorStreamAt(kern, c, b, n, k, i);
      XorTwice(m[i], StreamByte(kern, n[..8], k, i));
    }
  }

  // ---------------------------------------------------------- Poly1305

  /** crypto_onetimeauth_poly1305 writes the 16-byte tag of m[..n] under
      k[..32] into out. */
  method Onetimeauth(kern: Kernels, out: array<byte>, m: seq<byte>, n: nat, k: seq<byte>) returns (r: int)
    requires out.Length >= 16 && n <= |m| && |k| >= 32
    modifies out
    ensures r == 0
    ensures out[..16] == kern.poly1305(m[..n], k[..32]) && out[16..] == old(out[16..])
  {
    var tag := kern.poly1305(m[..n], k[..32]);
    forall j | 0 <= j < 16 {
      out[j] := tag[j];
    }
    r := 0;
  }

  /** crypto_onetimeauth_poly1305_verify: 0 when h[..16] is the tag of
      m[..n] under k[..32], else -1. */
  method OnetimeauthVerify(kern: Kernels, h: seq<byte>, m: seq<byte>, n: nat, k: seq<byte>) returns (r: int)
    requires |h| >= 16 && n <= |m| && |k| >= 32
    ensures r == 0 || r == -1
    ensures r == 0 <==> h[..16] == kern.poly1305(m[..n], k[..32])
  {
    var x := new byte[16](_ => 0);
    var _ := Onetimeauth(kern, x, m, n, k);
    assert x[..16] == x[..];
    r := CryptoVerify16(h, x[..]);
  }

  // --------------------------------------------------------- secretbox

  /** crypto_secretbox_xsalsa20poly1305: -1 and no change when d < 32;
      otherwise c[..d] holds the sealed box and nothing past d changes. */
  method Secretbox(kern: Kernels, c: array<byte>, m: seq<byte>, d: nat, n: seq<byte>, k: seq<byte>) returns (r: int)
    requires d < 32 || (d <= c.Length && (m == [] || d <= |m|) && |n| >= 24)
    modifies c
    ensures r == 0 || r == -1
    ensures r == -1 <==> d < 32
    ensures r == -1 ==> c[..] == old(c[..])
    ensures r == 0 ==> c[..d] == Sealed(kern, m, d, n, k) && c[d..] == old(c[d..])
  {
    hide Sealed, XStream;
    if d < 32 {
      return -1;
    }
    var _ := StreamXSalsa20Xor(kern, c, m, d, n, k);
    ghost var s := c[..];
    assert s[d..] == old(c[d..]);
    var cOut := new byte[c.Length - 16];
    forall j | 0 <= j < cOut.Length {
      cOut[j] := c[j + 16];
    }
    assert c[..] == s && c[32..][..d - 32] == s[32..d] && c[..][..32] == s[..32];
    var _ := Onetimeauth(kern, cOut, c[32..], d - 32, c[..]);
    assert cOut[..16] == kern.poly1305(s[32..d], s[..32]);
    forall j | 16 <= j < c.Length {
      c[j] := cOut[j - 16];
    }
    forall j | 0 <= j < 16 {
      c[j] := 0;
    }
    ZerosAt(16);
    assert c[..16] == Zeros(16);
    assert c[16..32] == cOut[..16];
    assert c[32..] == s[32..];
    assert c[d..] == c[32..][d - 32..] == s[32..][d - 32..] == s[d..];
    SealedParts(kern, m, d, n, k, s, c[..]);
    r := 0;
  }

  lemma SealedParts(kern: Kernels, m: seq<byte>, d: nat, n: seq<byte>, k: seq<byte>, s: seq<byte>, c: seq<byte>)
    requires d >= 32 && |n| >= 24 && (m == [] || d <= |m|) && d <= |s| == |c|
    requires s[..d] == XStream(kern, m, d, n, k)
    requires c[..16] == Zeros(16)
    requires c[16..32] == kern.poly1305(s[32..d], s[..32])
    requires c[32..] == s[32..]
    ensures c[..d] == Sealed(kern, m, d, n, k)
  {
    hide XStream;
    var t := XStream(kern, m, d, n, k);
    assert t[32..] == s[32..d] && t[..32] == s[..32];
    assert c[32..d] == s[32..d];
    assert c[..d] == c[..16] + c[16..32] + c[32..d];
  }

  /** crypto_secretbox_xsalsa20poly1305_open: 0 and m[..d] set exactly when
      the box opens; -1 and m unchanged otherwise. */
  method SecretboxOpen(kern: Kernels, m: array<byte>, c: seq<byte>, d: nat, n: seq<byte>, k: seq<byte>) returns (r: int)
    requires d < 32 || (d <= |c| && d <= m.Length && |n| >= 24)
    modifies m
    ensures r == 0 || r == -1
    ensures r == 0 <==> Opened(kern, c, d, n, k).Some?
    ensures r == 0 ==> m[..d] == Opened(kern, c, d, n, k).value && m[d..] == old(m[d..])
    ensures r == -1 ==> m[..] == old(m[..])
  {
    var x := new byte[32](_ => 0);
    if d < 32 {
      return -1;
    }
    var _ := StreamXSalsa20(kern, x, 32, n, k);
    assert x[..] == x[..32];
    var v := OnetimeauthVerify(kern, c[16..], c[32..], d - 32, x[..]);
    assert c[16..][..16] == c[16..32] && c[32..][..d - 32] == c[32..d] && x[..][..32] == x[..];
    if v != 0 {
      return -1;
    }
    var _ := StreamXSalsa20Xor(kern, m, c, d, n, k);
    forall j | 0 <= j < 32 {
      m[j] := 0;
    }
    ZerosAt(32);
    assert m[..d] == Zeros(32) + XStream(kern, c, d, n, k)[32..];
    r := 0;
  }

  lemma {:induction false} ZerosAt(n: nat)
    ensures forall i :: 0 <= i < n ==> Zeros(n)[i] == 0
  {
    if n > 0 {
      ZerosAt(n - 1);
      assert Zeros(n) == [0] + Zeros(n - 1);
    }
  }

  /** A box sealed from a message whose first 32 bytes are zero (the
      crypto_secretbox convention) opens to that message. */
  lemma SealThenOpen(kern: Kernels, m: seq<byte>, d: nat, n: seq<byte>, k: seq<byte>)
    requires d >= 32 && |n| >= 24 && d <= |m| && m[..32] == Zeros(32)
    ensures Opened(kern, Sealed(kern, m, d, n, k), d, n, k) == Some(m[..d])
  {
    hide XorStream, StreamByte;
    var hs := kern.hsalsa20(n[..16], k);
    var s := XStream(kern, m, d, n, k);
    var key := XStream(kern, [], 32, n, k);
    var c := Sealed(kern, m, d, n, k);
    ZerosAt(32);
    assert |c| == d && c[16..32] == kern.poly1305(s[32..], s[..32]) && c[32..] == s[32..];
    forall i | 0 <= i < 32
      ensures key[i] == s[i]
    {
      XorStreamAt(kern, m, d, n[16..], hs, i);
      XorStreamAt(kern, [], 32, n[16..], hs, i);
      assert m[i] == m[..32][i] == 0;
    }
    assert key == s[..32];
    assert c[32..d] == s[32..];
    assert c[16..32] == kern.poly1305(c[32..d], key);
    XorStreamTwice(kern, m, d, n[16..], hs);
    forall i | 32 <= i < d
      ensures XStream(kern, c, d, n, k)[i] == m[i]
    {
      XorStreamAt(kern, c, d, n[16..], hs, i);
      XorStreamAt(kern, s, d, n[16..], hs, i);
      assert c[i] == s[i];
    }
    forall i | 0 <= i < d
      ensures (Zeros(32) + XStream(kern, c, d, n, k)[32..])[i] == m[..d][i]
    {
      if i < 32 {
        assert m[i] == m[..32][i];
      }
    }
    assert Zeros(32) + XStream(kern, c, d, n, k)[32..] == m[..d];
  }

  /** A box whose tag slot does not hold the tag of its ciphertext is
      refused, whatever the rest holds. */
  lemma ForgedTagRefused(kern: Kernels, c: seq<byte>, d: nat, n: seq<byte>, k: seq<byte>)
    requires 32 <= d <= |c| && |n| >= 24
    requires c[16..32] != kern.poly1305(c[32..d], XStream(kern, [], 32, n, k))
    ensures Opened(kern, c, d, n, k) == None
  {
  }
}
