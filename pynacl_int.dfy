/** The fixed-width integer classes of pure_pynacl: Int, the base class, and
    u8, u32, u64 and i64, which tweetnacl.py derives from it. A number is
    either a plain Python int or a value of one of these classes; masking,
    the class a result gets and the C-like shifts and inversion follow
    pure_pynacl/__init__.py. */
module PyNaclInt {
  import opened Wrappers
  import PyValue
  import opened PyBits

  datatype IntType = U8 | U32 | U64 | Int | I64

  /** array("L").itemsize * 8 on an LP64 platform: u32 holds 64 bits there. */
  const LONG_BITS: nat := 64

  /** array("i").itemsize * 8. */
  const INT_BITS: nat := 32

  /** The class attribute bits. */
  function Bits(t: IntType): nat
  {
    match t
    case U8 => 8
    case U32 => LONG_BITS
    case U64 => 64
    case Int => INT_BITS
    case I64 => 64
  }

  predicate Signed(t: IntType)
  {
    t == Int || t == I64
  }

  /** The bits the mask keeps: all of them, or all but the sign bit. */
  function ValueBits(t: IntType): nat
  {
    if Signed(t) then Bits(t) - 1 else Bits(t)
  }

  /** The class attribute mask: (1 << bits) - 1, or (1 << bits - 1) - 1 for
      a signed class. */
  function Mask(t: IntType): nat
  {
    match t
    case U8 => 0xFF
    case U32 => 0xFFFF_FFFF_FFFF_FFFF
    case U64 => 0xFFFF_FFFF_FFFF_FFFF
    case Int => 0x7FFF_FFFF
    case I64 => 0x7FFF_FFFF_FFFF_FFFF
  }

  /** The masks are 2^n - 1 for n the value bits. */
  lemma MaskOfBits(t: IntType)
    ensures Mask(t) == Pow2(ValueBits(t)) - 1
  {
    Pow2Values();
  }

  lemma Pow2Values()
    ensures Pow2(8) == 0x100 && Pow2(31) == 0x8000_0000
    ensures Pow2(63) == 0x8000_0000_0000_0000 && Pow2(64) == 0x1_0000_0000_0000_0000
  {
    Pow2Of32();
    Pow2Add(32, 32);
    assert Pow2(32) == 2 * Pow2(31);
    assert Pow2(64) == 2 * Pow2(63);
    assert Pow2(8) == 256 by {
      assert Pow2(4) == 16;
      Pow2Add(4, 4);
    }
  }

  /** The class attribute order (TypeEnum), used to pick a result's class. */
  function Order(t: IntType): nat
  {
    match t
    case U8 => 1
    case U32 => 2
    case U64 => 3
    case Int => 5
    case I64 => 7
  }

  /** TypeEnum.integer, the order of a plain int. */
  const INTEGER_ORDER: nat := 11

  datatype Num = Typed(t: IntType, v: int) | Plain(v: int)

  function OrderOf(a: Num): nat
  {
    if a.Typed? then Order(a.t) else INTEGER_ORDER
  }

  /** The class of a number; None for a plain int. */
  function ClassOf(a: Num): Option<IntType>
  {
    if a.Typed? then Some(a.t) else None
  }

  /** The values a class can hold: at most the mask in magnitude, and never
      negative when the class is unsigned. */
  predicate Fits(t: IntType, x: int)
  {
    -(Mask(t) as int) <= x <= Mask(t) && (Signed(t) || x >= 0)
  }

  /** T(val), Int.__new__: the magnitude is masked, and the sign is kept only
      by a signed class. */
  function New(t: IntType, val: int): (r: Num)
    ensures r.Typed? && r.t == t && Fits(t, r.v)
    ensures val >= 0 ==> r.v == val % (Mask(t) + 1)
    ensures val < 0 ==> r.v == if Signed(t) then -((-val) % (Mask(t) + 1)) else (-val) % (Mask(t) + 1)
  {
    MaskOfBits(t);
    AndLowBits(if val < 0 then -val else val, ValueBits(t));
    if val < 0 then
      var residue: int := BitAnd(-val, Mask(t));
      Typed(t, if Signed(t) then -residue else residue)
    else
      Typed(t, BitAnd(val, Mask(t)))
  }

  /** A value the class can hold is kept as it is, so making a number of a
      class twice changes nothing. */
  lemma NewKeepsFitting(t: IntType, x: int)
    requires Fits(t, x)
    ensures New(t, x) == Typed(t, x)
    ensures New(t, New(t, x).v) == New(t, x)
  {
    var p := Mask(t) + 1;
    if x >= 0 {
      DivModUnique(x, p, 0, x);
    } else {
      DivModUnique(-x, p, 0, -x);
    }
  }

  /** The classes keep a magnitude and a sign rather than two's complement:
      an unsigned class drops the sign (u8(-1) is 1, where C gives 255) and a
      signed class negates the masked magnitude. */
  lemma NewOfNegative(t: IntType, x: int)
    requires x >= 0
    ensures !Signed(t) ==> New(t, -x) == New(t, x)
    ensures Signed(t) ==> New(t, -x).v == -New(t, x).v
    ensures New(U8, -1) == Typed(U8, 1)
  {
  }

  datatype BinaryOp = And | Or | Xor | Add | Sub | Mul | FloorDiv | Mod

  /** Python's x // y: the quotient rounded toward minus infinity. */
  function FloorDivide(x: int, y: int): (q: int)
    requires y != 0
    ensures y > 0 ==> y * q <= x < y * q + y
    ensures y < 0 ==> y * q + y < x <= y * q
  {
    if y > 0 then x / y else (-x) / (-y)
  }

  /** The plain Python int operation; // and % by zero raise
      ZeroDivisionError. */
  function Exact(op: BinaryOp, x: int, y: int): Result<int, PyValue.PyError>
  {
    match op
    case And => Ok(IntAnd(x, y))
    case Or => Ok(IntOr(x, y))
    case Xor => Ok(IntXor(x, y))
    case Add => Ok(x + y)
    case Sub => Ok(x - y)
    case Mul => Ok(x * y)
    case FloorDiv => if y == 0 then Err(PyValue.ZeroDivisionError) else Ok(FloorDivide(x, y))
    case Mod => if y == 0 then Err(PyValue.ZeroDivisionError) else Ok(x - y * FloorDivide(x, y))
  }

  /** Python's x % y takes the sign of y. */
  lemma ModSign(x: int, y: int)
    requires y != 0
    ensures var r := Exact(Mod, x, y).value;
            (y > 0 ==> 0 <= r < y) && (y < 0 ==> y < r <= 0)
            && Exact(FloorDiv, x, y).value * y + r == x
  {
  }

  /** Int.__promote_type: the class of the result of a binary operation;
      None stands for a plain int. */
  function Promote(a: Num, b: Num, result: int): Option<IntType>
  {
    if result < 0 && OrderOf(a) < Order(Int) && OrderOf(b) < Order(Int) then Some(Int)
    else if OrderOf(a) > OrderOf(b) then ClassOf(a) else ClassOf(b)
  }

  /** a op b for the operators Int wraps with __typed, and their reflected
      forms: the plain result, made a number of the promoted class. */
  function BinOp(op: BinaryOp, a: Num, b: Num): Result<Num, PyValue.PyError>
  {
    var x :- Exact(op, a.v, b.v);
    match Promote(a, b, x)
    case None => Ok(Plain(x))
    case Some(t) => Ok(New(t, x))
  }

  /** With a plain int on either side the result is the plain int result,
      unmasked, and raises exactly when the plain operation does. */
  lemma BinOpWithPlain(op: BinaryOp, a: Num, b: Num)
    requires a.Plain? || b.Plain?
    ensures BinOp(op, a, b).Err? <==> Exact(op, a.v, b.v).Err?
    ensures Exact(op, a.v, b.v).Ok? ==> BinOp(op, a, b) == Ok(Plain(Exact(op, a.v, b.v).value))
  {
  }

  /** Between two Int numbers the result has the class of higher order,
      except that a negative result of two unsigned numbers becomes an Int;
      either way the result is masked to its class. */
  lemma BinOpTyped(op: BinaryOp, a: Num, b: Num)
    requires a.Typed? && b.Typed? && Exact(op, a.v, b.v).Ok?
    ensures var x := Exact(op, a.v, b.v).value;
            var r := BinOp(op, a, b).value;
            r.Typed? && r == New(r.t, x)
            && (x < 0 && !Signed(a.t) && !Signed(b.t) ==> r.t == Int)
            && (!(x < 0 && !Signed(a.t) && !Signed(b.t)) ==>
                  (r.t == a.t || r.t == b.t) && Order(r.t) >= Order(a.t) && Order(r.t) >= Order(b.t))
  {
  }

  /** &, |, ^, + and * give the same number whichever operand is on the
      left. */
  lemma BinOpComm(op: BinaryOp, a: Num, b: Num)
    requires op in {And, Or, Xor, Add, Mul}
    ensures BinOp(op, a, b) == BinOp(op, b, a)
  {
    IntOpsComm(a.v, b.v);
    assert Exact(op, a.v, b.v) == Exact(op, b.v, a.v);
    var x := Exact(op, a.v, b.v).value;
    if OrderOf(a) == OrderOf(b) {
      assert ClassOf(a) == ClassOf(b);
    }
    assert Promote(a, b, x) == Promote(b, a, x);
  }

  /** u8(1) - u8(2) is Int(-1), and u8(200) + u8(100) wraps to u8(44). */
  lemma BinOpExamples()
    ensures BinOp(Sub, Typed(U8, 1), Typed(U8, 2)) == Ok(Typed(Int, -1))
    ensures BinOp(Add, Typed(U8, 200), Typed(U8, 100)) == Ok(Typed(U8, 44))
  {
  }

  datatype ShiftOp = LeftShift | RightShift

  /** a << b and a >> b, done on the plain values and given the class of
      the Int operand whose method runs: the left one, or the right one
      (through __rlshift__ / __rrshift__) when the left is a plain int. A
      negative count raises ValueError. */
  function Shift(op: ShiftOp, a: Num, b: Num): Result<Num, PyValue.PyError>
  {
    if b.v < 0 then Err(PyValue.ValueError)
    else
      var x := if op == LeftShift then a.v * Pow2(b.v) else a.v / Pow2(b.v);
      if a.Typed? then Ok(New(a.t, x))
      else if b.Typed? then Ok(New(b.t, x))
      else Ok(Plain(x))
  }

  /** A left shift keeps the class of its left operand and, for an
      unsigned class, drops the bits above the mask; a negative count
      raises. */
  lemma LeftShiftTyped(t: IntType, x: int, n: int)
    requires Fits(t, x)
    ensures Shift(LeftShift, Typed(t, x), Plain(n)).Err? <==> n < 0
    ensures n >= 0 && !Signed(t) ==>
              Shift(LeftShift, Typed(t, x), Plain(n)) == Ok(Typed(t, (x * Pow2(n)) % (Mask(t) + 1)))
  {
    hide New;
    if n >= 0 && !Signed(t) {
      MulSign(Pow2(n), x);
    }
  }

  /** A right shift keeps the class of its left operand, rounds toward
      minus infinity and needs no masking; a negative count raises. */
  lemma RightShiftTyped(t: IntType, x: int, n: int)
    requires Fits(t, x)
    ensures Shift(RightShift, Typed(t, x), Plain(n)).Err? <==> n < 0
    ensures n >= 0 ==> Shift(RightShift, Typed(t, x), Plain(n)) == Ok(Typed(t, x / Pow2(n)))
  {
    hide New;
    if n >= 0 {
      DivBounds(x, Pow2(n));
      NewKeepsFitting(t, x / Pow2(n));
    }
  }

  lemma DivBounds(x: int, p: int)
    requires p >= 1
    ensures x >= 0 ==> 0 <= x / p <= x
    ensures x < 0 ==> x <= x / p < 0
  {
    var q, r := x / p, x % p;
    assert x == p * q + r && 0 <= r < p;
    MulMono(p, q);
    MulMono(p, q + 1);
    assert p * (q + 1) == p * q + p;
  }

  lemma MulMono(p: int, q: int)
    requires p >= 1
    ensures q >= 0 ==> p * q >= q
    ensures q <= 0 ==> p * q <= q
  {
    assert p * q == (p - 1) * q + q;
    MulSign(p - 1, q);
  }

  /** ~a: Python's ~ on a plain int; on an Int, the bitwise not re-typed for
      a signed class and the exclusive or with the mask for an unsigned
      one. */
  function Invert(a: Num): Num
  {
    match a
    case Plain(x) => Plain(-x - 1)
    case Typed(t, x) => if Signed(t) then New(t, -x - 1) else New(t, IntXor(x, Mask(t)))
  }

  /** On an unsigned class ~ subtracts from the mask, as C's ~ does. */
  lemma InvertUnsigned(t: IntType, x: int)
    requires !Signed(t) && Fits(t, x)
    ensures Invert(Typed(t, x)) == Typed(t, Mask(t) - x)
  {
    hide New;
    MaskOfBits(t);
    BitXorMask(x, ValueBits(t));
    NewKeepsFitting(t, Mask(t) - x);
  }

  /** ~~a == a for every value but the largest of a signed class. */
  lemma InvertTwice(t: IntType, x: int)
    requires Fits(t, x) && (Signed(t) ==> x < Mask(t))
    ensures Invert(Invert(Typed(t, x))) == Typed(t, x)
  {
    hide New;
    if Signed(t) {
      NewKeepsFitting(t, -x - 1);
      assert Invert(Typed(t, x)) == Typed(t, -x - 1);
      NewKeepsFitting(t, x);
      assert Invert(Typed(t, -x - 1)) == New(t, x);
    } else {
      InvertUnsigned(t, x);
      InvertUnsigned(t, Mask(t) - x);
    }
  }

  /** -mask - 1 does not fit a signed class, so ~Int(mask) is Int(0) where
      C gives the least int. */
  lemma InvertSignedMax(t: IntType)
    requires Signed(t)
    ensures Invert(Typed(t, Mask(t))) == Typed(t, 0)
  {
    DivModUnique(Mask(t) + 1, Mask(t) + 1, 1, 0);
  }

  /** [typ(i) for i in s]. */
  function TypedAll(t: IntType, s: seq<int>): (r: seq<Num>)
    ensures |r| == |s|
    ensures forall i :: 0 <= i < |r| ==> r[i] == New(t, s[i])
  {
    if s == [] then [] else TypedAll(t, s[..|s| - 1]) + [New(t, s[|s| - 1])]
  }

  /** IntArray(typ, init, size): with a size (any non-zero one) the typed
      init, cut or padded with typ() to size elements; a negative size cuts
      as the slice init[:size] does; without a size one typed element per
      element of init. */
  function IntArray(t: IntType, init: seq<int>, size: int): (r: seq<Num>)
    ensures size > 0 ==> |r| == size
    ensures size == 0 ==> |r| == |init|
    ensures size < 0 ==> |r| == if |init| + size > 0 then |init| + size else 0
    ensures forall i :: 0 <= i < |r| ==> r[i] == if i < |init| then New(t, init[i]) else Typed(t, 0)
  {
    if size != 0 then
      if |init| < size then TypedAll(t, init) + seq(size - |init|, _ => New(t, 0))
      else TypedAll(t, init[..if size > 0 then size else if |init| + size > 0 then |init| + size else 0])
    else TypedAll(t, init)
  }
}
