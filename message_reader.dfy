/** The cursor over a received byte string that every protocol message is
    parsed with (fah/messagereader.py). Each read checks that enough bytes
    remain, raises 'Insufficient data for reading' otherwise, and advances the
    offset by what it consumed. The pure functions below give, for a byte
    string and an offset, the value a read returns and the offset it leaves;
    the class methods are proved to behave as they say. */
module MessageReader {
  import opened Wrappers
  import opened Bytes
  import Utf8

  datatype ReadError = InsufficientData | UpperBitsNotZero | InvalidUtf8

  /** What one read yields and where it leaves the offset. A read that fails
      part way (readString, readUint64) has already moved the offset. */
  datatype Step<T> = Step(result: Result<T, ReadError>, next: nat)

  function ReadU8At(data: seq<byte>, off: nat): (s: Step<byte>)
    ensures s.result.Ok? <==> off + 1 <= |data|
    ensures s.result.Ok? ==> s.next == off + 1 && s.result.value == data[off]
    ensures s.result.Err? ==> s.next == off && s.result.error == InsufficientData
  {
    if off + 1 > |data| then Step(Err(InsufficientData), off)
    else Step(Ok(data[off]), off + 1)
  }

  /** The little-endian value of the next n bytes, if there are n. */
  function ReadLEAt(data: seq<byte>, off: nat, n: nat): (s: Step<nat>)
    ensures s.result.Ok? <==> off + n <= |data|
    ensures s.result.Ok? ==> s.next == off + n && s.result.value == LE(data[off..off + n])
    ensures s.result.Ok? ==> s.result.value < Pow256(n)
    ensures s.result.Err? ==> s.next == off && s.result.error == InsufficientData
  {
    if off + n > |data| then Step(Err(InsufficientData), off)
    else
      LEBound(data[off..off + n]);
      Step(Ok(LE(data[off..off + n])), off + n)
  }

  /** readUint64: eight little-endian bytes, of which the upper four must
      be zero; the value is the lower four. */
  function ReadU64At(data: seq<byte>, off: nat): (s: Step<nat>)
    ensures s.result.Ok? <==> off + 8 <= |data| && data[off + 4..off + 8] == [0, 0, 0, 0]
    ensures s.result.Ok? ==> s.next == off + 8 && s.result.value < Pow256(4)
    ensures s.result.Ok? ==> s.result.value == LE(data[off..off + 4])
    ensures s.result.Err? && off + 8 <= |data| ==> s.next == off + 8 && s.result.error == UpperBitsNotZero
    ensures off + 8 > |data| ==> s.next == off && s.result == Err(InsufficientData)
  {
    if off + 8 > |data| then Step(Err(InsufficientData), off)
    else
      var lo := LE(data[off..off + 4]);
      var hi := LE(data[off + 4..off + 8]);
      LEZero(data[off + 4..off + 8]);
      if hi != 0 then Step(Err(UpperBitsNotZero), off + 8)
      else
        LEBound(data[off..off + 4]);
        Step(Ok(lo), off + 8)
  }

  /** readUint32BE: the next four bytes, most significant first. */
  function ReadU32BEAt(data: seq<byte>, off: nat): (s: Step<nat>)
    ensures s.result.Ok? <==> off + 4 <= |data|
    ensures s.result.Ok? ==> s.next == off + 4 && s.result.value == BE(data[off..off + 4])
    ensures s.result.Err? ==> s.next == off
  {
    if off + 4 > |data| then Step(Err(InsufficientData), off)
    else
      BE4(data[off..off + 4]);
      Step(Ok(data[off] * 0x100_0000 + data[off + 1] * 0x1_0000 + data[off + 2] * 0x100 + data[off + 3] as int), off + 4)
  }

  lemma BE4(b: seq<byte>)
    requires |b| == 4
    ensures BE(b) == b[0] * 0x100_0000 + b[1] * 0x1_0000 + b[2] * 0x100 + b[3] as int
  {
    assert b[..1][..0] == [];
    assert BE(b[..1]) == b[0];
    assert b[..2][..1] == b[..1];
    assert BE(b[..2]) == 256 * b[0] as int + b[1];
    assert b[..3][..2] == b[..2];
    assert BE(b[..3]) == 256 * (256 * b[0] as int + b[1]) + b[2];
    assert b[..4][..3] == b[..3] && b[..4] == b;
  }

  /** readString: a four-byte little-endian length, then that many bytes of
      UTF-8. When the length prefix is read but the text is short or not
      valid UTF-8, the prefix stays consumed. */
  function ReadStringAt(data: seq<byte>, off: nat): (s: Step<string>)
    ensures s.result.Ok? ==> off + 4 <= |data|
    ensures s.result.Ok? ==> off + 4 + LE(data[off..off + 4]) == s.next <= |data|
    ensures s.result.Ok? ==> Utf8.Encode(s.result.value) == data[off + 4..s.next]
    ensures off + 4 > |data| ==> s == Step(Err(InsufficientData), off)
    ensures off + 4 <= |data| && s.result.Err? ==> s.next == off + 4
    ensures s.next <= |data| || s.next == off
  {
    var len := ReadLEAt(data, off, 4);
    if len.result.Err? then Step(Err(InsufficientData), off)
    else
      var i := len.result.value;
      if len.next + i > |data| then Step(Err(InsufficientData), len.next)
      else match Utf8.Decode(data[len.next..len.next + i])
        case None => Step(Err(InvalidUtf8), len.next)
        case Some(text) =>
          Utf8.EncodeDecode(data[len.next..len.next + i]);
          Step(Ok(text), len.next + i)
  }

  /** readBlob(amount): the next amount bytes, as they are. */
  function ReadBlobAt(data: seq<byte>, off: nat, amount: nat): (s: Step<seq<byte>>)
    ensures s.result.Ok? <==> off + amount <= |data|
    ensures s.result.Ok? ==> s.next == off + amount && s.result.value == data[off..off + amount]
    ensures s.result.Err? ==> s.next == off
  {
    if off + amount > |data| then Step(Err(InsufficientData), off)
    else Step(Ok(data[off..off + amount]), off + amount)
  }

  class Reader {
    const data: seq<byte>
    var offset: nat

    ghost predicate Valid()
      reads this
    {
      offset <= |data|
    }

    constructor (data: seq<byte>)
      ensures Valid() && this.data == data && offset == 0
    {
      this.data := data;
      offset := 0;
    }

    method ReadUint8() returns (r: Result<byte, ReadError>)
      requires Valid()
      modifies this
      ensures Valid()
      ensures Step(r, offset) == ReadU8At(data, old(offset))
    {
      if offset + 1 > |data| {
        return Err(InsufficientData);
      }
      offset := offset + 1;
      return Ok(data[offset - 1]);
    }

    method ReadUint16() returns (r: Result<nat, ReadError>)
      requires Valid()
      modifies this
      ensures Valid()
      ensures Step(r, offset) == ReadLEAt(data, old(offset), 2)
    {
      if offset + 2 > |data| {
        return Err(InsufficientData);
      }
      var x := LE(data[offset..offset + 2]);
      offset := offset + 2;
      return Ok(x);
    }

    method ReadUint32() returns (r: Result<nat, ReadError>)
      requires Valid()
      modifies this
      ensures Valid()
      ensures Step(r, offset) == ReadLEAt(data, old(offset), 4)
    {
      if offset + 4 > |data| {
        return Err(InsufficientData);
      }
      var x := LE(data[offset..offset + 4]);
      offset := offset + 4;
      return Ok(x);
    }

    method ReadUint64() returns (r: Result<nat, ReadError>)
      requires Valid()
      modifies this
      ensures Valid()
      ensures Step(r, offset) == ReadU64At(data, old(offset))
    {
      if offset + 8 > |data| {
        return Err(InsufficientData);
      }
      var g := ReadUint32();
      var f := ReadUint32();
      if f.value != 0 {
        return Err(UpperBitsNotZero);
      }
      return Ok(g.value);
    }

    method ReadUint32BE() returns (r: Result<nat, ReadError>)
      requires Valid()
      modifies this
      ensures Valid()
      ensures Step(r, offset) == ReadU32BEAt(data, old(offset))
    {
      if offset + 4 > |data| {
        return Err(InsufficientData);
      }
      var a := ReadUint8();
      var b := ReadUint8();
      var c := ReadUint8();
      var d := ReadUint8();
      return Ok(a.value * 0x100_0000 + b.value * 0x1_0000 + c.value * 0x100 + d.value as int);
    }

    method ReadString() returns (r: Result<string, ReadError>)
      requires Valid()
      modifies this
      ensures Valid()
      ensures Step(r, offset) == ReadStringAt(data, old(offset))
    {
      var len := ReadUint32();
      if len.Err? {
        return Err(len.error);
      }
      var i := len.value;
      if offset + i > |data| {
        return Err(InsufficientData);
      }
      var text := Utf8.Decode(data[offset..offset + i]);
      if text.None? {
        return Err(InvalidUtf8);
      }
      offset := offset + i;
      return Ok(text.value);
    }

    method ReadBlob(amount: nat) returns (r: Result<seq<byte>, ReadError>)
      requires Valid()
      modifies this
      ensures Valid()
      ensures Step(r, offset) == ReadBlobAt(data, old(offset), amount)
    {
      if offset + amount > |data| {
        return Err(InsufficientData);
      }
      var blob := data[offset..offset + amount];
      offset := offset + amount;
      return Ok(blob);
    }

    /** getRemainingData: everything after the offset; reads nothing. */
    function RemainingData(): (rest: seq<byte>)
      requires Valid()
      reads this
      ensures data == data[..offset] + rest
    {
      data[offset..]
    }
  }
}
