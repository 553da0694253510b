/** The builder that every outgoing protocol message is assembled with
    (freeathome/fah/messagewriter.py): a list of typed fields, serialised on
    demand into one byte string. Numbers are little-endian; a string is its
    UTF-8 bytes behind a four-byte length; a blob is its bytes as they are. */
module MessageWriter {
  import opened Wrappers
  import opened Bytes
  import Utf8
  import MessageReader

  /** The largest string or blob a writer accepts: 10 MiB. */
  const MAX_DATA_LENGTH: nat := 1024 * 1024 * 10

  datatype Field = U8(v: int) | U32(v: int) | Str(bytes: seq<byte>) | Blob(bytes: seq<byte>)

  datatype WriteError =
    | NameError      // writeUint8 of a value above 255: the message it builds names
                     // the undefined value_bytes, so a NameError is what is raised
    | TooLong        // a string or blob over MAX_DATA_LENGTH bytes
    | Overflow       // int.to_bytes of a number that does not fit

  /** The bytes a field takes, as the first loop of toUint8Array counts them. */
  function FieldLength(f: Field): nat
  {
    match f
    case U8(_) => 1
    case U32(_) => 4
    case Str(b) => 4 + |b|
    case Blob(b) => |b|
  }

  function Length(fields: seq<Field>): nat
  {
    if fields == [] then 0 else FieldLength(fields[0]) + Length(fields[1..])
  }

  /** The bytes of one field; None where int.to_bytes raises OverflowError. */
  function EncodeField(f: Field): (r: Option<seq<byte>>)
    ensures r.Some? ==> |r.value| == FieldLength(f)
  {
    match f
    case U8(v) => if 0 <= v < 256 then Some([v]) else None
    case U32(v) => if 0 <= v < Pow256(4) then Some(ToLE(v, 4)) else None
    case Str(b) => if |b| < Pow256(4) then Some(ToLE(|b|, 4) + b) else None
    case Blob(b) => Some(b)
  }

  /** What toUint8Array returns for a list of fields. */
  function Serialize(fields: seq<Field>): Result<seq<byte>, WriteError>
  {
    if fields == [] then Ok([])
    else match (EncodeField(fields[0]), Serialize(fields[1..]))
      case (Some(head), Ok(tail)) => Ok(head + tail)
      case _ => Err(Overflow)
  }

  /** The serialisation of a list is the serialisation of its parts, and it
      fails exactly when one part fails. */
  lemma {:induction false} SerializeAppend(a: seq<Field>, b: seq<Field>)
    ensures Serialize(a + b).Ok? <==> Serialize(a).Ok? && Serialize(b).Ok?
    ensures Serialize(a + b).Ok? ==> Serialize(a + b).value == Serialize(a).value + Serialize(b).value
  {
    if a == [] {
      assert a + b == b;
    } else {
      assert (a + b)[0] == a[0] && (a + b)[1..] == a[1..] + b;
      SerializeAppend(a[1..], b);
    }
  }

  /** The serialised message is exactly as long as the first loop of
      toUint8Array computes. */
  lemma {:induction false} SerializeLength(fields: seq<Field>)
    requires Serialize(fields).Ok?
    ensures |Serialize(fields).value| == Length(fields)
  {
    if fields != [] {
      SerializeLength(fields[1..]);
    }
  }

  /** A field a writer can hold: writeUint8 refused values above 255,
      writeString stored UTF-8 and neither strings nor blobs exceed the
      limit. */
  predicate WellFormed(f: Field)
  {
    match f
    case U8(v) => v <= 255
    case U32(_) => true
    case Str(b) => |b| <= MAX_DATA_LENGTH && Utf8.Decode(b).Some?
    case Blob(b) => |b| <= MAX_DATA_LENGTH
  }

  /** Read back, with the reader, a field of the same kind as f. */
  function ReadField(data: seq<byte>, f: Field): MessageReader.Step<Field>
  {
    match f
    case U8(_) =>
      var s := MessageReader.ReadU8At(data, 0);
      MessageReader.Step(if s.result.Ok? then Ok(U8(s.result.value)) else Err(s.result.error), s.next)
    case U32(_) =>
      var s := MessageReader.ReadLEAt(data, 0, 4);
      MessageReader.Step(if s.result.Ok? then Ok(U32(s.result.value)) else Err(s.result.error), s.next)
    case Str(_) =>
      var s := MessageReader.ReadStringAt(data, 0);
      MessageReader.Step(if s.result.Ok? then Ok(Str(Utf8.Encode(s.result.value))) else Err(s.result.error), s.next)
    case Blob(b) =>
      var s := MessageReader.ReadBlobAt(data, 0, |b|);
      MessageReader.Step(if s.result.Ok? then Ok(Blob(s.result.value)) else Err(s.result.error), s.next)
  }

  /** Read back a sequence of fields of the given kinds, one after another. */
  function ReadFields(data: seq<byte>, kinds: seq<Field>): Result<seq<Field>, MessageReader.ReadError>
    decreases |kinds|
  {
    if kinds == [] then Ok([])
    else
      var s := ReadField(data, kinds[0]);
      if s.result.Err? then Err(s.result.error)
      else if s.next > |data| then Err(MessageReader.InsufficientData)
      else match ReadFields(data[s.next..], kinds[1..])
        case Err(e) => Err(e)
        case Ok(tail) => Ok([s.result.value] + tail)
  }

  lemma ReadBackField(f: Field, rest: seq<byte>)
    requires WellFormed(f) && EncodeField(f).Some?
    ensures ReadField(EncodeField(f).value + rest, f) ==
      MessageReader.Step(Ok(f), FieldLength(f))
  {
    var data := EncodeField(f).value + rest;
    match f
    case U8(v) =>
    case U32(v) =>
      assert data[0..4] == ToLE(v, 4);
      LEOfToLE(v, 4);
    case Str(b) =>
      assert data[0..4] == ToLE(|b|, 4);
      LEOfToLE(|b|, 4);
      assert data[4..4 + |b|] == b;
      Utf8.EncodeDecode(b);
    case Blob(b) =>
      assert data[0..|b|] == b;
  }

  /** What the writer serialises, the reader reads back field by field, and
      nothing is left over but what followed. */
  lemma {:induction false} RoundTrip(fields: seq<Field>, rest: seq<byte>)
    requires forall i :: 0 <= i < |fields| ==> WellFormed(fields[i])
    requires Serialize(fields).Ok?
    ensures ReadFields(Serialize(fields).value + rest, fields) == Ok(fields)
  {
    if fields != [] {
      var head := EncodeField(fields[0]).value;
      var tail := Serialize(fields[1..]).value;
      var data := Serialize(fields).value + rest;
      assert data == head + (tail + rest);
      ReadBackField(fields[0], tail + rest);
      assert data[FieldLength(fields[0])..] == tail + rest;
      RoundTrip(fields[1..], rest);
      assert [fields[0]] + fields[1..] == fields;
    }
  }

  /** The exception a write method raises for a field, if any: writeUint8
      refuses values above 255, writeString and writeBlob refuse more than
      MAX_DATA_LENGTH bytes. */
  function WriteCheck(f: Field): Option<WriteError>
  {
    match f
    case U8(v) => if v > 255 then Some(NameError) else None
    case U32(_) => None
    case Str(b) => if |b| > MAX_DATA_LENGTH then Some(TooLong) else None
    case Blob(b) => if |b| > MAX_DATA_LENGTH then Some(TooLong) else None
  }

  /** A fresh writer given these writes in order, then toUint8Array: the
      first refused write raises, otherwise the fields are serialised. */
  function Compose(fields: seq<Field>): Result<seq<byte>, WriteError>
  {
    if fields == [] then Ok([])
    else if WriteCheck(fields[0]).Some? then Err(WriteCheck(fields[0]).value)
    else match (Compose(fields[1..]), EncodeField(fields[0]))
      case (Err(e), _) => Err(e)
      case (Ok(tail), None) => Err(Overflow)
      case (Ok(tail), Some(head)) => Ok(head + tail)
  }

  /** When every write is accepted, what Compose produces is what the reader
      reads back, field by field. */
  lemma {:induction false} ComposeReadBack(fields: seq<Field>, rest: seq<byte>)
    requires Compose(fields).Ok?
    requires forall i :: 0 <= i < |fields| && fields[i].Str? ==> Utf8.Decode(fields[i].bytes).Some?
    ensures Compose(fields) == Serialize(fields)
    ensures forall i :: 0 <= i < |fields| ==> WellFormed(fields[i])
    ensures ReadFields(Compose(fields).value + rest, fields) == Ok(fields)
    ensures |Compose(fields).value| == Length(fields)
  {
    ComposeSerializes(fields);
    RoundTrip(fields, rest);
    SerializeLength(fields);
  }

  /** A field a fresh writer accepts and serialises. */
  predicate Acceptable(f: Field)
  {
    WriteCheck(f).None? && EncodeField(f).Some?
  }

  /** A string field is accepted exactly when it fits MAX_DATA_LENGTH. */
  lemma StrAcceptable(b: seq<byte>)
    ensures Acceptable(Str(b)) <==> |b| <= MAX_DATA_LENGTH
  {
    Pow256Four();
  }

  /** Compose succeeds exactly when every field is acceptable. */
  lemma {:induction false} ComposeOk(fields: seq<Field>)
    ensures Compose(fields).Ok? <==> forall i :: 0 <= i < |fields| ==> Acceptable(fields[i])
  {
    if fields != [] {
      ComposeOk(fields[1..]);
      assert forall i :: 1 <= i < |fields| ==> fields[i] == fields[1..][i - 1];
    }
  }

  /** Writes that all pass their checks compose to their serialisation. */
  lemma {:induction false} ComposeChecked(fields: seq<Field>)
    requires forall i :: 0 <= i < |fields| ==> WriteCheck(fields[i]).None?
    ensures Compose(fields) == Serialize(fields)
  {
    if fields != [] {
      assert forall i :: 0 <= i < |fields[1..]| ==> fields[1..][i] == fields[i + 1];
      ComposeChecked(fields[1..]);
    }
  }

  /** The first write refused decides the exception Compose raises. */
  lemma {:induction false} ComposeStops(fields: seq<Field>, k: nat)
    requires k < |fields| && WriteCheck(fields[k]).Some?
    requires forall i :: 0 <= i < k ==> WriteCheck(fields[i]).None?
    ensures Compose(fields) == Err(WriteCheck(fields[k]).value)
  {
    if k > 0 {
      assert forall i :: 0 <= i < k - 1 ==> fields[1..][i] == fields[i + 1];
      ComposeStops(fields[1..], k - 1);
    }
  }

  lemma {:induction false} ComposeSerializes(fields: seq<Field>)
    requires Compose(fields).Ok?
    requires forall i :: 0 <= i < |fields| && fields[i].Str? ==> Utf8.Decode(fields[i].bytes).Some?
    ensures Compose(fields) == Serialize(fields)
    ensures forall i :: 0 <= i < |fields| ==> WellFormed(fields[i])
  {
    if fields != [] {
      ComposeSerializes(fields[1..]);
      forall i | 0 <= i < |fields|
        ensures WellFormed(fields[i])
      {
        if i > 0 {
          assert fields[i] == fields[1..][i - 1];
        }
      }
    }
  }

  class Writer {
    var fields: seq<Field>

    ghost predicate Valid()
      reads this
    {
      forall i :: 0 <= i < |fields| ==> WellFormed(fields[i])
    }

    constructor ()
      ensures Valid() && fields == []
    {
      fields := [];
    }

    method WriteUint8(value: int) returns (r: Outcome<WriteError>)
      requires Valid()
      modifies this
      ensures Valid()
      ensures r.Fail? <==> value > 255
      ensures r.Fail? ==> r.error == NameError
      ensures fields == if r.Pass? then old(fields) + [U8(value)] else old(fields)
    {
      if value > 255 {
        return Fail(NameError);
      }
      fields := fields + [U8(value)];
      return Pass;
    }

    method WriteUint32(value: int)
      requires Valid()
      modifies this
      ensures Valid()
      ensures fields == old(fields) + [U32(value)]
    {
      fields := fields + [U32(value)];
    }

    method WriteString(value: string) returns (r: Outcome<WriteError>)
      requires Valid()
      modifies this
      ensures Valid()
      ensures r.Fail? <==> |Utf8.Encode(value)| > MAX_DATA_LENGTH
      ensures r.Fail? ==> r.error == TooLong
      ensures fields == if r.Pass? then old(fields) + [Str(Utf8.Encode(value))] else old(fields)
    {
      var valueBytes := Utf8.Encode(value);
      if |valueBytes| > MAX_DATA_LENGTH {
        return Fail(TooLong);
      }
      Utf8.DecodeEncode(value);
      fields := fields + [Str(valueBytes)];
      return Pass;
    }

    method WriteBlob(value: seq<byte>) returns (r: Outcome<WriteError>)
      requires Valid()
      modifies this
      ensures Valid()
      ensures r.Fail? <==> |value| > MAX_DATA_LENGTH
      ensures r.Fail? ==> r.error == TooLong
      ensures fields == if r.Pass? then old(fields) + [Blob(value)] else old(fields)
    {
      if |value| > MAX_DATA_LENGTH {
        return Fail(TooLong);
      }
      fields := fields + [Blob(value)];
      return Pass;
    }

    /** toUint8Array: the first loop sums the field lengths, the second
        appends each field's bytes; the result has the summed length. */
    method ToUint8Array() returns (r: Result<seq<byte>, WriteError>)
      requires Valid()
      ensures r == Serialize(fields)
      ensures r.Ok? ==> |r.value| == Length(fields)
    {
      var length := 0;
      for i := 0 to |fields|
        invariant length == Length(fields[..i])
      {
        LengthAppend(fields[..i], [fields[i]]);
        assert fields[..i + 1] == fields[..i] + [fields[i]];
        length := length + FieldLength(fields[i]);
      }
      var arrayBytes: seq<byte> := [];
      for i := 0 to |fields|
        invariant Serialize(fields[..i]) == Ok(arrayBytes)
      {
        var next := AppendField(arrayBytes, fields[i]);
        if next.None? {
          SerializeStopsAt(fields, i);
          return Err(Overflow);
        }
        SerializeStep(fields, i, arrayBytes, EncodeField(fields[i]).value);
        arrayBytes := next.value;
      }
      assert fields[..|fields|] == fields;
      SerializeLength(fields);
      return Ok(arrayBytes);
    }
  }

  lemma SerializeSnoc(fs: seq<Field>, d: Field)
    ensures Serialize(fs + [d]) ==
      if Serialize(fs).Ok? && EncodeField(d).Some? then Ok(Serialize(fs).value + EncodeField(d).value)
      else Err(Overflow)
  {
    SerializeAppend(fs, [d]);
    assert Serialize([d]) == if EncodeField(d).Some? then Ok(EncodeField(d).value + []) else Err(Overflow);
    assert EncodeField(d).Some? ==> EncodeField(d).value + [] == EncodeField(d).value;
  }

  /** One pass of the second loop of toUint8Array: the bytes of d by its
      type, appended; None where int.to_bytes raises. */
  method AppendField(acc: seq<byte>, d: Field) returns (r: Option<seq<byte>>)
    ensures r.None? <==> EncodeField(d).None?
    ensures r.Some? ==> r.value == acc + EncodeField(d).value
  {
    var arrayBytes := acc;
    match d {
    case U8(v) =>
      if !(0 <= v < 256) {
        return None;
      }
      arrayBytes := arrayBytes + [v];
    case U32(v) =>
      if !(0 <= v < Pow256(4)) {
        return None;
      }
      arrayBytes := arrayBytes + ToLE(v, 4);
    case Str(b) =>
      if !(|b| < Pow256(4)) {
        return None;
      }
      assert arrayBytes + ToLE(|b|, 4) + b == arrayBytes + (ToLE(|b|, 4) + b);
      arrayBytes := arrayBytes + ToLE(|b|, 4);
      arrayBytes := arrayBytes + b;
    case Blob(b) =>
      arrayBytes := arrayBytes + b;
    }
    return Some(arrayBytes);
  }

  /** One more field serialised after the first i. */
  lemma SerializeStep(fields: seq<Field>, i: nat, acc: seq<byte>, b: seq<byte>)
    requires i < |fields| && Serialize(fields[..i]) == Ok(acc) && EncodeField(fields[i]) == Some(b)
    ensures Serialize(fields[..i + 1]) == Ok(acc + b)
  {
    SerializeSnoc(fields[..i], fields[i]);
    assert fields[..i + 1] == fields[..i] + [fields[i]];
  }

  /** A field that does not encode makes the whole list fail. */
  lemma SerializeStopsAt(fields: seq<Field>, i: nat)
    requires i < |fields| && EncodeField(fields[i]).None?
    ensures Serialize(fields).Err?
  {
    SerializeSnoc(fields[..i], fields[i]);
    assert fields[..i + 1] == fields[..i] + [fields[i]];
    SerializePrefixFails(fields, i + 1);
  }

  lemma SerializePrefixFails(fields: seq<Field>, i: nat)
    requires i <= |fields| && Serialize(fields[..i]).Err?
    ensures Serialize(fields).Err?
  {
    SerializeAppend(fields[..i], fields[i..]);
    assert fields[..i] + fields[i..] == fields;
  }

  lemma Pow256Four()
    ensures Pow256(4) == 0x1_0000_0000
  {
  }

  lemma {:induction false} LengthAppend(a: seq<Field>, b: seq<Field>)
    ensures Length(a + b) == Length(a) + Length(b)
  {
    if a == [] {
      assert a + b == b;
    } else {
      assert (a + b)[1..] == a[1..] + b;
      LengthAppend(a[1..], b);
    }
  }
}
