/** The Crypto object of custom_components/freeathome/fah/crypto.py: what one
    session with the access point keeps (key pair, shared secret, session
    identifier and nonce, message counter, pending nonce prefixes, stream
    table, symmetric key) and the methods that advance it. The libraries'
    randomness and key generation are given to each method as parameters of
    the length the source asks for. Each method is proved against a
    function on values from this module or from Crypto. */
module CryptoSession {
  import opened Wrappers
  import opened PyList
  import opened Bytes
  import Utf8
  import opened Primitives
  import PyValue
  import MessageReader
  import opened MessageWriter
  import ClientScram
  import Protocol
  import opened Crypto

  // ---------------------------------------------------------------------
  // decodeNewSessionResult

  /** What a new-session reply carries: the session identifier and the
      eight-byte session nonce. */
  datatype NewSession = NewSession(sessionId: string, nonce: seq<byte>)

  /** decodeNewSessionResult up to the session identifier: the message type,
      the result code, which must be OK, the protocol version, which is only
      logged, and the identifier. */
  function NewSessionId(proto: Protocol.Constants, data: seq<byte>): (r: Result<string, CryptoError>)
    ensures r.Ok? ==> 13 <= MessageReader.ReadStringAt(data, 9).next <= |data|
    ensures r.Ok? ==> MessageReader.ReadStringAt(data, 9).result == Ok(r.value)
  {
    var t := MessageReader.ReadU8At(data, 0);
    if t.result.Err? then Err(Read(t.result.error))
    else
      var code := MessageReader.ReadLEAt(data, 1, 4);
      if code.result.Err? then Err(Read(code.result.error))
      else if code.result.value != proto.resultCodeOk then Err(SessionRefused)
      else
        var version := MessageReader.ReadLEAt(data, 5, 4);
        if version.result.Err? then Err(Read(version.result.error))
        else
          var s := MessageReader.ReadStringAt(data, 9);
          if s.result.Err? then Err(Read(s.result.error)) else Ok(s.result.value)
  }

  /** decodeNewSessionResult: the identifier, then an eight-byte blob. */
  function DecodeNewSession(proto: Protocol.Constants, data: seq<byte>): (r: Result<NewSession, CryptoError>)
    ensures r.Ok? ==> NewSessionId(proto, data) == Ok(r.value.sessionId) && |r.value.nonce| == 8
  {
    match NewSessionId(proto, data)
    case Err(e) => Err(e)
    case Ok(id) =>
      var b := MessageReader.ReadBlobAt(data, MessageReader.ReadStringAt(data, 9).next, 8);
      if b.result.Err? then Err(Read(b.result.error)) else Ok(NewSession(id, b.result.value))
  }

  /** The reads of decodeNewSessionResult with a reader over the reply:
      `id` is what the identifier read gives, `r` the whole decode. */
  method ReadNewSession(proto: Protocol.Constants, newsession: seq<byte>)
    returns (id: Result<string, CryptoError>, r: Result<NewSession, CryptoError>)
    ensures id == NewSessionId(proto, newsession)
    ensures r == DecodeNewSession(proto, newsession)
  {
    var data := new MessageReader.Reader(newsession);
    var gotType := data.ReadUint8();
    if gotType.Err? {
      id := Err(Read(gotType.error));
      return id, id.PropagateFailure();
    }
    var result := data.ReadUint32();
    if result.Err? {
      id := Err(Read(result.error));
      return id, id.PropagateFailure();
    }
    if result.value != proto.resultCodeOk {
      id := Err(SessionRefused);
      return id, id.PropagateFailure();
    }
    var fahVersion := data.ReadUint32();
    if fahVersion.Err? {
      id := Err(Read(fahVersion.error));
      return id, id.PropagateFailure();
    }
    var s := data.ReadString();
    if s.Err? {
      id := Err(Read(s.error));
      return id, id.PropagateFailure();
    }
    id := Ok(s.value);
    var blob := data.ReadBlob(8);
    if blob.Err? {
      return id, Err(Read(blob.error));
    }
    return id, Ok(NewSession(s.value, blob.value));
  }

  /** The bytes of a new-session reply: the message type, the result code,
      the protocol version, the identifier with its length and the nonce. */
  function NewSessionReply(kind: byte, code: nat, version: nat, sessionId: string, nonce: seq<byte>): seq<byte>
    requires code < Pow256(4) && version < Pow256(4)
  {
    [kind] + ToLE(code, 4) + ToLE(version, 4) + StringField(sessionId) + nonce
  }

  /** A reply with the OK code is decoded to its identifier and nonce,
      whatever protocol version it names. */
  lemma DecodeNewSessionOf(proto: Protocol.Constants, kind: byte, version: nat, sessionId: string,
                           nonce: seq<byte>, rest: seq<byte>)
    requires 0 <= proto.resultCodeOk < Pow256(4) && version < Pow256(4)
    requires |Utf8.Encode(sessionId)| < Pow256(4) && |nonce| == 8
    ensures DecodeNewSession(proto, NewSessionReply(kind, proto.resultCodeOk, version, sessionId, nonce) + rest) ==
      Ok(NewSession(sessionId, nonce))
  {
    var head := [kind] + ToLE(proto.resultCodeOk, 4) + ToLE(version, 4);
    var field := StringField(sessionId);
    var data := NewSessionReply(kind, proto.resultCodeOk, version, sessionId, nonce) + rest;
    Regroup(head, field, nonce, rest);
    NewSessionHeader(head, kind, proto.resultCodeOk, version, field + nonce + rest);
    ReadStringBetween(head, sessionId, nonce + rest);
    SliceOf(head + field, nonce, rest);
    DecodeNewSessionFrom(proto, data, sessionId, |head| + |field|, nonce);
  }

  lemma Regroup(a: seq<byte>, b: seq<byte>, c: seq<byte>, d: seq<byte>)
    ensures a + b + c + d == a + b + (c + d) == a + (b + c + d)
  {
  }

  lemma SliceOf(a: seq<byte>, b: seq<byte>, c: seq<byte>)
    ensures (a + b + c)[|a|..|a| + |b|] == b && |a + b + c| == |a| + |b| + |c|
  {
  }

  /** The steps of a successful decode, in terms of what each read gives. */
  lemma DecodeNewSessionFrom(proto: Protocol.Constants, data: seq<byte>, sessionId: string, next: nat, nonce: seq<byte>)
    requires MessageReader.ReadU8At(data, 0).result.Ok?
    requires MessageReader.ReadLEAt(data, 1, 4).result == Ok(proto.resultCodeOk)
    requires MessageReader.ReadLEAt(data, 5, 4).result.Ok?
    requires MessageReader.ReadStringAt(data, 9) == MessageReader.Step(Ok(sessionId), next)
    requires next + |nonce| <= |data| && data[next..next + |nonce|] == nonce && |nonce| == 8
    ensures DecodeNewSession(proto, data) == Ok(NewSession(sessionId, nonce))
  {
  }

  /** The nine header bytes read as the type, the code and the version. */
  lemma NewSessionHeader(head: seq<byte>, kind: byte, code: nat, version: nat, tail: seq<byte>)
    requires code < Pow256(4) && version < Pow256(4)
    requires head == [kind] + ToLE(code, 4) + ToLE(version, 4)
    ensures var data := head + tail;
      MessageReader.ReadU8At(data, 0).result.Ok? &&
      MessageReader.ReadLEAt(data, 1, 4).result == Ok(code) &&
      MessageReader.ReadLEAt(data, 5, 4).result == Ok(version)
  {
    var data := head + tail;
    assert data[1..5] == ToLE(code, 4);
    assert data[5..9] == ToLE(version, 4);
    LEOfToLE(code, 4);
    LEOfToLE(version, 4);
  }

  /** A reply whose result code is not OK is refused, before the version
      or anything after it is read. */
  lemma DecodeNewSessionRefused(proto: Protocol.Constants, data: seq<byte>)
    requires |data| >= 5 && LE(data[1..5]) != proto.resultCodeOk
    ensures DecodeNewSession(proto, data) == Err(SessionRefused)
  {
  }

  // ---------------------------------------------------------------------
  // createNonce

  /** The nonce createNonce builds: the session nonce, the message counter
      as a u32, four zero bytes and eight random bytes. */
  function Nonce(sessionNonce: seq<byte>, counter: nat, random: seq<byte>): seq<byte>
  {
    sessionNonce + ToLE(counter, 4) + ToLE(0, 4) + random
  }

  /** A nonce is 24 bytes; it carries the session nonce, then the counter
      as a u64 that the reader reads back, then the random bytes. */
  lemma NonceLayout(sessionNonce: seq<byte>, counter: nat, random: seq<byte>)
    requires |sessionNonce| == 8 && |random| == 8 && counter < Pow256(4)
    ensures var n := Nonce(sessionNonce, counter, random);
      |n| == NONCE_BYTES && n[..8] == sessionNonce && n[16..] == random &&
      MessageReader.ReadU64At(n, 8) == MessageReader.Step(Ok(counter), 16)
  {
    var n := Nonce(sessionNonce, counter, random);
    assert n[8..12] == ToLE(counter, 4);
    assert n[12..16] == ToLE(0, 4);
    LEOfToLE(counter, 4);
    LEOfToLE(0, 4);
    LEZero(n[12..16]);
  }

  /** Nonces built with different counters differ, whatever the random
      bytes: the counter alone keeps them unique within a session. */
  lemma NonceUnique(sessionNonce: seq<byte>, c1: nat, r1: seq<byte>, c2: nat, r2: seq<byte>)
    requires c1 < Pow256(4) && c2 < Pow256(4)
    requires Nonce(sessionNonce, c1, r1) == Nonce(sessionNonce, c2, r2)
    ensures c1 == c2
  {
    var k := |sessionNonce|;
    var n := Nonce(sessionNonce, c1, r1);
    assert n[k..k + 4] == ToLE(c1, 4);
    assert Nonce(sessionNonce, c2, r2)[k..k + 4] == ToLE(c2, 4);
    LEOfToLE(c1, 4);
    LEOfToLE(c2, 4);
  }

  /** The four writes of createNonce serialise to the nonce. */
  lemma SerializeNonce(sessionNonce: seq<byte>, counter: nat, random: seq<byte>)
    requires counter < Pow256(4)
    ensures Serialize([Blob(sessionNonce), U32(counter), U32(0), Blob(random)]) ==
      Ok(Nonce(sessionNonce, counter, random))
  {
    var fs := [Blob(sessionNonce), U32(counter), U32(0), Blob(random)];
    Pow256Four();
    assert EncodeField(U32(counter)) == Some(ToLE(counter, 4));
    assert EncodeField(U32(0)) == Some(ToLE(0, 4));
    assert fs[3..][1..] == [];
    assert Serialize(fs[3..]) == Ok(random + []);
    assert random + [] == random;
    assert fs[2..][1..] == fs[3..];
    assert Serialize(fs[2..]) == Ok(ToLE(0, 4) + random);
    assert fs[1..][1..] == fs[2..];
    assert Serialize(fs[1..]) == Ok(ToLE(counter, 4) + (ToLE(0, 4) + random));
    assert Serialize(fs) == Ok(sessionNonce + (ToLE(counter, 4) + (ToLE(0, 4) + random)));
    assert sessionNonce + (ToLE(counter, 4) + (ToLE(0, 4) + random)) == Nonce(sessionNonce, counter, random);
  }

  // ---------------------------------------------------------------------
  // encryptPayload

  /** The flags byte of an outgoing container: 2 (request a key update)
      until a key update is received, then 0. The request is the bit of
      value 2 and no other bit is ever set. */
  function OutgoingFlags(keyReceived: bool): (flags: byte)
    ensures (flags / 2) % 2 == 1 <==> !keyReceived
    ensures flags == if keyReceived then 0 else 2
  {
    if keyReceived then 0 else 2
  }

  /** The writes of the container encryptPayload sends: the message id, the
      flags, the session identifier, the nonce, the announced length and
      the box. */
  function ContainerFields(proto: Protocol.Constants, flags: byte, sessionId: string, nonce: seq<byte>,
                           length: int, box: seq<byte>): seq<Field>
  {
    [U8(proto.msgCryptedContainerToServer), U8(flags), Str(Utf8.Encode(sessionId)), Blob(nonce), U32(length), Blob(box)]
  }

  /** The box encryptPayload seals: 24 random bytes, then the payload. */
  function Seal(p: Primitives, sharedSecret: seq<byte>, nonce: seq<byte>, prefix: seq<byte>, data: seq<byte>): seq<byte>
  {
    p.boxAfternm(prefix + data, nonce, sharedSecret)
  }

  /** The checks encryptPayload makes on the box once the nonce is made:
      the shared secret exists, and the box is not empty and has the
      announced length. */
  function SealChecks(p: Primitives, proto: Protocol.Constants, sharedSecret: Option<seq<byte>>, nonce: seq<byte>,
                      prefix: seq<byte>, data: seq<byte>): Outcome<CryptoError>
  {
    if sharedSecret.None? then Fail(MissingAttribute)
    else
      var box := Seal(p, sharedSecret.value, nonce, prefix, data);
      if |box| == 0 then Fail(EncryptFailed)
      else if |box| != |nonce| + proto.macLength + |data| then Fail(EncryptedSize)
      else Pass
  }

  /** What encryptPayload returns once the nonce is made: the checks on the
      box, then the container written around it. */
  function EncryptContainer(p: Primitives, proto: Protocol.Constants, keyReceived: bool, sessionId: string,
                            sharedSecret: Option<seq<byte>>, nonce: seq<byte>, prefix: seq<byte>,
                            data: seq<byte>): Result<seq<byte>, CryptoError>
  {
    match SealChecks(p, proto, sharedSecret, nonce, prefix, data)
    case Fail(e) => Err(e)
    case Pass =>
      var box := Seal(p, sharedSecret.value, nonce, prefix, data);
      match Compose(ContainerFields(proto, OutgoingFlags(keyReceived), sessionId, nonce,
                                    |nonce| + proto.macLength + |data|, box))
      case Err(e) => Err(Write(e))
      case Ok(bytes) => Ok(bytes)
  }

  /** A container is sent exactly when the box passes its checks, the
      message id is a byte, and the identifier and the box fit the
      writer's limit. */
  lemma EncryptContainerOk(p: Primitives, proto: Protocol.Constants, keyReceived: bool, sessionId: string,
                           sharedSecret: Option<seq<byte>>, nonce: seq<byte>, prefix: seq<byte>, data: seq<byte>)
    requires |nonce| == NONCE_BYTES && proto.macLength == MAC_BYTES
    ensures EncryptContainer(p, proto, keyReceived, sessionId, sharedSecret, nonce, prefix, data).Ok? <==>
      SealChecks(p, proto, sharedSecret, nonce, prefix, data).Pass? &&
      0 <= proto.msgCryptedContainerToServer <= 255 && |Utf8.Encode(sessionId)| <= MAX_DATA_LENGTH &&
      NONCE_BYTES + MAC_BYTES + |data| <= MAX_DATA_LENGTH
  {
    if SealChecks(p, proto, sharedSecret, nonce, prefix, data).Pass? {
      var box := Seal(p, sharedSecret.value, nonce, prefix, data);
      var length := |nonce| + proto.macLength + |data|;
      assert EncryptContainer(p, proto, keyReceived, sessionId, sharedSecret, nonce, prefix, data).Ok? <==>
        Compose(ContainerFields(proto, OutgoingFlags(keyReceived), sessionId, nonce, length, box)).Ok?;
      ContainerOk(proto, OutgoingFlags(keyReceived), sessionId, nonce, length, box);
      Pow256Four();
    }
  }

  /** The container's writes succeed exactly when the message id is a
      byte, the identifier and the box fit and the length is a u32. */
  lemma ContainerOk(proto: Protocol.Constants, flags: byte, sessionId: string, nonce: seq<byte>,
                    length: int, box: seq<byte>)
    requires |nonce| == NONCE_BYTES
    ensures Compose(ContainerFields(proto, flags, sessionId, nonce, length, box)).Ok? <==>
      0 <= proto.msgCryptedContainerToServer <= 255 && |Utf8.Encode(sessionId)| <= MAX_DATA_LENGTH &&
      |box| <= MAX_DATA_LENGTH && 0 <= length < Pow256(4)
  {
    var fields := ContainerFields(proto, flags, sessionId, nonce, length, box);
    ComposeOk(fields);
    StrAcceptable(Utf8.Encode(sessionId));
    assert (forall i :: 0 <= i < |fields| ==> Acceptable(fields[i])) <==>
      Acceptable(fields[0]) && Acceptable(fields[1]) && Acceptable(fields[2]) &&
      Acceptable(fields[3]) && Acceptable(fields[4]) && Acceptable(fields[5]);
  }

  /** A plaintext of at most MAX_PLAINTEXT bytes passes the size check of
      encryptPayload, but once 40 bytes of nonce and authenticator are
      added its box can exceed what writeBlob accepts: such a payload is
      refused only after the counter has moved and its prefix is pending. */
  lemma EncryptLimitGap(p: Primitives, proto: Protocol.Constants, keyReceived: bool, sessionId: string,
                        sharedSecret: Option<seq<byte>>, nonce: seq<byte>, prefix: seq<byte>, data: seq<byte>)
    requires |nonce| == NONCE_BYTES && proto.macLength == MAC_BYTES
    requires SealChecks(p, proto, sharedSecret, nonce, prefix, data).Pass?
    requires 0 <= proto.msgCryptedContainerToServer <= 255 && |Utf8.Encode(sessionId)| <= MAX_DATA_LENGTH
    requires MAX_DATA_LENGTH - NONCE_BYTES - MAC_BYTES < |data| <= MAX_PLAINTEXT
    ensures EncryptContainer(p, proto, keyReceived, sessionId, sharedSecret, nonce, prefix, data) == Err(Write(TooLong))
  {
    var box := Seal(p, sharedSecret.value, nonce, prefix, data);
    var fields := ContainerFields(proto, OutgoingFlags(keyReceived), sessionId, nonce, |box|, box);
    ComposeStops(fields, 5);
  }

  /** What is sent reads back as the container's six fields: the flags,
      the identifier, the nonce, the length of the box and the box, whose
      length is that of the nonce, the authenticator and the plaintext. */
  lemma EncryptContainerReadBack(p: Primitives, proto: Protocol.Constants, keyReceived: bool, sessionId: string,
                                 sharedSecret: Option<seq<byte>>, nonce: seq<byte>, prefix: seq<byte>,
                                 data: seq<byte>, rest: seq<byte>)
    requires EncryptContainer(p, proto, keyReceived, sessionId, sharedSecret, nonce, prefix, data).Ok?
    ensures sharedSecret.Some?
    ensures var box := Seal(p, sharedSecret.value, nonce, prefix, data);
      var fields := ContainerFields(proto, OutgoingFlags(keyReceived), sessionId, nonce, |box|, box);
      0 < |box| == |nonce| + proto.macLength + |data| &&
      ReadFields(EncryptContainer(p, proto, keyReceived, sessionId, sharedSecret, nonce, prefix, data).value + rest,
                 fields) == Ok(fields)
  {
    var box := Seal(p, sharedSecret.value, nonce, prefix, data);
    ContainerReadBack(proto, OutgoingFlags(keyReceived), sessionId, nonce, |box|, box, rest);
  }

  /** The writes of the container, in the order encryptPayload makes
      them, then toUint8Array. */
  method WriteContainer(proto: Protocol.Constants, flags: byte, sessionId: string, nonce: seq<byte>,
                        length: int, box: seq<byte>) returns (r: Result<seq<byte>, CryptoError>)
    requires |nonce| == NONCE_BYTES
    ensures r == match Compose(ContainerFields(proto, flags, sessionId, nonce, length, box))
      case Err(e) => Err(Write(e))
      case Ok(bytes) => Ok(bytes)
  {
    ContainerCompose(proto, flags, sessionId, nonce, length, box);
    var co := new Writer();
    var w := co.WriteUint8(proto.msgCryptedContainerToServer);
    if w.Fail? {
      return Err(Write(w.error));
    }
    w := co.WriteUint8(flags);
    w := co.WriteString(sessionId);
    if w.Fail? {
      return Err(Write(w.error));
    }
    w := co.WriteBlob(nonce);
    co.WriteUint32(length);
    w := co.WriteBlob(box);
    if w.Fail? {
      return Err(Write(w.error));
    }
    assert co.fields == ContainerFields(proto, flags, sessionId, nonce, length, box);
    var bytes := co.ToUint8Array();
    if bytes.Err? {
      return Err(Write(bytes.error));
    }
    return Ok(bytes.value);
  }

  /** Which write of the container raises first, if any. */
  lemma ContainerCompose(proto: Protocol.Constants, flags: byte, sessionId: string, nonce: seq<byte>,
                         length: int, box: seq<byte>)
    requires |nonce| == NONCE_BYTES
    ensures Compose(ContainerFields(proto, flags, sessionId, nonce, length, box)) ==
      if proto.msgCryptedContainerToServer > 255 then Err(NameError)
      else if |Utf8.Encode(sessionId)| > MAX_DATA_LENGTH || |box| > MAX_DATA_LENGTH then Err(TooLong)
      else Serialize(ContainerFields(proto, flags, sessionId, nonce, length, box))
  {
    var fields := ContainerFields(proto, flags, sessionId, nonce, length, box);
    if proto.msgCryptedContainerToServer > 255 {
      ComposeStops(fields, 0);
    } else if |Utf8.Encode(sessionId)| > MAX_DATA_LENGTH {
      assert WriteCheck(fields[1]).None?;
      ComposeStops(fields, 2);
    } else if |box| > MAX_DATA_LENGTH {
      assert WriteCheck(fields[1]).None? && WriteCheck(fields[2]).None?;
      assert WriteCheck(fields[3]).None? && WriteCheck(fields[4]).None?;
      ComposeStops(fields, 5);
    } else {
      ComposeChecked(fields);
    }
  }

  /** A container reads back, field by field, as what was written. */
  lemma ContainerReadBack(proto: Protocol.Constants, flags: byte, sessionId: string, nonce: seq<byte>,
                          length: int, box: seq<byte>, rest: seq<byte>)
    requires Compose(ContainerFields(proto, flags, sessionId, nonce, length, box)).Ok?
    ensures var fields := ContainerFields(proto, flags, sessionId, nonce, length, box);
      ReadFields(Compose(fields).value + rest, fields) == Ok(fields)
  {
    var fields := ContainerFields(proto, flags, sessionId, nonce, length, box);
    forall i | 0 <= i < |fields| && fields[i].Str?
      ensures Utf8.Decode(fields[i].bytes).Some?
    {
      assert i == 2;
      Utf8.DecodeEncode(sessionId);
    }
    ComposeReadBack(fields, rest);
  }

  // ---------------------------------------------------------------------
  // decryptPayload

  /** A container from the server: its flags byte and the box it carries. */
  datatype Container = Container(flags: byte, body: seq<byte>)

  /** The header checks of decryptPayload: the message type, the flags,
      an announced length that must be that of the rest of the message and
      at least the size of an authenticator. */
  function ReadContainer(message: seq<byte>): (r: Result<Container, CryptoError>)
    ensures r.Ok? <==> |message| >= 6 && LE(message[2..6]) == |message| - 6 >= MAC_BYTES
    ensures r.Ok? ==> r.value == Container(message[1], message[6..])
  {
    var t := MessageReader.ReadU8At(message, 0);
    if t.result.Err? then Err(Read(t.result.error))
    else
      var cs := MessageReader.ReadU8At(message, 1);
      if cs.result.Err? then Err(Read(cs.result.error))
      else
        var len := MessageReader.ReadLEAt(message, 2, 4);
        if len.result.Err? then Err(Read(len.result.error))
        else if len.result.value != |message[6..]| then Err(ContainerLength)
        else if len.result.value < MAC_BYTES then Err(ContainerTooShort)
        else Ok(Container(cs.result.value, message[6..]))
  }

  /** The reads of the header with a reader over the message. */
  method ReadContainerHeader(message: seq<byte>) returns (r: Result<Container, CryptoError>)
    ensures r == ReadContainer(message)
  {
    var data := new MessageReader.Reader(message);
    var gotType := data.ReadUint8();
    if gotType.Err? {
      return Err(Read(gotType.error));
    }
    var cs := data.ReadUint8();
    if cs.Err? {
      return Err(Read(cs.error));
    }
    var messageLength := data.ReadUint32();
    if messageLength.Err? {
      return Err(Read(messageLength.error));
    }
    var messageData := data.RemainingData();
    if |messageData| != messageLength.value {
      return Err(ContainerLength);
    }
    if messageLength.value < MAC_BYTES {
      return Err(ContainerTooShort);
    }
    return Ok(Container(cs.value, messageData));
  }

  /** The first pending prefix, from position `from` on, under which the
      box opens. */
  function FirstOpening(p: Primitives, body: seq<byte>, pending: seq<seq<byte>>, key: seq<byte>, from: nat)
    : (r: Option<nat>)
    ensures r.Some? ==> from <= r.value < |pending| && p.boxOpenAfternm(body, pending[r.value], key).Some?
    ensures r.Some? ==> forall j :: from <= j < r.value ==> p.boxOpenAfternm(body, pending[j], key).None?
    ensures r.None? ==> forall j :: from <= j < |pending| ==> p.boxOpenAfternm(body, pending[j], key).None?
    decreases |pending| - from
  {
    if from >= |pending| then None
    else if p.boxOpenAfternm(body, pending[from], key).Some? then Some(from)
    else FirstOpening(p, body, pending, key, from + 1)
  }

  /** Which pending prefix opened the box, and the plaintext. */
  datatype Opening = Opening(index: nat, plain: seq<byte>)

  /** The loop of decryptPayload over the pending prefixes, as intended:
      the box opens under the first prefix that opens it. With no pending
      prefix, the source goes on with a reader over None, which raises at
      its first read. */
  function OpenBody(p: Primitives, body: seq<byte>, pending: seq<seq<byte>>, sharedSecret: Option<seq<byte>>)
    : (r: Result<Opening, CryptoError>)
    ensures r.Ok? ==> sharedSecret.Some? && r.value.index < |pending|
    ensures r.Ok? ==> p.boxOpenAfternm(body, pending[r.value.index], sharedSecret.value) == Some(r.value.plain)
    ensures r.Ok? ==> forall j :: 0 <= j < r.value.index ==> p.boxOpenAfternm(body, pending[j], sharedSecret.value).None?
    ensures sharedSecret.Some? && r.Err? ==> forall j :: 0 <= j < |pending| ==> p.boxOpenAfternm(body, pending[j], sharedSecret.value).None?
  {
    if pending == [] then Err(NoPendingOpened)
    else if sharedSecret.None? then Err(MissingAttribute)
    else match FirstOpening(p, body, pending, sharedSecret.value, 0)
      case None => Err(NoPendingOpened)
      case Some(i) => Ok(Opening(i, p.boxOpenAfternm(body, pending[i], sharedSecret.value).value))
  }

  /** The loop of decryptPayload as written. crypto_box_open_afternm raises
      for a box that does not open rather than returning None, so the loop
      never gets past the first pending prefix: a box that only a later
      prefix opens raises. */
  function OpenBodyAsWritten(p: Primitives, body: seq<byte>, pending: seq<seq<byte>>, sharedSecret: Option<seq<byte>>)
    : (r: Result<Opening, CryptoError>)
    ensures r.Ok? ==> pending != [] && sharedSecret.Some? && r.value.index == 0
                      && p.boxOpenAfternm(body, pending[0], sharedSecret.value) == Some(r.value.plain)
    ensures r == Err(OpenRaised) <==>
              pending != [] && sharedSecret.Some? && p.boxOpenAfternm(body, pending[0], sharedSecret.value).None?
  {
    if pending == [] then Err(NoPendingOpened)
    else if sharedSecret.None? then Err(MissingAttribute)
    else match p.boxOpenAfternm(body, pending[0], sharedSecret.value)
      case None => Err(OpenRaised)
      case Some(m) => Ok(Opening(0, m))
  }

  /** Two requests outstanding, the reply to the second one: as written
      the first prefix's failed open raises; as intended the box opens
      under the second prefix. */
  lemma OpenAsWrittenStopsAtFirst(p: Primitives, body: seq<byte>, x: seq<byte>, y: seq<byte>, key: seq<byte>)
    requires p.boxOpenAfternm(body, x, key).None? && p.boxOpenAfternm(body, y, key).Some?
    ensures OpenBodyAsWritten(p, body, [x, y], Some(key)) == Err(OpenRaised)
    ensures OpenBody(p, body, [x, y], Some(key)) == Ok(Opening(1, p.boxOpenAfternm(body, y, key).value))
  {
    assert FirstOpening(p, body, [x, y], key, 1) == Some(1);
  }

  /** Whenever the loop as written opens the box, the search opens it
      under the same prefix; with at most one request outstanding, as in
      the handshake, the two open exactly the same replies. */
  lemma OpenAsWrittenAgrees(p: Primitives, body: seq<byte>, pending: seq<seq<byte>>, sharedSecret: Option<seq<byte>>)
    ensures OpenBodyAsWritten(p, body, pending, sharedSecret).Ok? ==>
              OpenBody(p, body, pending, sharedSecret) == OpenBodyAsWritten(p, body, pending, sharedSecret)
    ensures |pending| <= 1 ==>
              (OpenBody(p, body, pending, sharedSecret).Ok? <==> OpenBodyAsWritten(p, body, pending, sharedSecret).Ok?)
  {
    if |pending| == 1 && sharedSecret.Some? {
      assert FirstOpening(p, body, pending, sharedSecret.value, 1) == None;
    }
  }

  /** The pending loop run with the shared secret. */
  method FindOpening(p: Primitives, body: seq<byte>, pending: seq<seq<byte>>, key: seq<byte>)
    returns (r: Option<Opening>)
    ensures r.None? <==> FirstOpening(p, body, pending, key, 0).None?
    ensures r.Some? ==>
      r.value.index == FirstOpening(p, body, pending, key, 0).value &&
      Some(r.value.plain) == p.boxOpenAfternm(body, pending[r.value.index], key)
  {
    for i := 0 to |pending|
      invariant FirstOpening(p, body, pending, key, 0) == FirstOpening(p, body, pending, key, i)
    {
      var x := pending[i];
      var cX := p.boxOpenAfternm(body, x, key);
      if cX.Some? {
        return Some(Opening(i, cX.value));
      }
    }
    return None;
  }

  /** What the key update at the head of a plaintext sets: the symmetric
      key, once its 32 bytes are read, and the stream table as the entries
      leave it (the reading that reads each entry's counter,
      Crypto.ReadEntries with resync). */
  datatype KeyUpdate = KeyUpdate(key: Option<seq<byte>>, entries: TableStep)

  function ReadKeyUpdate(plain: seq<byte>, table: map<string, Stream>): (r: KeyUpdate)
    ensures r.key.Some? ==> |r.key.value| == SECRETBOX_KEY_BYTES
  {
    var b := MessageReader.ReadBlobAt(plain, 0, SECRETBOX_KEY_BYTES);
    if b.result.Err? then KeyUpdate(None, TableStep(table, Some(Read(b.result.error)), b.next))
    else
      var n := MessageReader.ReadLEAt(plain, b.next, 2);
      if n.result.Err? then KeyUpdate(Some(b.result.value), TableStep(table, Some(Read(n.result.error)), n.next))
      else KeyUpdate(Some(b.result.value), ReadEntries(plain, n.next, n.result.value, table, true))
  }

  /** A key update the server writes — the key, the entry count as two
      little-endian bytes, then the entries — reads back as that key and
      the table with every entry registered. */
  lemma KeyUpdateOf(key: seq<byte>, es: seq<(string, nat)>, post: seq<byte>, table: map<string, Stream>)
    requires |key| == SECRETBOX_KEY_BYTES && Writable(es) && |es| < Pow256(2)
    ensures ReadKeyUpdate(key + ToLE(|es|, 2) + EntriesBytes(es) + post, table) ==
      KeyUpdate(Some(key), TableStep(RegisterAll(table, es), None, SECRETBOX_KEY_BYTES + 2 + |EntriesBytes(es)|))
  {
    var data := key + ToLE(|es|, 2) + EntriesBytes(es) + post;
    var k := |key|;
    assert data[0..k] == key;
    assert data[k..k + 2] == ToLE(|es|, 2);
    LEOfToLE(|es|, 2);
    assert data[k + 2..k + 2 + |EntriesBytes(es)|] == EntriesBytes(es);
    ReadEntriesAt(data, k + 2, es, table);
  }

  /** The key update read with the reader the plaintext is given to. */
  method ApplyKeyUpdate(keyData: MessageReader.Reader, table: map<string, Stream>)
    returns (key: Option<seq<byte>>, step: TableStep)
    requires keyData.Valid() && keyData.offset == 0
    modifies keyData
    ensures keyData.Valid()
    ensures KeyUpdate(key, step) == ReadKeyUpdate(keyData.data, table)
    ensures keyData.offset == step.next
  {
    var k := keyData.ReadBlob(SECRETBOX_KEY_BYTES);
    if k.Err? {
      return None, TableStep(table, Some(Read(k.error)), keyData.offset);
    }
    key := Some(k.value);
    var numNames := keyData.ReadUint16();
    if numNames.Err? {
      return key, TableStep(table, Some(Read(numNames.error)), keyData.offset);
    }
    assert keyData.offset == SECRETBOX_KEY_BYTES + 2;
    step := ReadKeyEntries(keyData, numNames.value, table);
  }

  /** The loop over the entries of the key update: for each, its name and
      counter, and a stream opened when the name has a slash. */
  method ReadKeyEntries(keyData: MessageReader.Reader, numNames: nat, table: map<string, Stream>)
    returns (step: TableStep)
    requires keyData.Valid()
    modifies keyData
    ensures keyData.Valid()
    ensures step == ReadEntries(keyData.data, old(keyData.offset), numNames, table, true)
    ensures keyData.offset == step.next
  {
    hide ReadEntryAt, Register;
    var t := table;
    var left := numNames;
    ghost var data, pos := keyData.data, keyData.offset;
    ghost var goal := ReadEntries(data, pos, numNames, table, true);
    while left > 0
      invariant keyData.Valid() && keyData.data == data && keyData.offset == pos
      invariant goal == ReadEntries(data, pos, left, t, true)
    {
      var r := RegisterKeyEntry(keyData, left, t, goal);
      if r.Err? {
        return TableStep(t, Some(Read(r.error)), keyData.offset);
      }
      t, left, pos := r.value, left - 1, keyData.offset;
    }
    return TableStep(t, None, keyData.offset);
  }

  /** One pass of the loop: the entry read and registered, so that the rest
      of the loop runs from after it; or the exception that stops the
      loop. */
  method RegisterKeyEntry(keyData: MessageReader.Reader, left: nat, t: map<string, Stream>, ghost goal: TableStep)
    returns (r: Result<map<string, Stream>, MessageReader.ReadError>)
    requires keyData.Valid() && left > 0
    requires goal == ReadEntries(keyData.data, keyData.offset, left, t, true)
    modifies keyData
    ensures keyData.Valid()
    ensures r.Ok? ==> goal == ReadEntries(keyData.data, keyData.offset, left - 1, r.value, true)
    ensures r.Err? ==> goal == TableStep(t, Some(Read(r.error)), keyData.offset)
  {
    ghost var off := keyData.offset;
    var e := ReadKeyEntry(keyData);
    if e.Err? {
      EntriesStops(keyData.data, off, left - 1, t, e.error, keyData.offset);
      return Err(e.error);
    }
    EntriesStep(keyData.data, off, left - 1, t, true, e.value, keyData.offset);
    return Ok(Register(t, e.value));
  }

  /** An entry that cannot be read stops the loop with its exception. */
  lemma EntriesStops(data: seq<byte>, off: nat, count: nat, table: map<string, Stream>,
                     error: MessageReader.ReadError, next: nat)
    requires ReadEntryAt(data, off, true) == MessageReader.Step(Err(error), next)
    ensures ReadEntries(data, off, count + 1, table, true) == TableStep(table, Some(Read(error)), next)
  {
  }

  /** One entry of the key update: its name, then its u64 counter. */
  method ReadKeyEntry(keyData: MessageReader.Reader) returns (r: Result<Entry, MessageReader.ReadError>)
    requires keyData.Valid()
    modifies keyData
    ensures keyData.Valid()
    ensures MessageReader.Step(r, keyData.offset) == ReadEntryAt(keyData.data, old(keyData.offset), true)
    ensures r.Ok? ==> r.value.counter.Some?
  {
    var cO := keyData.ReadString();
    if cO.Err? {
      return Err(cO.error);
    }
    var cU := keyData.ReadUint64();
    if cU.Err? {
      return Err(cU.error);
    }
    return Ok(Entry(cO.value, Some(cU.value)));
  }

  /** What decryptPayload does to the session: the reader's offset or the
      exception, the plaintext, which pending prefix opened the box, the
      symmetric key read, and the table and key-received flag after it. */
  datatype Decryption = Decryption(result: Result<nat, CryptoError>, plain: seq<byte>, openedAt: Option<nat>,
                                   key: Option<seq<byte>>, table: map<string, Stream>, keyReceived: bool)

  function Decrypt(p: Primitives, message: seq<byte>, pending: seq<seq<byte>>, sharedSecret: Option<seq<byte>>,
                   table: map<string, Stream>, keyReceived: bool): (d: Decryption)
    ensures d.openedAt.Some? ==> d.openedAt.value < |pending|
  {
    match ReadContainer(message)
    case Err(e) => Decryption(Err(e), [], None, None, table, keyReceived)
    case Ok(c) =>
      match OpenBody(p, c.body, pending, sharedSecret)
      case Err(e) => Decryption(Err(e), [], None, None, table, keyReceived)
      case Ok(o) =>
        if (c.flags / 2) % 2 == 0 then Decryption(Ok(0), o.plain, Some(o.index), None, table, keyReceived)
        else
          var u := ReadKeyUpdate(o.plain, table);
          Decryption(if u.entries.error.Some? then Err(u.entries.error.value) else Ok(u.entries.next),
                     o.plain, Some(o.index), u.key, u.entries.table, keyReceived || u.entries.error.None?)
  }

  /** The reader is handed back only once a pending prefix has opened the
      box, and taking that prefix's value out of the list removes exactly
      its position: an earlier equal prefix would have opened the box
      first. */
  lemma DecryptRemovesOpened(p: Primitives, message: seq<byte>, pending: seq<seq<byte>>,
                             sharedSecret: Option<seq<byte>>, table: map<string, Stream>, keyReceived: bool)
    ensures var d := Decrypt(p, message, pending, sharedSecret, table, keyReceived);
      d.result.Ok? ==> d.openedAt.Some?
    ensures var d := Decrypt(p, message, pending, sharedSecret, table, keyReceived);
      d.openedAt.Some? ==>
        RemoveFirst(pending, pending[d.openedAt.value]) == pending[..d.openedAt.value] + pending[d.openedAt.value + 1..]
  {
    var d := Decrypt(p, message, pending, sharedSecret, table, keyReceived);
    if d.openedAt.Some? {
      var c := ReadContainer(message).value;
      var i := d.openedAt.value;
      assert FirstOpening(p, c.body, pending, sharedSecret.value, 0) == Some(i);
      forall j | 0 <= j < i
        ensures pending[j] != pending[i]
      {
        assert p.boxOpenAfternm(c.body, pending[j], sharedSecret.value).None?;
      }
      RemoveFirstAt(pending, i);
    }
  }

  // ---------------------------------------------------------------------
  // decryptPubSub

  /** b[i:j] in Python: the bounds are clipped to the length. */
  function PySlice(b: seq<byte>, i: nat, j: nat): (r: seq<byte>)
    requires i <= j
    ensures j <= |b| ==> r == b[i..j]
    ensures |b| < j ==> r == (if i <= |b| then b[i..] else [])
  {
    if j <= |b| then b[i..j] else if i <= |b| then b[i..] else []
  }

  /** The stream publish-subscribe messages are numbered in. */
  const UPDATE_STREAM: string := "update"

  /** The table once decryptPubSub has made sure "update" is in it. */
  function WithUpdateStream(table: map<string, Stream>): (t: map<string, Stream>)
    ensures UPDATE_STREAM in t && t.Keys == table.Keys + {UPDATE_STREAM}
    ensures forall k :: k in table ==> t[k] == table[k]
    ensures UPDATE_STREAM !in table ==> t[UPDATE_STREAM] == FreshUpdateStream()
  {
    if UPDATE_STREAM in table then table else table[UPDATE_STREAM := FreshUpdateStream()]
  }

  /** What decryptPubSub gives and the table it leaves. */
  datatype PubSub = PubSub(result: Result<seq<byte>, CryptoError>, table: map<string, Stream>)

  /** decryptPubSub on the text `text`: the number in bytes 16-24 (read
      as a little-endian u64) is checked against the "update" stream as
      Crypto.Sequence says, and the bytes after the 24-byte nonce are
      opened with the symmetric key. Only the "update" stream changes, and
      a message is opened only when that stream already had an int
      counter, which goes up by one. */
  function OpenPubSub(p: Primitives, text: string, table: map<string, Stream>, key: Option<seq<byte>>)
    : (r: PubSub)
    ensures forall k :: k != UPDATE_STREAM ==> (k in r.table <==> k in table)
    ensures forall k :: k != UPDATE_STREAM && k in table ==> r.table[k] == table[k]
    ensures UPDATE_STREAM in table ==> UPDATE_STREAM in r.table
    ensures r.result.Ok? ==>
      UPDATE_STREAM in table && table[UPDATE_STREAM].counter.Int? &&
      r.table[UPDATE_STREAM].counter == PyValue.Int(table[UPDATE_STREAM].counter.i + 1)
  {
    match p.b64decode(text)
    case None => PubSub(Err(Base64), table)
    case Some(b) =>
      if |b| == 0 then PubSub(Err(EmptyPubSub), table)
      else
        var n := MessageReader.ReadU64At(PySlice(b, 16, 24), 0).result;
        if n.Err? then PubSub(Err(Read(n.error)), table)
        else
          var t := WithUpdateStream(table);
          match Sequence(t[UPDATE_STREAM], n.value)
          case Err(e) => PubSub(Err(e), t)
          case Ok(st) =>
            var t' := t[UPDATE_STREAM := st];
            if key.None? then PubSub(Err(MissingAttribute), t')
            else match p.secretboxOpen(b[NONCE_BYTES..], b[..NONCE_BYTES], key.value)
              case None => PubSub(Err(DecryptFailed), t')
              case Some(m) => PubSub(Ok(m), t')
  }

  /** The stream is ready once "update" has an int counter. */
  predicate UpdateReady(table: map<string, Stream>)
  {
    UPDATE_STREAM in table && table[UPDATE_STREAM].counter.Int?
  }

  /** Until a key update registers "update", every message is refused and
      the stream stays unready: decryptPubSub creates it with the string
      "cU" as its counter, which the comparison with the number refuses. */
  lemma PubSubRefusedUntilReady(p: Primitives, text: string, table: map<string, Stream>, key: Option<seq<byte>>)
    requires !UpdateReady(table)
    ensures OpenPubSub(p, text, table, key).result.Err?
    ensures !UpdateReady(OpenPubSub(p, text, table, key).table)
  {
    var r := OpenPubSub(p, text, table, key);
    if UPDATE_STREAM in r.table {
      var t := WithUpdateStream(table);
      assert !t[UPDATE_STREAM].counter.Int?;
    }
  }

  /** A key entry for ".../update" or ".../update_encrypted" makes the
      stream ready, with the counter the entry carries. */
  lemma KeyEntryReadiesUpdate(table: map<string, Stream>, path: string, counter: nat)
    ensures var t := Register(table, Entry(path + "/" + UPDATE_STREAM + ENCRYPTED_SUFFIX, Some(counter)));
      UpdateReady(t) && t[UPDATE_STREAM] == Stream(PyValue.Int(counter), [])
    ensures var t := Register(table, Entry(path + "/" + UPDATE_STREAM, Some(counter)));
      UpdateReady(t) && t[UPDATE_STREAM] == Stream(PyValue.Int(counter), [])
  {
    hide LastSlash, StreamName;
    StreamNameOf(path, UPDATE_STREAM);
    var full := path + "/" + UPDATE_STREAM + ENCRYPTED_SUFFIX;
    var short := path + "/" + UPDATE_STREAM;
    assert Register(table, Entry(full, Some(counter))) == table[UPDATE_STREAM := Stream(PyValue.Int(counter), [])];
    assert Register(table, Entry(short, Some(counter))) == table[UPDATE_STREAM := Stream(PyValue.Int(counter), [])];
  }

  /** The message numbered one above the counter opens when its box does,
      and leaves the skipped list as it was. */
  lemma PubSubInOrder(p: Primitives, text: string, table: map<string, Stream>, key: seq<byte>,
                      b: seq<byte>, c: nat, m: seq<byte>)
    requires UPDATE_STREAM in table && table[UPDATE_STREAM].counter == PyValue.Int(c)
    requires |table[UPDATE_STREAM].skipped| <= MAX_SKIPPED && c + 1 < Pow256(4)
    requires p.b64decode(text) == Some(b) && |b| >= 24
    requires b[16..24] == ToLE(c + 1, 4) + [0, 0, 0, 0]
    requires p.secretboxOpen(b[NONCE_BYTES..], b[..NONCE_BYTES], key) == Some(m)
    ensures OpenPubSub(p, text, table, Some(key)) ==
      PubSub(Ok(m), table[UPDATE_STREAM := Stream(PyValue.Int(c + 1), table[UPDATE_STREAM].skipped)])
  {
    var data := PySlice(b, 16, 24);
    LEOfToLE(c + 1, 4);
    assert data[0..4] == ToLE(c + 1, 4) && data[4..8] == [0, 0, 0, 0];
    assert MessageReader.ReadU64At(data, 0).result == Ok(c + 1);
    SequenceInOrder(table[UPDATE_STREAM], c);
  }

  /** The skipped list of the stream stays within 32 entries. */
  lemma PubSubBounded(p: Primitives, text: string, table: map<string, Stream>, key: Option<seq<byte>>)
    requires UPDATE_STREAM in table && |table[UPDATE_STREAM].skipped| <= MAX_SKIPPED
    ensures |OpenPubSub(p, text, table, key).table[UPDATE_STREAM].skipped| <= MAX_SKIPPED
  {
    var r := OpenPubSub(p, text, table, key);
    if r.table != table {
      var b := p.b64decode(text).value;
      var n := MessageReader.ReadU64At(PySlice(b, 16, 24), 0).result.value;
      SequenceBounded(table[UPDATE_STREAM], n);
    }
  }

  /** As the counter goes up by one per message, a message numbered ahead
      leaves the counter behind it: after 5 is accepted at counter 0, the
      number 1 is accepted twice, once as in order and once as skipped. */
  lemma SequenceAheadRepeats()
    ensures var s1 := Sequence(Stream(PyValue.Int(0), []), 5);
      s1.Ok? && s1.value.counter == PyValue.Int(1) && 1 in s1.value.skipped &&
      var s2 := Sequence(s1.value, 1);
      s2.Ok? && Sequence(s2.value, 1).Ok?
  {
    GapExact(0, 5, 1);
    var s1 := Sequence(Stream(PyValue.Int(0), []), 5);
    assert s1.value.skipped == Trim([] + Gap(0, 5));
    TrimBounded([] + Gap(0, 5));
    assert [] + Gap(0, 5) == Gap(0, 5);
  }

  // ---------------------------------------------------------------------
  // processSaslChallenge and processSaslFinal

  /** What processSaslChallenge answers to the server-first message
      `response` once the client-first message `clientFirst` was sent:
      the client-final message with its proof, or why setServerFirst or
      createClientFinal raised. */
  function SaslChallengeReply(p: Primitives, password: string, clientFirst: Option<string>, response: string)
    : (r: Result<string, CryptoError>)
    ensures r.Ok? <==> ClientScram.ParseServerFirst(p, response).Ok? && clientFirst.Some?
    ensures ClientScram.ParseServerFirst(p, response).Err? ==>
      r == Err(Scram(ClientScram.ParseServerFirst(p, response).error))
  {
    match ClientScram.ParseServerFirst(p, response)
    case Err(e) => Err(Scram(e))
    case Ok(sf) =>
      if clientFirst.None? then Err(Scram(ClientScram.MissingState))
      else
        var clientKey := ClientScram.ClientKey(p, password, sf.salt, sf.iterations);
        var authMessage := ClientScram.AuthMessage(clientFirst.value, response, sf.nonce);
        var proof := ClientScram.ByteXor(ClientScram.ClientSignature(p, clientKey, authMessage), clientKey);
        Ok(ClientScram.ClientFinalWithoutProof(sf.nonce) + ",p=" + p.b64encode(proof))
  }

  /** An accepted challenge is answered with "c=biws,r=" and the server's
      nonce, then the proof; the check for an empty reply that follows in
      the source never fires. The proof is one a server holding
      SHA-256(ClientKey) verifies. */
  lemma SaslChallengeReplyShape(p: Primitives, password: string, clientFirst: string, response: string)
    requires ClientScram.ParseServerFirst(p, response).Ok?
    ensures var sf := ClientScram.ParseServerFirst(p, response).value;
      var clientKey := ClientScram.ClientKey(p, password, sf.salt, sf.iterations);
      var authMessage := ClientScram.AuthMessage(clientFirst, response, sf.nonce);
      var proof := ClientScram.ByteXor(ClientScram.ClientSignature(p, clientKey, authMessage), clientKey);
      var r := SaslChallengeReply(p, password, Some(clientFirst), response).value;
      |r| > 0 && r[..9] == "c=biws,r=" && r[9..9 + |sf.nonce|] == sf.nonce &&
      p.sha256(ClientScram.ByteXor(proof, ClientScram.ClientSignature(p, clientKey, authMessage))) == p.sha256(clientKey)
  {
    hide ClientScram.ParseServerFirst;
    var sf := ClientScram.ParseServerFirst(p, response).value;
    var clientKey := ClientScram.ClientKey(p, password, sf.salt, sf.iterations);
    var authMessage := ClientScram.AuthMessage(clientFirst, response, sf.nonce);
    var proof := ClientScram.ByteXor(ClientScram.ClientSignature(p, clientKey, authMessage), clientKey);
    var r := SaslChallengeReply(p, password, Some(clientFirst), response).value;
    assert r == "c=biws,r=" + sf.nonce + (",p=" + p.b64encode(proof));
    ClientScram.ProofVerifies(p, clientKey, authMessage);
  }

  /** What processSaslFinal makes of the server-final message `x`. */
  function SaslFinalCheck(p: Primitives, serverKey: Option<Digest>, authMessage: Option<string>, x: string)
    : (r: Outcome<CryptoError>)
    ensures r.Pass? <==> (serverKey.Some? && authMessage.Some? &&
      ClientScram.SearchItem(x, 'v') == ClientScram.ServerSignature(p, serverKey.value, authMessage.value))
  {
    if serverKey.None? || authMessage.None? then Fail(Scram(ClientScram.MissingState))
    else if ClientScram.SearchItem(x, 'v') != ClientScram.ServerSignature(p, serverKey.value, authMessage.value)
    then Fail(Scram(ClientScram.ServerSignatureMismatch))
    else Pass
  }

  // ---------------------------------------------------------------------
  // The session object

  class Session {
    const prims: Primitives
    const proto: Protocol.Constants
    const jid: string
    const password: string
    const iterations: int
    /** The salt, base64-decoded as the constructor does. */
    const salt: seq<byte>
    const scram: ClientScram.Handler
    /** The stream table (__Yq). */
    var table: map<string, Stream>
    /** Whether a key update has been received (__Yv). */
    var keyReceived: bool
    var messageCounter: int
    /** The random prefixes of boxes sent and not yet answered (__Yp). */
    var pending: seq<seq<byte>>
    var publicKey: Option<seq<byte>>
    var secretKey: Option<seq<byte>>
    /** cryptoIntermediateData: crypto_box_beforenm of the server's public key. */
    var sharedSecret: Option<seq<byte>>
    /** The session identifier (__Ys). */
    var sessionId: Option<string>
    /** The session nonce (__Yt). */
    var sessionNonce: Option<seq<byte>>
    /** The symmetric key of publish-subscribe messages (__Key). */
    var symmetricKey: Option<seq<byte>>

    /** The counter starts at 1 and only grows; the session nonce is read
        as eight bytes, after the identifier. */
    ghost predicate Valid()
      reads this
    {
      scram.prims == prims && messageCounter >= 1 &&
      (sessionNonce.Some? ==> sessionId.Some? && |sessionNonce.value| == 8)
    }

    constructor (prims: Primitives, proto: Protocol.Constants, jid: string, password: string,
                 iterations: int, salt: seq<byte>)
      ensures Valid()
      ensures this.prims == prims && this.proto == proto && this.jid == jid
      ensures this.password == password && this.iterations == iterations && this.salt == salt
      ensures table == map[] && !keyReceived && messageCounter == 1 && pending == []
      ensures publicKey == secretKey == sharedSecret == sessionNonce == symmetricKey == None
      ensures sessionId == None
      ensures fresh(scram) && scram.scram == None && scram.serverKey == None && scram.authMessage == None
    {
      this.prims := prims;
      this.proto := proto;
      this.jid := jid;
      this.password := password;
      this.iterations := iterations;
      this.salt := salt;
      table := map[];
      scram := new ClientScram.Handler(prims);
      keyReceived := false;
      messageCounter := 1;
      pending := [];
      publicKey, secretKey, sharedSecret := None, None, None;
      sessionId, sessionNonce, symmetricKey := None, None, None;
    }

    /** generateKeypair: `keypair` is what crypto_box_keypair returned. */
    method GenerateKeypair(keypair: (seq<byte>, seq<byte>))
      requires Valid()
      modifies this
      ensures Valid()
      ensures publicKey == Some(keypair.0) && secretKey == Some(keypair.1)
      ensures table == old(table) && keyReceived == old(keyReceived) && messageCounter == old(messageCounter)
      ensures pending == old(pending) && sharedSecret == old(sharedSecret) && symmetricKey == old(symmetricKey)
      ensures sessionId == old(sessionId) && sessionNonce == old(sessionNonce)
    {
      publicKey := Some(keypair.0);
      secretKey := Some(keypair.1);
    }

    /** generateSharedKey: PBKDF2-HMAC-SHA256 of the password under the
        salt. */
    function SharedKey(): Digest
    {
      prims.pbkdf2HmacSha256(Utf8.Encode(password), salt, iterations)
    }

    /** generateLocalKey: the authenticator of the shared key under 16
        random bytes; `random` stands for those bytes. */
    method GenerateLocalKey(random: seq<byte>) returns (r: Result<seq<byte>, CryptoError>)
      requires |random| == 16
      ensures r == MakeAuthenticator(prims, publicKey, SharedKey(), random)
      ensures publicKey.Some? && |publicKey.value| == 32 ==>
        r.Ok? && |r.value| == 64 && r.value[..32] == publicKey.value && r.value[32..48] == random
      ensures publicKey.None? ==> r == Err(MissingAttribute)
    {
      var sharedKey := SharedKey();
      r := MakeAuthenticator(prims, publicKey, sharedKey, random);
    }

    /** completeKeyExchange: parse the reply and derive the shared secret
        from the server's public key; the session identifier is returned.
        The parse is the one that checks the authenticator and reads four
        length bytes (Crypto.ParseKeyExchange). */
    method CompleteKeyExchange(data: seq<byte>) returns (r: Result<string, CryptoError>)
      requires Valid()
      modifies this
      ensures Valid()
      ensures var k := ParseKeyExchange(prims, data, SharedKey());
        if k.Err? then r == Err(k.error) && sharedSecret == old(sharedSecret)
        else if secretKey.None? then r == Err(MissingAttribute) && sharedSecret == old(sharedSecret)
        else r == Ok(k.value.sessionId) && sharedSecret == Some(prims.boxBeforenm(k.value.publicKey, secretKey.value))
      ensures table == old(table) && keyReceived == old(keyReceived) && messageCounter == old(messageCounter)
      ensures pending == old(pending) && symmetricKey == old(symmetricKey)
      ensures sessionId == old(sessionId) && sessionNonce == old(sessionNonce)
      ensures publicKey == old(publicKey) && secretKey == old(secretKey)
    {
      var sharedKey := SharedKey();
      var k := ParseKeyExchange(prims, data, sharedKey);
      if k.Err? {
        return Err(k.error);
      }
      if secretKey.None? {
        return Err(MissingAttribute);
      }
      sharedSecret := Some(prims.boxBeforenm(k.value.publicKey, secretKey.value));
      return Ok(k.value.sessionId);
    }

    /** decodeNewSessionResult: the identifier is stored as soon as it is
        read, the nonce after it. */
    method DecodeNewSessionResult(newsession: seq<byte>) returns (r: Outcome<CryptoError>)
      requires Valid()
      modifies this
      ensures Valid()
      ensures var d := DecodeNewSession(proto, newsession);
        (r.Pass? <==> d.Ok?) && (r.Fail? ==> r.error == d.error)
      ensures sessionId == if NewSessionId(proto, newsession).Ok? then Some(NewSessionId(proto, newsession).value)
        else old(sessionId)
      ensures sessionNonce == if r.Pass? then Some(DecodeNewSession(proto, newsession).value.nonce)
        else old(sessionNonce)
      ensures table == old(table) && keyReceived == old(keyReceived) && messageCounter == old(messageCounter)
      ensures pending == old(pending) && symmetricKey == old(symmetricKey) && sharedSecret == old(sharedSecret)
      ensures publicKey == old(publicKey) && secretKey == old(secretKey)
    {
      var id, decoded := ReadNewSession(proto, newsession);
      if id.Ok? {
        sessionId := Some(id.value);
      }
      if decoded.Err? {
        return Fail(decoded.error);
      }
      sessionNonce := Some(decoded.value.nonce);
      return Pass;
    }

    /** decryptPayload: check the header, open the box with the first
        pending prefix that opens it and take that prefix out, then, when
        the flags ask for it, read the key update. The reader over the
        plaintext is returned where the reads stopped. */
    method DecryptPayload(message: seq<byte>) returns (r: Result<MessageReader.Reader, CryptoError>)
      requires Valid()
      modifies this
      ensures Valid()
      ensures messageCounter == old(messageCounter) && sharedSecret == old(sharedSecret)
      ensures sessionId == old(sessionId) && sessionNonce == old(sessionNonce)
      ensures publicKey == old(publicKey) && secretKey == old(secretKey)
      ensures var d := Decrypt(prims, message, old(pending), sharedSecret, old(table), old(keyReceived));
        (r.Ok? <==> d.result.Ok?) && (r.Err? ==> r.error == d.result.error) &&
        (r.Ok? ==> fresh(r.value) && r.value.Valid() && r.value.data == d.plain && r.value.offset == d.result.value) &&
        pending == (if d.openedAt.Some? then RemoveFirst(old(pending), old(pending)[d.openedAt.value]) else old(pending)) &&
        symmetricKey == (if d.key.Some? then d.key else old(symmetricKey)) &&
        table == d.table && keyReceived == d.keyReceived
    {
      hide ReadKeyUpdate, ReadContainer, FirstOpening;
      var c := ReadContainerHeader(message);
      if c.Err? {
        return Err(c.error);
      }
      if pending == [] {
        return Err(NoPendingOpened);
      }
      if sharedSecret.None? {
        return Err(MissingAttribute);
      }
      var o := FindOpening(prims, c.value.body, pending, sharedSecret.value);
      if o.None? {
        return Err(NoPendingOpened);
      }
      pending := RemoveFirst(pending, pending[o.value.index]);
      var keyData := new MessageReader.Reader(o.value.plain);
      if (c.value.flags / 2) % 2 == 1 {
        var key, step := ApplyKeyUpdate(keyData, table);
        if key.Some? {
          symmetricKey := key;
        }
        table := step.table;
        if step.error.Some? {
          return Err(step.error.value);
        }
        keyReceived := true;
      }
      return Ok(keyData);
    }

    /** processSaslChallenge: read the server-first message from the
        reader, pass it to the SCRAM handler and answer with the
        client-final message. */
    method ProcessSaslChallenge(messageReader: MessageReader.Reader) returns (r: Result<string, CryptoError>)
      requires Valid() && messageReader.Valid()
      modifies messageReader, scram
      ensures Valid() && messageReader.Valid()
      ensures var s := MessageReader.ReadStringAt(messageReader.data, old(messageReader.offset));
        messageReader.offset == s.next &&
        r == if s.result.Err? then Err(Read(s.result.error))
             else SaslChallengeReply(prims, password, old(scram.scram), s.result.value)
      ensures scram.scram == old(scram.scram)
      ensures r.Ok? ==>
        var response := MessageReader.ReadStringAt(messageReader.data, old(messageReader.offset)).result.value;
        var sf := ClientScram.ParseServerFirst(prims, response).value;
        scram.serverKey == Some(ClientScram.ServerKey(prims, password, sf.salt, sf.iterations)) &&
        scram.authMessage == Some(ClientScram.AuthMessage(scram.scram.value, response, sf.nonce))
    {
      hide ClientScram.ParseServerFirst, ClientScram.SearchItem, ClientScram.CheckAttributes;
      var dq := messageReader.ReadString();
      if dq.Err? {
        return Err(Read(dq.error));
      }
      var first := scram.SetServerFirst(dq.value, password);
      if first.Fail? {
        return Err(Scram(first.error));
      }
      var clientFinal := scram.CreateClientFinal();
      if clientFinal.Err? {
        return Err(Scram(clientFinal.error));
      }
      return Ok(clientFinal.value);
    }

    /** processSaslFinal: read the server-final message and have the SCRAM
        handler verify the server's signature. */
    method ProcessSaslFinal(messageReader: MessageReader.Reader) returns (r: Outcome<CryptoError>)
      requires Valid() && messageReader.Valid()
      modifies messageReader
      ensures messageReader.Valid()
      ensures var s := MessageReader.ReadStringAt(messageReader.data, old(messageReader.offset));
        messageReader.offset == s.next &&
        r == if s.result.Err? then Fail(Read(s.result.error))
             else SaslFinalCheck(prims, scram.serverKey, scram.authMessage, s.result.value)
    {
      var dr := messageReader.ReadString();
      if dr.Err? {
        return Fail(Read(dr.error));
      }
      var v := scram.SetServerFinal(dr.value);
      if v.Fail? {
        return Fail(Scram(v.error));
      }
      return Pass;
    }

    /** decryptPubSub: `data` is the base64 text of the message. The table
        keeps what the call did to it even when the call then raises. */
    method DecryptPubSub(data: string) returns (r: Result<seq<byte>, CryptoError>)
      requires Valid()
      modifies this
      ensures Valid()
      ensures PubSub(r, table) == OpenPubSub(prims, data, old(table), symmetricKey)
      ensures keyReceived == old(keyReceived) && messageCounter == old(messageCounter) && pending == old(pending)
      ensures symmetricKey == old(symmetricKey) && sharedSecret == old(sharedSecret)
      ensures sessionId == old(sessionId) && sessionNonce == old(sessionNonce)
      ensures publicKey == old(publicKey) && secretKey == old(secretKey)
    {
      var decoded := prims.b64decode(data);
      if decoded.None? {
        return Err(Base64);
      }
      var dataBytes := decoded.value;
      if |dataBytes| == 0 {
        return Err(EmptyPubSub);
      }
      var nonce := PySlice(dataBytes, 0, NONCE_BYTES);
      var messageReader := new MessageReader.Reader(PySlice(dataBytes, 16, 24));
      var nonceNumber := messageReader.ReadUint64();
      if nonceNumber.Err? {
        return Err(Read(nonceNumber.error));
      }
      if UPDATE_STREAM !in table {
        table := table[UPDATE_STREAM := FreshUpdateStream()];
      }
      var st := Sequence(table[UPDATE_STREAM], nonceNumber.value);
      if st.Err? {
        return Err(st.error);
      }
      table := table[UPDATE_STREAM := st.value];
      if symmetricKey.None? {
        return Err(MissingAttribute);
      }
      var pubSubMessage := prims.secretboxOpen(dataBytes[NONCE_BYTES..], nonce, symmetricKey.value);
      if pubSubMessage.None? {
        return Err(DecryptFailed);
      }
      return Ok(pubSubMessage.value);
    }

    /** createNonce: `random` stands for the eight random bytes. The counter
        goes up once the session nonce is written, even when the call then
        raises because the counter has run past 2^32. */
    method CreateNonce(random: seq<byte>) returns (r: Result<seq<byte>, CryptoError>)
      requires Valid() && |random| == 8
      modifies this
      ensures Valid()
      ensures table == old(table) && keyReceived == old(keyReceived) && pending == old(pending)
      ensures symmetricKey == old(symmetricKey) && sharedSecret == old(sharedSecret)
      ensures sessionId == old(sessionId) && sessionNonce == old(sessionNonce)
      ensures publicKey == old(publicKey) && secretKey == old(secretKey)
      ensures sessionNonce.None? ==> r == Err(MissingAttribute) && messageCounter == old(messageCounter)
      ensures sessionNonce.Some? ==> messageCounter == old(messageCounter) + 1
      ensures sessionNonce.Some? && old(messageCounter) >= MAX_MESSAGE_COUNTER ==> r == Err(CounterExhausted)
      ensures sessionNonce.Some? && old(messageCounter) < MAX_MESSAGE_COUNTER ==>
        r == Ok(Nonce(sessionNonce.value, old(messageCounter), random))
    {
      if sessionNonce.None? {
        return Err(MissingAttribute);
      }
      var counter := messageCounter;
      var cl := new Writer();
      var w := cl.WriteBlob(sessionNonce.value);
      cl.WriteUint32(messageCounter);
      messageCounter := messageCounter + 1;
      cl.WriteUint32(0);
      if messageCounter > MAX_MESSAGE_COUNTER {
        return Err(CounterExhausted);
      }
      w := cl.WriteBlob(random);
      assert cl.fields == [Blob(sessionNonce.value), U32(counter), U32(0), Blob(random)];
      SerializeNonce(sessionNonce.value, counter, random);
      var bytes := cl.ToUint8Array();
      return Ok(bytes.value);
    }

    /** encryptPayload: `prefix` stands for the 24 random bytes sealed in
        front of the payload and `nonceRandom` for the 8 random bytes of the
        nonce. The prefix is pending once the box passes its checks, even
        when the container is then refused. */
    method EncryptPayload(data: seq<byte>, prefix: seq<byte>, nonceRandom: seq<byte>)
      returns (r: Result<seq<byte>, CryptoError>)
      requires Valid() && |prefix| == NONCE_BYTES && |nonceRandom| == 8
      modifies this
      ensures Valid()
      ensures table == old(table) && keyReceived == old(keyReceived)
      ensures symmetricKey == old(symmetricKey) && sharedSecret == old(sharedSecret)
      ensures sessionId == old(sessionId) && sessionNonce == old(sessionNonce)
      ensures publicKey == old(publicKey) && secretKey == old(secretKey)
      ensures |data| > MAX_PLAINTEXT ==>
        r == Err(PlaintextTooLarge) && messageCounter == old(messageCounter) && pending == old(pending)
      ensures |data| <= MAX_PLAINTEXT && sessionNonce.None? ==>
        r == Err(MissingAttribute) && messageCounter == old(messageCounter) && pending == old(pending)
      ensures |data| <= MAX_PLAINTEXT && sessionNonce.Some? ==> messageCounter == old(messageCounter) + 1
      ensures |data| <= MAX_PLAINTEXT && sessionNonce.Some? && old(messageCounter) >= MAX_MESSAGE_COUNTER ==>
        r == Err(CounterExhausted) && pending == old(pending)
      ensures |data| <= MAX_PLAINTEXT && sessionNonce.Some? && old(messageCounter) < MAX_MESSAGE_COUNTER ==>
        var nonce := Nonce(sessionNonce.value, old(messageCounter), nonceRandom);
        sessionId.Some? &&
        r == EncryptContainer(prims, proto, keyReceived, sessionId.value, sharedSecret, nonce, prefix, data) &&
        pending == old(pending) + if SealChecks(prims, proto, sharedSecret, nonce, prefix, data).Pass? then [prefix] else []
    {
      if |data| > MAX_PLAINTEXT {
        return Err(PlaintextTooLarge);
      }
      var cq: byte := 0;
      if !keyReceived {
        cq := 2;
      }
      var nonce := CreateNonce(nonceRandom);
      if nonce.Err? {
        return Err(nonce.error);
      }
      var cn := |nonce.value| + proto.macLength + |data|;
      if sharedSecret.None? {
        return Err(MissingAttribute);
      }
      var cr := prims.boxAfternm(prefix + data, nonce.value, sharedSecret.value);
      if |cr| == 0 {
        return Err(EncryptFailed);
      }
      if |cr| != cn {
        return Err(EncryptedSize);
      }
      pending := pending + [prefix];
      r := WriteContainer(proto, cq, sessionId.value, nonce.value, cn, cr);
    }
  }
}
