/** The session cryptography of custom_components/freeathome/fah/crypto.py,
    stated on values: the authenticator of the key exchange, the parser of
    the key-exchange reply, the sequence bookkeeping of encrypted
    publish-subscribe messages, the key table carried by a decrypted
    container and the two SASL payload builders. The object that holds the
    session state and runs these steps is CryptoSession.Session. */
module Crypto {
  import opened Wrappers
  import opened PyList
  import opened Bytes
  import Utf8
  import opened Primitives
  import PyValue
  import MessageReader
  import opened MessageWriter
  import ClientScram
  import Protocol

  /** crypto_box_NONCEBYTES */
  const NONCE_BYTES: nat := 24
  /** crypto_box_MACBYTES, that is crypto_box_ZEROBYTES - crypto_box_BOXZEROBYTES */
  const MAC_BYTES: nat := 16
  /** crypto_secretbox_KEYBYTES */
  const SECRETBOX_KEY_BYTES: nat := 32
  const KEY_EXCHANGE_VERSION: nat := 2
  /** The longest string extractData accepts. */
  const MAX_KEY_STRING: nat := 20000000
  /** The largest plaintext encryptPayload accepts. */
  const MAX_PLAINTEXT: nat := 10485760
  /** createNonce refuses a message counter above this. */
  const MAX_MESSAGE_COUNTER: nat := 4294967296
  /** The skipped-sequence list of a stream is trimmed to this many entries. */
  const MAX_SKIPPED: nat := 32
  /** At most this many skipped numbers are recorded for one message. */
  const MAX_SKIP_STEP: nat := 16

  /** Why a step raises. */
  datatype CryptoError =
    | ShortKeyExchange             // reply shorter than 8 bytes
    | KeyExchangeVersion(v: nat)   // version other than 2
    | KeyExchangeCode(code: nat)   // error code other than 0 and 25
    | ShortAuthenticator           // no room for the two 16-byte halves
    | AuthenticationFailed         // the server's tag does not verify
    | ShortPublicKey               // fewer than 32 bytes left for the key
    | ExtractShort                 // no room for a length prefix
    | ExtractEmpty                 // length 0
    | ExtractTooLong               // length above MAX_KEY_STRING
    | ExtractBeyondBuffer          // length beyond the buffer
    | ExtractUtf8                  // text not valid UTF-8
    | UnexpectedTokenSize          // authenticator parts not 64 bytes in all
    | MissingAttribute             // an attribute read before it was set
    | Base64                       // b64decode raised
    | EmptyPubSub                  // nothing to decrypt
    | Read(r: MessageReader.ReadError)
    | Write(w: WriteError)
    | TypeError                    // an int compared with a str
    | UnexpectedSequence           // an old number that was not skipped
    | DecryptFailed                // secretbox_open refused the message
    | SessionRefused               // result code other than OK
    | CounterExhausted             // message counter above 2^32
    | PlaintextTooLarge
    | EncryptFailed                // the box came back empty
    | EncryptedSize                // the box has an unexpected length
    | ContainerLength              // declared length differs from what follows
    | ContainerTooShort            // less than a MAC
    | NoPendingOpened              // no pending nonce prefix opens the box
    | OpenRaised                   // crypto_box_open_afternm raised for a box that does not open
    | Scram(s: ClientScram.ScramError)
    | EmptyClientFinal

  // ---------------------------------------------------------------------
  // The authenticator (makeAuthenticator, validateAuthenticator)

  /** makeAuthenticator(message, key): the public key, then key, then the
      Poly1305 tag of the public key under generichash(message, key). */
  function MakeAuthenticator(p: Primitives, publicKey: Option<seq<byte>>, message: seq<byte>, key: seq<byte>)
    : (r: Result<seq<byte>, CryptoError>)
    ensures r.Ok? <==> publicKey.Some? && |publicKey.value| + |key| == 48
    ensures r.Ok? ==> |r.value| == 64 && r.value[..|publicKey.value|] == publicKey.value
    ensures r.Ok? ==> r.value[|publicKey.value|..48] == key
  {
    var hash := p.generichash(message, key);
    if publicKey.None? then Err(MissingAttribute)
    else
      var token := p.poly1305(publicKey.value, hash);
      if |publicKey.value| + |key| + |token| != 64 then Err(UnexpectedTokenSize)
      else Ok(publicKey.value + key + token)
  }

  /** validateAuthenticator(message2, message, token, key): 0 when token is
      the Poly1305 tag of message2 under generichash(key, message), -1
      otherwise; the comparison is crypto_verify_16 (TweetNacl.Vn). */
  function ValidateAuthenticator(p: Primitives, message2: seq<byte>, message: seq<byte>, token: seq<byte>, key: seq<byte>): (r: int)
    ensures r == 0 || r == -1
    ensures r == 0 <==> token == p.poly1305(message2, p.generichash(key, message))
  {
    var keyHash := p.generichash(key, message);
    if token == p.poly1305(message2, keyHash) then 0 else -1
  }

  /** An authenticator validates against the shared key it was made with:
      its three parts are the message2, message and token that
      validateAuthenticator takes. */
  lemma AuthenticatorValidates(p: Primitives, publicKey: seq<byte>, sharedKey: seq<byte>, random: seq<byte>)
    requires |publicKey| + |random| == 48
    ensures var a := MakeAuthenticator(p, Some(publicKey), sharedKey, random);
      a.Ok? && ValidateAuthenticator(p, a.value[..|publicKey|], a.value[|publicKey|..48], a.value[48..], sharedKey) == 0
  {
    var a := MakeAuthenticator(p, Some(publicKey), sharedKey, random).value;
    assert a[48..] == p.poly1305(publicKey, p.generichash(sharedKey, random));
  }

  // ---------------------------------------------------------------------
  // extractData

  /** extractData(data, pos) with a length prefix of `width` bytes read at
      pos (the prefix always takes four): the decoded text and the number
      of bytes taken. */
  function Extract(data: seq<byte>, pos: nat, width: nat): (r: Result<(string, nat), CryptoError>)
    requires width <= 4
    ensures r.Ok? ==> 5 <= r.value.1 && pos + r.value.1 <= |data|
    ensures r.Ok? ==> Utf8.Encode(r.value.0) == data[pos + 4..pos + r.value.1]
    ensures |data| < pos + 4 <==> r == Err(ExtractShort)
  {
    if |data| < pos + 4 then Err(ExtractShort)
    else ExtractText(data, pos, LE(data[pos..pos + width]))
  }

  /** The checks of extractData once the length is known. */
  function ExtractText(data: seq<byte>, pos: nat, length: nat): (r: Result<(string, nat), CryptoError>)
    requires pos + 4 <= |data|
    ensures r.Ok? ==> r.value.1 == 4 + length && 0 < length && pos + r.value.1 <= |data|
    ensures r.Ok? ==> Utf8.Encode(r.value.0) == data[pos + 4..pos + r.value.1]
    ensures r != Err(ExtractShort)
  {
    if length == 0 then Err(ExtractEmpty)
    else if length > MAX_KEY_STRING then Err(ExtractTooLong)
    else if length > |data| - pos - 4 then Err(ExtractBeyondBuffer)
    else match Utf8.Decode(data[pos + 4..pos + 4 + length])
      case None => Err(ExtractUtf8)
      case Some(text) =>
        Utf8.EncodeDecode(data[pos + 4..pos + 4 + length]);
        Ok((text, 4 + length))
  }

  /** extractData as written: the length is read from three bytes only. */
  function ExtractDataAsWritten(data: seq<byte>, pos: nat): (r: Result<(string, nat), CryptoError>)
    ensures r != Err(ExtractTooLong)
  {
    if |data| < pos + 4 then Extract(data, pos, 3)
    else
      LEBound(data[pos..pos + 3]);
      assert Pow256(3) == 16777216;
      Extract(data, pos, 3)
  }

  /** extractData with the four-byte length its four-byte prefix carries. */
  function ExtractData(data: seq<byte>, pos: nat): (r: Result<(string, nat), CryptoError>)
    ensures |data| < pos + 4 <==> r == Err(ExtractShort)
    ensures r.Ok? ==> r.value.1 == 4 + LE(data[pos..pos + 4]) && pos + r.value.1 <= |data|
                      && Utf8.Encode(r.value.0) == data[pos + 4..pos + r.value.1]
  {
    Extract(data, pos, 4)
  }

  /** When extractData accepts, it takes what readString would read at the
      same place. */
  lemma ExtractDataReads(data: seq<byte>, pos: nat)
    requires ExtractData(data, pos).Ok?
    ensures var e := ExtractData(data, pos).value;
      MessageReader.ReadStringAt(data, pos) == MessageReader.Step(Ok(e.0), pos + e.1)
  {
    var e := ExtractData(data, pos).value;
    var length := LE(data[pos..pos + 4]);
    assert e.1 == 4 + length;
    var text := Utf8.Decode(data[pos + 4..pos + 4 + length]);
    assert text == Some(e.0);
  }

  /** A string written with a four-byte length prefix, as the writer writes
      one, is extracted whole. */
  lemma ExtractDataOfField(prefix: seq<byte>, s: string, rest: seq<byte>)
    requires 0 < |Utf8.Encode(s)| <= MAX_KEY_STRING
    ensures ExtractData(prefix + StringField(s) + rest, |prefix|) == Ok((s, |StringField(s)|))
  {
    var b := Utf8.Encode(s);
    var data := prefix + StringField(s) + rest;
    FieldAt(prefix, s, rest);
    assert Pow256(4) == 4294967296;
    LEOfToLE(|b|, 4);
    ExtractTextOf(data, |prefix|, s);
  }

  /** Where a string field stands, its length prefix and its text. */
  lemma FieldAt(prefix: seq<byte>, s: string, rest: seq<byte>)
    ensures var data, pos, b := prefix + StringField(s) + rest, |prefix|, Utf8.Encode(s);
      data[pos..pos + 4] == ToLE(|b|, 4) && data[pos + 4..pos + 4 + |b|] == b
  {
    var data, pos, b := prefix + StringField(s) + rest, |prefix|, Utf8.Encode(s);
    FieldSlices(StringField(s), s);
    assert data[pos..pos + 4] == StringField(s)[..4];
    assert data[pos + 4..pos + 4 + |b|] == StringField(s)[4..];
  }

  lemma ExtractTextOf(data: seq<byte>, pos: nat, s: string)
    requires 0 < |Utf8.Encode(s)| <= MAX_KEY_STRING
    requires pos + 4 + |Utf8.Encode(s)| <= |data| && data[pos + 4..pos + 4 + |Utf8.Encode(s)|] == Utf8.Encode(s)
    ensures ExtractText(data, pos, |Utf8.Encode(s)|) == Ok((s, 4 + |Utf8.Encode(s)|))
  {
    Utf8.DecodeEncode(s);
  }

  /** 2^24 characters 'A': the shortest kind of string whose length needs the
      fourth byte of the prefix. */
  function LongText(): string
  {
    seq(16777216, _ => 'A')
  }

  /** The three-byte read loses the high byte: a string of 2^24 bytes
      (LongText is one), written with its four-byte prefix 00 00 00 01, is
      read as one of length 0 and refused, while the four-byte read extracts
      it. */
  lemma ExtractDataDropsHighByte(s: string)
    requires |Utf8.Encode(s)| == 16777216
    ensures var b := Utf8.Encode(s);
      ExtractDataAsWritten([0, 0, 0, 1] + b, 0) == Err(ExtractEmpty) &&
      ExtractData([0, 0, 0, 1] + b, 0) == Ok((s, 4 + 16777216))
  {
    var b := Utf8.Encode(s);
    PrefixOfLongText();
    ExtractDataOfField([], s, []);
    assert [] + StringField(s) + [] == [0, 0, 0, 1] + b;
    PrefixLowBytesZero(b);
  }

  lemma PrefixOfLongText()
    ensures ToLE(16777216, 4) == [0, 0, 0, 1]
  {
    assert ToLE(1, 1) == [1];
    assert ToLE(256, 2) == [0] + ToLE(1, 1);
    assert ToLE(65536, 3) == [0] + ToLE(256, 2);
  }

  /** As written, any text behind the prefix 00 00 00 01 is refused as
      empty. */
  lemma PrefixLowBytesZero(b: seq<byte>)
    ensures ExtractDataAsWritten([0, 0, 0, 1] + b, 0) == Err(ExtractEmpty)
  {
    var data := [0, 0, 0, 1] + b;
    assert data[0..3] == [0, 0, 0];
    LEZero(data[0..3]);
  }

  /** LongText encodes to 2^24 bytes, so it is an input for
      ExtractDataDropsHighByte. */
  lemma LongTextBytes()
    ensures |Utf8.Encode(LongText())| == 16777216
  {
    Utf8.EncodeAscii(LongText());
  }

  /** While the fourth length byte is zero, reading three bytes or four
      makes no difference. */
  lemma ExtractWidthAgrees(data: seq<byte>, pos: nat)
    requires |data| >= pos + 4 && data[pos + 3] == 0
    ensures Extract(data, pos, 3) == Extract(data, pos, 4)
  {
    assert data[pos..pos + 4] == data[pos..pos + 3] + [0];
    LEAppend(data[pos..pos + 3], [0]);
    assert LE([0]) == 0;
  }

  // ---------------------------------------------------------------------
  // completeKeyExchange

  /** What completeKeyExchange takes from the reply: the session identifier,
      the flags string and the server's public key. */
  datatype KeyExchange = KeyExchange(sessionId: string, flags: string, publicKey: seq<byte>)

  /** The checks of lines 90-115 on the eight-byte header and the room for
      the two 16-byte authenticator halves. */
  function KeyExchangeHeader(data: seq<byte>): (r: Outcome<CryptoError>)
    ensures r.Pass? ==> |data| >= 40
  {
    if |data| < 8 then Fail(ShortKeyExchange)
    else if LE(data[0..4]) != KEY_EXCHANGE_VERSION then Fail(KeyExchangeVersion(LE(data[0..4])))
    else if LE(data[4..8]) != 0 && LE(data[4..8]) != 25 then Fail(KeyExchangeCode(LE(data[4..8])))
    else if |data| < 40 then Fail(ShortAuthenticator)
    else Pass
  }

  /** The two extracted strings and the 32-byte public key that follow the
      authenticator halves, with extractData reading `width` length bytes. */
  function KeyExchangeTail(data: seq<byte>, width: nat): (r: Result<KeyExchange, CryptoError>)
    requires |data| >= 40 && width <= 4
    ensures r.Ok? ==> |r.value.publicKey| == 32
  {
    match Extract(data, 40, width)
    case Err(e) => Err(e)
    case Ok((sessionId, n)) =>
      match Extract(data, 40 + n, width)
      case Err(e) => Err(e)
      case Ok((flags, m)) =>
        var pos := 40 + n + m;
        if |data| < pos + 32 then Err(ShortPublicKey)
        else Ok(KeyExchange(sessionId, flags, data[pos..pos + 32]))
  }

  /** completeKeyExchange as written: the authenticator is validated, but
      validateAuthenticator answers 0 or -1 and the reply is refused only
      on None, so its answer never matters; extractData reads three length
      bytes. */
  function ParseKeyExchangeAsWritten(p: Primitives, data: seq<byte>, sharedKey: seq<byte>): (r: Result<KeyExchange, CryptoError>)
    ensures r.Ok? ==> |data| >= 40 && LE(data[0..4]) == 2 && LE(data[4..8]) in {0, 25}
    ensures r.Ok? ==> |r.value.publicKey| == 32
  {
    var h := KeyExchangeHeader(data);
    if h.Fail? then Err(h.error)
    else KeyExchangeTail(data, 3)
  }

  /** completeKeyExchange as intended: a reply whose authenticator does not
      verify is refused, and extractData reads four length bytes. */
  function ParseKeyExchange(p: Primitives, data: seq<byte>, sharedKey: seq<byte>): (r: Result<KeyExchange, CryptoError>)
    ensures r.Ok? ==> |data| >= 40 && LE(data[0..4]) == 2 && LE(data[4..8]) in {0, 25}
    ensures r.Ok? ==> ValidateAuthenticator(p, data[40..], data[8..24], data[24..40], sharedKey) == 0
    ensures r.Ok? ==> |r.value.publicKey| == 32
  {
    var h := KeyExchangeHeader(data);
    if h.Fail? then Err(h.error)
    else if ValidateAuthenticator(p, data[40..], data[8..24], data[24..40], sharedKey) != 0 then Err(AuthenticationFailed)
    else KeyExchangeTail(data, 4)
  }

  /** The bytes of a reply: version 2, an accepted error code, the server's
      random half, its tag, session identifier, flags and public key. */
  function KeyExchangeReply(code: nat, half: seq<byte>, tag: seq<byte>, tail: seq<byte>): seq<byte>
    requires code < Pow256(4)
  {
    ToLE(KEY_EXCHANGE_VERSION, 4) + ToLE(code, 4) + half + tag + tail
  }

  function StringField(s: string): seq<byte>
  {
    ToLE(|Utf8.Encode(s)|, 4) + Utf8.Encode(s)
  }

  /** A reply with version 2 and an accepted error code passes the header
      checks. */
  lemma KeyExchangeHeaderOf(code: nat, half: seq<byte>, tag: seq<byte>, tail: seq<byte>)
    requires (code == 0 || code == 25) && |half| == 16 && |tag| == 16
    ensures KeyExchangeHeader(KeyExchangeReply(code, half, tag, tail)) == Pass
    ensures var data := KeyExchangeReply(code, half, tag, tail);
      data[8..24] == half && data[24..40] == tag && data[40..] == tail
  {
    var data := KeyExchangeReply(code, half, tag, tail);
    assert Pow256(4) == 4294967296;
    LEOfToLE(KEY_EXCHANGE_VERSION, 4);
    LEOfToLE(code, 4);
    var tail' := half + tag + tail;
    assert data == ToLE(KEY_EXCHANGE_VERSION, 4) + ToLE(code, 4) + tail';
    assert data[0..4] == ToLE(KEY_EXCHANGE_VERSION, 4);
    assert data[4..8] == ToLE(code, 4);
  }

  /** Two strings with four-byte length prefixes and a 32-byte key after the
      authenticator halves are read as the session identifier, the flags
      and the public key. */
  lemma KeyExchangeTailOf(data: seq<byte>, sessionId: string, flags: string, publicKey: seq<byte>, rest: seq<byte>)
    requires 0 < |Utf8.Encode(sessionId)| <= MAX_KEY_STRING && 0 < |Utf8.Encode(flags)| <= MAX_KEY_STRING
    requires |publicKey| == 32
    requires |data| >= 40 && data[40..] == StringField(sessionId) + StringField(flags) + publicKey + rest
    ensures KeyExchangeTail(data, 4) == Ok(KeyExchange(sessionId, flags, publicKey))
  {
    var n := |StringField(sessionId)|;
    var m := |StringField(flags)|;
    TailSessionId(data, sessionId, flags, publicKey, rest);
    TailFlags(data, sessionId, flags, publicKey, rest);
    assert data[40 + n + m..40 + n + m + 32] == publicKey by {
      assert data[40 + n + m..40 + n + m + 32] == data[40..][n + m..n + m + 32];
    }
    TailSteps(data, 4, sessionId, n, flags, m);
  }

  /** The tail is the two extracted strings and the 32 bytes after them. */
  lemma TailSteps(data: seq<byte>, width: nat, sessionId: string, n: nat, flags: string, m: nat)
    requires |data| >= 40 + n + m + 32 && width <= 4
    requires Extract(data, 40, width) == Ok((sessionId, n))
    requires Extract(data, 40 + n, width) == Ok((flags, m))
    ensures KeyExchangeTail(data, width) == Ok(KeyExchange(sessionId, flags, data[40 + n + m..40 + n + m + 32]))
  {
    hide Extract;
  }

  lemma TailSessionId(data: seq<byte>, sessionId: string, flags: string, publicKey: seq<byte>, rest: seq<byte>)
    requires 0 < |Utf8.Encode(sessionId)| <= MAX_KEY_STRING
    requires |data| >= 40 && data[40..] == StringField(sessionId) + StringField(flags) + publicKey + rest
    ensures Extract(data, 40, 4) == Ok((sessionId, |StringField(sessionId)|))
  {
    hide Extract, StringField;
    var after := StringField(flags) + publicKey + rest;
    assert data[40..] == StringField(sessionId) + after;
    Recompose(data, 40, StringField(sessionId), after);
    ExtractDataOfField(data[..40], sessionId, after);
  }

  lemma TailFlags(data: seq<byte>, sessionId: string, flags: string, publicKey: seq<byte>, rest: seq<byte>)
    requires 0 < |Utf8.Encode(flags)| <= MAX_KEY_STRING
    requires |data| >= 40 && data[40..] == StringField(sessionId) + StringField(flags) + publicKey + rest
    ensures Extract(data, 40 + |StringField(sessionId)|, 4) == Ok((flags, |StringField(flags)|))
  {
    hide Extract, StringField;
    var n := |StringField(sessionId)|;
    var f := StringField(flags);
    assert data[40 + n..] == f + (publicKey + rest) by {
      assert data[40..] == StringField(sessionId) + (f + (publicKey + rest));
      assert data[40 + n..] == data[40..][n..];
    }
    Recompose(data, 40 + n, f, publicKey + rest);
    ExtractDataOfField(data[..40 + n], flags, publicKey + rest);
  }

  /** A byte string is what precedes k followed by what follows it. */
  lemma Recompose(data: seq<byte>, k: nat, a: seq<byte>, b: seq<byte>)
    requires k <= |data| && data[k..] == a + b
    ensures data == data[..k] + a + b && |data[..k]| == k
  {
    assert data == data[..k] + data[k..];
  }

  /** A well-formed reply whose tag is the one the shared key gives is
      accepted with exactly its session identifier, flags and public key. */
  lemma ParseKeyExchangeOf(p: Primitives, sharedKey: seq<byte>, code: nat, half: seq<byte>,
                           sessionId: string, flags: string, publicKey: seq<byte>, rest: seq<byte>)
    requires code == 0 || code == 25
    requires |half| == 16 && |publicKey| == 32
    requires 0 < |Utf8.Encode(sessionId)| <= MAX_KEY_STRING && 0 < |Utf8.Encode(flags)| <= MAX_KEY_STRING
    ensures var tail := StringField(sessionId) + StringField(flags) + publicKey + rest;
      var tag := p.poly1305(tail, p.generichash(sharedKey, half));
      ParseKeyExchange(p, KeyExchangeReply(code, half, tag, tail), sharedKey) ==
        Ok(KeyExchange(sessionId, flags, publicKey))
  {
    var tail := StringField(sessionId) + StringField(flags) + publicKey + rest;
    var tag := p.poly1305(tail, p.generichash(sharedKey, half));
    var data := KeyExchangeReply(code, half, tag, tail);
    KeyExchangeHeaderOf(code, half, tag, tail);
    KeyExchangeTailOf(data, sessionId, flags, publicKey, rest);
  }

  /** As written, a well-formed reply whose strings are shorter than 2^24
      bytes is accepted with its session identifier, flags and public key,
      whatever its tag. */
  lemma ParseKeyExchangeAsWrittenOf(p: Primitives, sharedKey: seq<byte>, code: nat, half: seq<byte>, tag: seq<byte>,
                                    sessionId: string, flags: string, publicKey: seq<byte>, rest: seq<byte>)
    requires code == 0 || code == 25
    requires |half| == 16 && |tag| == 16 && |publicKey| == 32
    requires 0 < |Utf8.Encode(sessionId)| < 16777216 && 0 < |Utf8.Encode(flags)| < 16777216
    ensures var tail := StringField(sessionId) + StringField(flags) + publicKey + rest;
      ParseKeyExchangeAsWritten(p, KeyExchangeReply(code, half, tag, tail), sharedKey) ==
        Ok(KeyExchange(sessionId, flags, publicKey))
  {
    var tail := StringField(sessionId) + StringField(flags) + publicKey + rest;
    var data := KeyExchangeReply(code, half, tag, tail);
    KeyExchangeHeaderOf(code, half, tag, tail);
    KeyExchangeTailOf(data, sessionId, flags, publicKey, rest);
    ReplyHighBytes(code, half, tag, sessionId, flags, publicKey, rest);
    TailWidthAgrees(data, |StringField(sessionId)|);
  }

  lemma ReplyHighBytes(code: nat, half: seq<byte>, tag: seq<byte>,
                       sessionId: string, flags: string, publicKey: seq<byte>, rest: seq<byte>)
    requires code < Pow256(4) && |half| == 16 && |tag| == 16
    requires |Utf8.Encode(sessionId)| < 16777216 && |Utf8.Encode(flags)| < 16777216
    ensures var data := KeyExchangeReply(code, half, tag, StringField(sessionId) + StringField(flags) + publicKey + rest);
      var n := |StringField(sessionId)|;
      44 + n <= |data| && data[43] == 0 && data[40 + n + 3] == 0
  {
    var tail := StringField(sessionId) + StringField(flags) + publicKey + rest;
    var data := KeyExchangeReply(code, half, tag, tail);
    var n := |StringField(sessionId)|;
    HighLengthByte(sessionId);
    HighLengthByte(flags);
    assert data[40..] == tail;
    assert data[43] == tail[3] == StringField(sessionId)[3];
    assert data[40 + n + 3] == tail[n + 3] == StringField(flags)[3];
  }

  /** While both length prefixes have a zero fourth byte, the tail reads
      the same with three length bytes as with four. */
  lemma TailWidthAgrees(data: seq<byte>, n: nat)
    requires 44 + n <= |data| && data[43] == 0 && data[40 + n + 3] == 0
    requires Extract(data, 40, 4).Ok? && Extract(data, 40, 4).value.1 == n
    ensures KeyExchangeTail(data, 3) == KeyExchangeTail(data, 4)
  {
    hide Extract;
    ExtractWidthAgrees(data, 40);
    ExtractWidthAgrees(data, 40 + n);
  }

  /** The fourth byte of the length prefix of a string shorter than 2^24
      bytes is zero. */
  lemma HighLengthByte(s: string)
    requires |Utf8.Encode(s)| < 16777216
    ensures StringField(s)[3] == 0
  {
    var k := |Utf8.Encode(s)|;
    assert ToLE(k, 4) == [k % 256] + ToLE(k / 256, 3);
    assert ToLE(k / 256, 3) == [k / 256 % 256] + ToLE(k / 256 / 256, 2);
    assert ToLE(k / 256 / 256, 2) == [k / 256 / 256 % 256] + ToLE(k / 256 / 256 / 256, 1);
    assert k / 256 / 256 / 256 == 0;
  }

  /** The tag a reply should carry, changed in its first byte. */
  function WrongTag(tag: Tag): seq<byte>
  {
    [((tag[0] as int + 1) % 256) as byte] + tag[1..]
  }

  /** As written, a reply with a tag that does not verify is accepted; as
      intended it is refused. */
  lemma KeyExchangeIgnoresAuthenticator(p: Primitives, sharedKey: seq<byte>) returns (data: seq<byte>)
    ensures ParseKeyExchangeAsWritten(p, data, sharedKey).Ok?
    ensures ParseKeyExchange(p, data, sharedKey) == Err(AuthenticationFailed)
  {
    var half: seq<byte> := seq(16, _ => 0);
    var key: seq<byte> := seq(32, _ => 0);
    assert |Utf8.Encode("a")| == 1 && |Utf8.Encode("b")| == 1;
    var tail := StringField("a") + StringField("b") + key + [];
    var tag := p.poly1305(tail, p.generichash(sharedKey, half));
    var wrong := WrongTag(tag);
    assert wrong != tag by {
      assert wrong[0] != tag[0];
    }
    data := KeyExchangeReply(0, half, wrong, tail);
    ParseKeyExchangeAsWrittenOf(p, sharedKey, 0, half, wrong, "a", "b", key, []);
    KeyExchangeHeaderOf(0, half, wrong, tail);
  }

  // ---------------------------------------------------------------------
  // The sequence bookkeeping of decryptPubSub

  /** What the key table holds for a stream: the sequence counter (an int
      read from the key data, or the text "cU" that decryptPubSub puts
      there for a stream the key data did not name) and the numbers
      recorded as skipped. */
  datatype Stream = Stream(counter: PyValue.Value, skipped: seq<int>)

  /** The stream decryptPubSub creates for "update" when it is missing. */
  function FreshUpdateStream(): Stream
  {
    Stream(PyValue.Str("cU"), [])
  }

  /** Where the first occurrence of the smallest entry is. */
  function MinIndex(s: seq<int>): (i: nat)
    requires |s| > 0
    ensures i < |s|
  {
    if |s| == 1 then 0
    else
      var j := MinIndex(s[1..]) + 1;
      if s[0] <= s[j] then 0 else j
  }

  /** The entry at MinIndex is no larger than any entry, and strictly
      smaller than every entry before it. */
  lemma {:induction false} MinIndexLeast(s: seq<int>)
    requires |s| > 0
    ensures forall j :: 0 <= j < |s| ==> s[MinIndex(s)] <= s[j]
    ensures forall v :: v in multiset(s) ==> s[MinIndex(s)] <= v
    ensures forall j :: 0 <= j < MinIndex(s) ==> s[MinIndex(s)] < s[j]
  {
    if |s| > 1 {
      MinIndexLeast(s[1..]);
    }
  }

  function RemoveAt(s: seq<int>, i: nat): (r: seq<int>)
    requires i < |s|
    ensures |r| == |s| - 1
  {
    s[..i] + s[i + 1..]
  }

  lemma RemoveAtMultiset(s: seq<int>, i: nat)
    requires i < |s|
    ensures multiset(RemoveAt(s, i)) == multiset(s) - multiset{s[i]}
  {
    assert s == s[..i] + [s[i]] + s[i + 1..];
  }

  /** Drop the first occurrence of the smallest entry. */
  function DropOne(s: seq<int>): (r: seq<int>)
    requires s != []
    ensures |r| == |s| - 1
  {
    RemoveAt(s, MinIndex(s))
  }

  /** DropOne is list.remove(min(s)): the first occurrence of the smallest
      entry is the first occurrence of its value. */
  lemma DropOneIsRemoveFirst(s: seq<int>)
    requires s != []
    ensures DropOne(s) == RemoveFirst(s, s[MinIndex(s)])
  {
    MinIndexLeast(s);
    var m := s[MinIndex(s)];
    assert m in s;
    assert IndexOf(s, m) == MinIndex(s);
  }

  /** k times, drop the first occurrence of the smallest entry. */
  function DropSmallest(s: seq<int>, k: nat): seq<int>
    decreases |s|
  {
    if k == 0 || s == [] then s else DropSmallest(DropOne(s), k - 1)
  }

  /** Dropping the k smallest keeps all but k entries. */
  lemma {:induction false} DropSmallestLength(s: seq<int>, k: nat)
    ensures |DropSmallest(s, k)| == if k <= |s| then |s| - k else 0
    decreases |s|
  {
    if k != 0 && s != [] {
      DropSmallestLength(DropOne(s), k - 1);
    }
  }

  /** Dropping keeps only entries of s. */
  lemma {:induction false} DropSmallestKeeps(s: seq<int>, k: nat)
    ensures multiset(DropSmallest(s, k)) <= multiset(s)
    decreases |s|
  {
    hide DropSmallest;
    if k != 0 && s != [] {
      DropSmallestStep(s, k);
      RemoveAtMultiset(s, MinIndex(s));
      DropSmallestKeeps(DropOne(s), k - 1);
    } else {
      DropSmallestNone(s, k);
    }
  }

  lemma DropSmallestStep(s: seq<int>, k: nat)
    requires k != 0 && s != []
    ensures DropSmallest(s, k) == DropSmallest(DropOne(s), k - 1)
  {
  }

  lemma DropSmallestNone(s: seq<int>, k: nat)
    requires k == 0 || s == []
    ensures DropSmallest(s, k) == s
  {
  }

  /** No entry of s that r leaves out is larger than an entry r keeps. */
  predicate KeepsLargest(s: seq<int>, r: seq<int>)
  {
    forall v, w :: v in r && w in multiset(s) - multiset(r) ==> w <= v
  }

  /** No entry dropped is larger than an entry kept. */
  lemma {:induction false} DropSmallestKeepsLargest(s: seq<int>, k: nat)
    ensures KeepsLargest(s, DropSmallest(s, k))
    decreases |s|
  {
    if k != 0 && s != [] {
      DropSmallestKeepsLargest(DropOne(s), k - 1);
      KeepsLargestStep(s, k);
    }
  }

  lemma KeepsLargestStep(s: seq<int>, k: nat)
    requires k != 0 && s != []
    requires KeepsLargest(DropOne(s), DropSmallest(DropOne(s), k - 1))
    ensures KeepsLargest(s, DropSmallest(s, k))
  {
    var s' := DropOne(s);
    var r := DropSmallest(s', k - 1);
    assert DropSmallest(s, k) == r;
    hide DropSmallest, DropOne;
    RemoveAtMultiset(s, MinIndex(s));
    MinIndexLeast(s);
    DropSmallestKeeps(s', k - 1);
    KeepsStep(multiset(s), multiset(s'), r, s[MinIndex(s)]);
  }

  /** One step of DropSmallestKeepsLargest: dropping a smallest m first
      and then keeping the largest of the rest keeps the largest. */
  lemma KeepsStep(s: multiset<int>, s': multiset<int>, r: seq<int>, m: int)
    requires m in s && s' == s - multiset{m} && multiset(r) <= s'
    requires forall v :: v in s ==> m <= v
    requires forall v, w :: v in r && w in s' - multiset(r) ==> w <= v
    ensures forall v, w :: v in r && w in s - multiset(r) ==> w <= v
  {
    DiffStep(s, s', multiset(r), m);
    forall v, w | v in r && w in s - multiset(r)
      ensures w <= v
    {
      assert v in multiset(r);
      assert v in s;
    }
  }

  /** Taking r from s, where r came from s less one m, leaves what taking
      r from s less m leaves, and m. */
  lemma DiffStep(s: multiset<int>, s': multiset<int>, r: multiset<int>, m: int)
    requires m in s && s' == s - multiset{m} && r <= s'
    ensures s - r == (s' - r) + multiset{m}
  {
  }

  /** The trim of lines 235-241: a list longer than 32 loses its smallest
      entries down to 32. */
  function Trim(s: seq<int>): seq<int>
  {
    if |s| > MAX_SKIPPED then DropSmallest(s, |s| - MAX_SKIPPED) else s
  }

  /** x, x-1, x-2, ... for at most k numbers, stopping before 0: the numbers
      the skip loop of lines 227-233 appends when it runs as intended. */
  function Countdown(x: int, k: nat): (r: seq<int>)
    ensures |r| <= k
    ensures forall i :: 0 <= i < |r| ==> r[i] == x - i
    decreases k
  {
    if k == 0 || x == 0 then [] else [x] + Countdown(x - 1, k - 1)
  }

  /** The numbers recorded for a message numbered n above the counter c. */
  function Gap(c: int, n: int): seq<int>
    requires c < n
  {
    Countdown(n - 1, if n - c - 1 > MAX_SKIP_STEP then MAX_SKIP_STEP else n - c - 1)
  }

  /** Lines 209-243 for one stream and the number n read from the nonce:
      an int counter is required; a number below it must be in the skipped
      list and is taken out; a number above it records `added`, then the
      list is trimmed; the counter goes up by one. */
  function Advance(st: Stream, n: int, added: seq<int>): Result<Stream, CryptoError>
  {
    if !st.counter.Int? then Err(TypeError)
    else
      var c := st.counter.i;
      if n < c && n !in st.skipped then Err(UnexpectedSequence)
      else
        var skipped :=
          if n < c then RemoveFirst(st.skipped, n)
          else if n > c then Trim(st.skipped + added)
          else st.skipped;
        Ok(Stream(PyValue.Int(c + 1), skipped))
  }

  /** As written, the loop body is empty and only n - 1 is appended. */
  function SequenceAsWritten(st: Stream, n: int): (r: Result<Stream, CryptoError>)
    ensures r.Ok? <==> st.counter.Int? && (n >= st.counter.i || n in st.skipped)
    ensures r.Ok? ==> r.value.counter == PyValue.Int(st.counter.i + 1)
  {
    Advance(st, n, [n - 1])
  }

  /** As intended, the numbers between the counter and n are appended,
      the latest 16 at most. */
  function Sequence(st: Stream, n: int): (r: Result<Stream, CryptoError>)
    ensures r.Ok? <==> st.counter.Int? && (n >= st.counter.i || n in st.skipped)
    ensures r.Ok? ==> r.value.counter == PyValue.Int(st.counter.i + 1)
    ensures st.counter == PyValue.Str("cU") ==> r == Err(TypeError)
  {
    Advance(st, n, if st.counter.Int? && st.counter.i < n then Gap(st.counter.i, n) else [])
  }

  /** The numbers Gap records are exactly those strictly between the
      counter and n and at most 16 below n. */
  lemma {:induction false} GapExact(c: int, n: int, v: int)
    requires 0 <= c < n
    ensures v in Gap(c, n) <==> c < v < n && n - v <= MAX_SKIP_STEP
  {
    var k := if n - c - 1 > MAX_SKIP_STEP then MAX_SKIP_STEP else n - c - 1;
    CountdownExact(n - 1, k, v);
  }

  lemma {:induction false} CountdownExact(x: int, k: nat, v: int)
    requires x >= k
    ensures v in Countdown(x, k) <==> x - k < v <= x
    decreases k
  {
    if k != 0 && x != 0 {
      CountdownExact(x - 1, k - 1, v);
      assert Countdown(x, k) == [x] + Countdown(x - 1, k - 1);
    }
  }

  /** The skipped list never grows beyond 32 entries. */
  lemma SequenceBounded(st: Stream, n: int)
    requires |st.skipped| <= MAX_SKIPPED && Sequence(st, n).Ok?
    ensures |Sequence(st, n).value.skipped| <= MAX_SKIPPED
  {
    var c := st.counter.i;
    if n > c {
      TrimBounded(st.skipped + Gap(c, n));
      assert Sequence(st, n).value.skipped == Trim(st.skipped + Gap(c, n));
    }
  }

  /** The trim leaves 32 entries of a longer list, and a shorter one as it
      is. */
  lemma TrimBounded(s: seq<int>)
    ensures |Trim(s)| == if |s| > MAX_SKIPPED then MAX_SKIPPED else |s|
    ensures |s| <= MAX_SKIPPED ==> Trim(s) == s
  {
    if |s| > MAX_SKIPPED {
      DropSmallestLength(s, |s| - MAX_SKIPPED);
    }
  }

  /** An accepted old number is taken out of the skipped list once, so the
      same number is accepted again only if it was recorded twice. */
  lemma SequenceConsumesSkipped(st: Stream, n: int)
    requires Sequence(st, n).Ok? && n < st.counter.i
    ensures multiset(Sequence(st, n).value.skipped)[n] == multiset(st.skipped)[n] - 1
  {
  }

  /** A message numbered one above the counter records nothing. */
  lemma SequenceInOrder(st: Stream, c: int)
    requires st.counter == PyValue.Int(c) && |st.skipped| <= MAX_SKIPPED
    ensures Sequence(st, c + 1) == Ok(Stream(PyValue.Int(c + 1), st.skipped))
  {
    assert Gap(c, c + 1) == [];
    assert st.skipped + [] == st.skipped;
  }

  /** As written, a message numbered one above the counter records the
      counter itself as skipped, so a second message with that number is
      then accepted; as intended it is refused. */
  lemma SequenceAsWrittenReplays()
    ensures var s1 := SequenceAsWritten(Stream(PyValue.Int(5), []), 6);
      s1 == Ok(Stream(PyValue.Int(6), [5])) && SequenceAsWritten(s1.value, 5).Ok?
    ensures var s1 := Sequence(Stream(PyValue.Int(5), []), 6);
      s1 == Ok(Stream(PyValue.Int(6), [])) && Sequence(s1.value, 5) == Err(UnexpectedSequence)
  {
    assert Gap(5, 6) == [];
    assert [] + [5] == [5] && Trim([5]) == [5];
    assert Trim([] + Gap(5, 6)) == [];
    assert 5 in [5];
  }

  // ---------------------------------------------------------------------
  // The key table of decryptPayload

  /** str.rfind('/'). */
  function LastSlash(s: string): (i: int)
    ensures -1 <= i < |s|
    ensures i >= 0 ==> s[i] == '/'
    ensures forall j :: i < j < |s| ==> s[j] != '/'
  {
    if s == [] then -1
    else if s[|s| - 1] == '/' then |s| - 1
    else LastSlash(s[..|s| - 1])
  }

  const ENCRYPTED_SUFFIX: string := "_encrypted"

  predicate EndsWithEncrypted(s: string)
  {
    |s| >= |ENCRYPTED_SUFFIX| && s[|s| - |ENCRYPTED_SUFFIX|..] == ENCRYPTED_SUFFIX
  }

  /** The stream a key name designates: the text after its last slash, less
      a trailing "_encrypted". */
  function StreamName(name: string): string
    requires LastSlash(name) >= 0
  {
    var r := name[LastSlash(name) + 1..];
    if EndsWithEncrypted(r) then r[..|r| - |ENCRYPTED_SUFFIX|] else r
  }

  /** A path ending in a name without slashes designates that name, with or
      without the "_encrypted" suffix. */
  lemma StreamNameOf(path: string, name: string)
    requires forall i :: 0 <= i < |name| ==> name[i] != '/'
    ensures var full := path + "/" + name + ENCRYPTED_SUFFIX;
      LastSlash(full) >= 0 && StreamName(full) == name
    ensures !EndsWithEncrypted(name) ==>
      LastSlash(path + "/" + name) >= 0 && StreamName(path + "/" + name) == name
  {
    var full := path + "/" + name + ENCRYPTED_SUFFIX;
    assert full == path + "/" + (name + ENCRYPTED_SUFFIX);
    LastSlashOf(path, name + ENCRYPTED_SUFFIX);
    assert full[|path| + 1..] == name + ENCRYPTED_SUFFIX;
    var short := path + "/" + name;
    LastSlashOf(path, name);
    assert short[|path| + 1..] == name;
  }

  lemma {:induction false} LastSlashOf(path: string, name: string)
    requires forall i :: 0 <= i < |name| ==> name[i] != '/'
    ensures LastSlash(path + "/" + name) == |path|
    decreases |name|
  {
    var full := path + "/" + name;
    if name != [] {
      LastSlashOf(path, name[..|name| - 1]);
      assert full[..|full| - 1] == path + "/" + name[..|name| - 1];
    }
  }

  /** Where reading the key entries stops: the table so far, the exception
      if one was raised, and the reader's offset. */
  datatype TableStep = TableStep(table: map<string, Stream>, error: Option<CryptoError>, next: nat)

  /** One key entry read at an offset: its name, and the counter when it
      was read. */
  datatype Entry = Entry(name: string, counter: Option<nat>)

  /** One pass of the loop of lines 363-376: a name, then, for a name with
      a slash, a u64 counter. With `resync` false, as written, a name without
      a slash is passed over and its counter is left unread; with `resync`
      true its counter is read and discarded. */
  function ReadEntryAt(data: seq<byte>, off: nat, resync: bool): MessageReader.Step<Entry>
  {
    var s := MessageReader.ReadStringAt(data, off);
    if s.result.Err? then MessageReader.Step(Err(s.result.error), s.next)
    else if LastSlash(s.result.value) == -1 && !resync then
      MessageReader.Step(Ok(Entry(s.result.value, None)), s.next)
    else
      var u := MessageReader.ReadU64At(data, s.next);
      if u.result.Err? then MessageReader.Step(Err(u.result.error), u.next)
      else MessageReader.Step(Ok(Entry(s.result.value, Some(u.result.value))), u.next)
  }

  /** A named entry with a counter opens its stream with an empty skipped
      list; any other entry leaves the table as it is. */
  function Register(table: map<string, Stream>, e: Entry): map<string, Stream>
  {
    if LastSlash(e.name) == -1 || e.counter.None? then table
    else table[StreamName(e.name) := Stream(PyValue.Int(e.counter.value), [])]
  }

  /** The loop of lines 363-376 over `count` entries from offset off; the
      first read that raises stops it. */
  function ReadEntries(data: seq<byte>, off: nat, count: nat, table: map<string, Stream>, resync: bool): (r: TableStep)
    ensures table.Keys <= r.table.Keys
    ensures r.error.Some? ==> r.error.value.Read?
    ensures count == 0 ==> r == TableStep(table, None, off)
    decreases count
  {
    if count == 0 then TableStep(table, None, off)
    else
      var e := ReadEntryAt(data, off, resync);
      if e.result.Err? then TableStep(table, Some(Read(e.result.error)), e.next)
      else ReadEntries(data, e.next, count - 1, Register(table, e.result.value), resync)
  }

  /** Once one entry is read, the loop goes on after it with the entry
      registered. */
  lemma EntriesStep(data: seq<byte>, off: nat, count: nat, table: map<string, Stream>, resync: bool,
                    e: Entry, next: nat)
    requires ReadEntryAt(data, off, resync) == MessageReader.Step(Ok(e), next)
    ensures ReadEntries(data, off, count + 1, table, resync) ==
      ReadEntries(data, next, count, Register(table, e), resync)
  {
  }

  /** As written, a name without a slash is all that is read of its entry:
      the next entry is read from right after the name, whatever follows
      it. */
  lemma ReadEntriesSkipsName(data: seq<byte>, off: nat, count: nat, table: map<string, Stream>,
                             name: string, next: nat)
    requires MessageReader.ReadStringAt(data, off) == MessageReader.Step(Ok(name), next)
    requires LastSlash(name) == -1
    ensures ReadEntries(data, off, count + 1, table, false) == ReadEntries(data, next, count, table, false)
  {
    EntriesStep(data, off, count, table, false, Entry(name, None), next);
  }

  /** With resync, every entry is its name and its counter, whether or not
      the name has a slash, and the next entry is read after the counter;
      only a name with a slash opens a stream. */
  lemma ReadEntriesFramed(data: seq<byte>, off: nat, count: nat, table: map<string, Stream>,
                          name: string, next: nat, counter: nat)
    requires MessageReader.ReadStringAt(data, off) == MessageReader.Step(Ok(name), next)
    requires MessageReader.ReadU64At(data, next) == MessageReader.Step(Ok(counter), next + 8)
    ensures ReadEntries(data, off, count + 1, table, true) ==
      ReadEntries(data, next + 8, count,
                  if LastSlash(name) == -1 then table
                  else table[StreamName(name) := Stream(PyValue.Int(counter), [])], true)
  {
    EntriesStep(data, off, count, table, true, Entry(name, Some(counter)), next + 8);
  }

  /** The bytes of one key entry: the name with its four-byte length, then
      the counter as a u64 whose upper half is zero. */
  function EntryBytes(name: string, counter: nat): seq<byte>
    requires counter < Pow256(4)
  {
    StringField(name) + ToLE(counter, 4) + [0, 0, 0, 0]
  }

  /** Reading a string at off of a byte string that holds one there. */
  lemma ReadStringAtOf(data: seq<byte>, off: nat, s: string)
    requires |Utf8.Encode(s)| < Pow256(4)
    requires off + |StringField(s)| <= |data| && data[off..off + |StringField(s)|] == StringField(s)
    ensures MessageReader.ReadStringAt(data, off) == MessageReader.Step(Ok(s), off + |StringField(s)|)
  {
    hide MessageReader.ReadStringAt, StringField, Utf8.Decode;
    var b := Utf8.Encode(s);
    FieldSlices(data[off..off + |StringField(s)|], s);
    assert data[off..off + 4] == ToLE(|b|, 4) by {
      assert data[off..off + 4] == data[off..off + |StringField(s)|][..4];
    }
    assert data[off + 4..off + 4 + |b|] == b by {
      assert data[off + 4..off + 4 + |b|] == data[off..off + |StringField(s)|][4..];
    }
    LEOfToLE(|b|, 4);
    Utf8.DecodeEncode(s);
    ReadStringAtParts(data, off, |b|, s);
  }

  lemma FieldSlices(f: seq<byte>, s: string)
    requires f == StringField(s)
    ensures |f| == 4 + |Utf8.Encode(s)| && f[..4] == ToLE(|Utf8.Encode(s)|, 4) && f[4..] == Utf8.Encode(s)
  {
  }

  /** What readString returns when the length and the text are in place. */
  lemma ReadStringAtParts(data: seq<byte>, off: nat, n: nat, s: string)
    requires off + 4 + n <= |data| && LE(data[off..off + 4]) == n
    requires Utf8.Decode(data[off + 4..off + 4 + n]) == Some(s)
    ensures MessageReader.ReadStringAt(data, off) == MessageReader.Step(Ok(s), off + 4 + n)
  {
  }

  /** Reading a u64 whose lower half is counter and whose upper half is
      zero. */
  lemma ReadU64AtOf(data: seq<byte>, off: nat, counter: nat)
    requires counter < Pow256(4)
    requires off + 8 <= |data| && data[off..off + 8] == ToLE(counter, 4) + [0, 0, 0, 0]
    ensures MessageReader.ReadU64At(data, off) == MessageReader.Step(Ok(counter), off + 8)
  {
    assert data[off..off + 4] == data[off..off + 8][..4] == ToLE(counter, 4);
    assert data[off + 4..off + 8] == data[off..off + 8][4..] == [0, 0, 0, 0];
    LEOfToLE(counter, 4);
  }

  /** Two entries: "a" with counter 0, then "x/y" with counter 7. */
  function TwoEntries(): seq<byte>
  {
    EntryBytes("a", 0) + EntryBytes("x/y", 7)
  }

  /** A string field read where it stands between two byte strings. */
  lemma ReadStringBetween(pre: seq<byte>, s: string, post: seq<byte>)
    requires |Utf8.Encode(s)| < Pow256(4)
    ensures MessageReader.ReadStringAt(pre + StringField(s) + post, |pre|) ==
      MessageReader.Step(Ok(s), |pre| + |StringField(s)|)
  {
    var data := pre + StringField(s) + post;
    assert data[|pre|..|pre| + |StringField(s)|] == StringField(s);
    ReadStringAtOf(data, |pre|, s);
  }

  /** A u64 counter read where it stands between two byte strings. */
  lemma ReadU64Between(pre: seq<byte>, counter: nat, post: seq<byte>)
    requires counter < Pow256(4)
    ensures MessageReader.ReadU64At(pre + (ToLE(counter, 4) + [0, 0, 0, 0]) + post, |pre|) ==
      MessageReader.Step(Ok(counter), |pre| + 8)
  {
    var data := pre + (ToLE(counter, 4) + [0, 0, 0, 0]) + post;
    assert data[|pre|..|pre| + 8] == ToLE(counter, 4) + [0, 0, 0, 0];
    ReadU64AtOf(data, |pre|, counter);
  }

  /** Entries the server can write: names whose encoding fits a four-byte
      length and counters below 2^32. */
  predicate Writable(es: seq<(string, nat)>)
  {
    forall i :: 0 <= i < |es| ==> |Utf8.Encode(es[i].0)| < Pow256(4) && es[i].1 < Pow256(4)
  }

  /** The bytes of a list of key entries, one after another. */
  function EntriesBytes(es: seq<(string, nat)>): seq<byte>
    requires Writable(es)
  {
    if es == [] then [] else EntryBytes(es[0].0, es[0].1) + EntriesBytes(es[1..])
  }

  /** The table once every entry, in order, has been registered. */
  function RegisterAll(table: map<string, Stream>, es: seq<(string, nat)>): map<string, Stream>
    decreases |es|
  {
    if es == [] then table else RegisterAll(Register(table, Entry(es[0].0, Some(es[0].1))), es[1..])
  }

  /** Reading, with resync, the entries the server wrote registers all of
      them and stops right after the last one, whatever surrounds them. */
  lemma ReadEntriesOf(pre: seq<byte>, es: seq<(string, nat)>, post: seq<byte>, table: map<string, Stream>)
    requires Writable(es)
    ensures ReadEntries(pre + EntriesBytes(es) + post, |pre|, |es|, table, true) ==
      TableStep(RegisterAll(table, es), None, |pre| + |EntriesBytes(es)|)
  {
    var data := pre + EntriesBytes(es) + post;
    assert data[|pre|..|pre| + |EntriesBytes(es)|] == EntriesBytes(es);
    ReadEntriesAt(data, |pre|, es, table);
  }

  /** The same, for entries found at an offset of the data. */
  lemma {:induction false} ReadEntriesAt(data: seq<byte>, off: nat, es: seq<(string, nat)>, table: map<string, Stream>)
    requires Writable(es)
    requires off + |EntriesBytes(es)| <= |data| && data[off..off + |EntriesBytes(es)|] == EntriesBytes(es)
    ensures ReadEntries(data, off, |es|, table, true) ==
      TableStep(RegisterAll(table, es), None, off + |EntriesBytes(es)|)
    decreases |es|
  {
    hide ReadEntries, ReadEntryAt, EntryBytes, Register;
    if es != [] {
      var name, c := es[0].0, es[0].1;
      var head, rest := EntryBytes(name, c), EntriesBytes(es[1..]);
      assert EntriesBytes(es) == head + rest;
      SliceSplit(data, off, head, rest);
      EntryAtSlice(data, off, name, c);
      EntriesStep(data, off, |es| - 1, table, true, Entry(name, Some(c)), off + |head|);
      ReadEntriesAt(data, off + |head|, es[1..], Register(table, Entry(name, Some(c))));
    } else {
      EntriesDone(data, off, table, true);
    }
  }

  lemma EntriesDone(data: seq<byte>, off: nat, table: map<string, Stream>, resync: bool)
    ensures ReadEntries(data, off, 0, table, resync) == TableStep(table, None, off)
  {
  }

  lemma SliceSplit(data: seq<byte>, off: nat, a: seq<byte>, b: seq<byte>)
    requires off + |a| + |b| <= |data| && data[off..off + |a| + |b|] == a + b
    ensures data[off..off + |a|] == a && data[off + |a|..off + |a| + |b|] == b
  {
    assert data[off..off + |a|] == (a + b)[..|a|];
    assert data[off + |a|..off + |a| + |b|] == (a + b)[|a|..];
  }

  lemma EntryBytesParts(name: string, c: nat)
    requires c < Pow256(4)
    ensures EntryBytes(name, c) == StringField(name) + (ToLE(c, 4) + [0, 0, 0, 0])
    ensures |ToLE(c, 4) + [0, 0, 0, 0]| == 8
  {
  }

  /** A key entry found at an offset of the data. */
  lemma EntryAtSlice(data: seq<byte>, off: nat, name: string, c: nat)
    requires |Utf8.Encode(name)| < Pow256(4) && c < Pow256(4)
    requires off + |EntryBytes(name, c)| <= |data| && data[off..off + |EntryBytes(name, c)|] == EntryBytes(name, c)
    ensures ReadEntryAt(data, off, true) == MessageReader.Step(Ok(Entry(name, Some(c))), off + |EntryBytes(name, c)|)
  {
    hide ReadEntryAt, MessageReader.ReadStringAt, MessageReader.ReadU64At, EntryBytes, StringField;
    var f := StringField(name);
    var counter := ToLE(c, 4) + [0, 0, 0, 0];
    EntryBytesParts(name, c);
    SliceSplit(data, off, f, counter);
    ReadStringAtOf(data, off, name);
    ReadU64AtOf(data, off + |f|, c);
    var next := off + |f| + 8;
    assert next - 8 == off + |f|;
    EntryAtOf(data, off, name, c, next);
  }

  /** An entry whose name and counter read in turn. */
  lemma EntryAtOf(data: seq<byte>, off: nat, name: string, c: nat, next: nat)
    requires next >= 8 && MessageReader.ReadStringAt(data, off) == MessageReader.Step(Ok(name), next - 8)
    requires MessageReader.ReadU64At(data, next - 8) == MessageReader.Step(Ok(c), next)
    ensures ReadEntryAt(data, off, true) == MessageReader.Step(Ok(Entry(name, Some(c))), next)
  {
  }


  lemma TwoEntriesFirst()
    ensures MessageReader.ReadStringAt(TwoEntries(), 0) == MessageReader.Step(Ok("a"), 5)
    ensures MessageReader.ReadStringAt(TwoEntries(), 5) == MessageReader.Step(Ok(""), 9)
    ensures MessageReader.ReadU64At(TwoEntries(), 5) == MessageReader.Step(Ok(0), 13)
  {
    FieldLengths();
    LayoutName();
    ReadStringBetween([], "a", ToLE(0, 4) + [0, 0, 0, 0] + EntryBytes("x/y", 7));
    LayoutCounter();
    ReadU64Between(StringField("a"), 0, EntryBytes("x/y", 7));
    LayoutCounterAsName();
    ReadStringBetween(StringField("a"), "", [0, 0, 0, 0] + EntryBytes("x/y", 7));
  }

  lemma TwoEntriesSecond()
    ensures MessageReader.ReadStringAt(TwoEntries(), 13) == MessageReader.Step(Ok("x/y"), 20)
    ensures MessageReader.ReadU64At(TwoEntries(), 20) == MessageReader.Step(Ok(7), 28)
  {
    FieldLengths();
    LayoutSecond();
    ReadStringBetween(EntryBytes("a", 0), "x/y", ToLE(7, 4) + [0, 0, 0, 0]);
    ReadU64Between(EntryBytes("a", 0) + StringField("x/y"), 7, []);
  }

  lemma FieldLengths()
    ensures |Utf8.Encode("a")| == 1 && |StringField("a")| == 5 && |EntryBytes("a", 0)| == 13
    ensures |Utf8.Encode("x/y")| == 3 && |StringField("x/y")| == 7
    ensures Utf8.Encode("") == [] && StringField("") == ToLE(0, 4)
  {
    Utf8.EncodeAscii("a");
    Utf8.EncodeAscii("x/y");
  }

  lemma LayoutName()
    ensures TwoEntries() == [] + StringField("a") + (ToLE(0, 4) + [0, 0, 0, 0] + EntryBytes("x/y", 7))
  {
  }

  lemma LayoutCounter()
    ensures TwoEntries() == StringField("a") + (ToLE(0, 4) + [0, 0, 0, 0]) + EntryBytes("x/y", 7)
  {
  }

  lemma LayoutCounterAsName()
    ensures TwoEntries() == StringField("a") + StringField("") + ([0, 0, 0, 0] + EntryBytes("x/y", 7))
  {
    FieldLengths();
  }

  lemma LayoutSecond()
    ensures TwoEntries() == EntryBytes("a", 0) + StringField("x/y") + (ToLE(7, 4) + [0, 0, 0, 0])
    ensures TwoEntries() == (EntryBytes("a", 0) + StringField("x/y")) + (ToLE(7, 4) + [0, 0, 0, 0]) + []
  {
  }

  /** As written, an entry without a slash leaves its counter unread, and
      the next entry is read from the middle of it: the entry "x/y" with
      counter 7 that follows "a" is never seen. With resync it opens stream
      "y". */
  lemma ReadEntriesDesynchronises()
    ensures ReadEntries(TwoEntries(), 0, 2, map[], false) == TableStep(map[], None, 9)
    ensures ReadEntries(TwoEntries(), 0, 2, map[], true) ==
      TableStep(map["y" := Stream(PyValue.Int(7), [])], None, 28)
  {
    TwoEntriesFirst();
    TwoEntriesSecond();
    assert LastSlash("a") == -1 && LastSlash("") == -1 && LastSlash("x/y") == 1;
    assert StreamName("x/y") == "y";
    ReadEntriesSkipsName(TwoEntries(), 0, 1, map[], "a", 5);
    ReadEntriesSkipsName(TwoEntries(), 5, 0, map[], "", 9);
    ReadEntriesFramed(TwoEntries(), 0, 1, map[], "a", 5, 0);
    ReadEntriesFramed(TwoEntries(), 13, 0, map[], "x/y", 20, 7);
  }

  // ---------------------------------------------------------------------
  // loginSaslPayload and buildSaslResponse

  /** The SASL mechanism the login names. */
  const SCRAM_SHA_256: string := "SCRAM-SHA-256"

  function LoginSaslFields(proto: Protocol.Constants, scram: string): seq<Field>
  {
    [U8(proto.msgLoginSasl), Str(Utf8.Encode(SCRAM_SHA_256)), Str(Utf8.Encode(scram))]
  }

  /** loginSaslPayload: the login message id, the mechanism name and the
      client-first message. */
  function LoginSaslPayload(proto: Protocol.Constants, scram: string): Result<seq<byte>, WriteError>
  {
    Compose(LoginSaslFields(proto, scram))
  }

  /** The login payload is built exactly when the id is a byte and the
      client-first message fits. */
  lemma LoginSaslAccepted(proto: Protocol.Constants, scram: string)
    ensures LoginSaslPayload(proto, scram).Ok? <==>
      0 <= proto.msgLoginSasl <= 255 && |Utf8.Encode(scram)| <= MAX_DATA_LENGTH
  {
    MechanismLength();
    ThreeFieldsAccepted(proto.msgLoginSasl, SCRAM_SHA_256, scram);
  }

  /** A login payload reads back as the id, the mechanism and the
      client-first message, and has their length. */
  lemma LoginSaslReadBack(proto: Protocol.Constants, scram: string, rest: seq<byte>)
    requires LoginSaslPayload(proto, scram).Ok?
    ensures |LoginSaslPayload(proto, scram).value| == 22 + |Utf8.Encode(scram)|
    ensures ReadFields(LoginSaslPayload(proto, scram).value + rest, LoginSaslFields(proto, scram)) ==
      Ok(LoginSaslFields(proto, scram))
  {
    MechanismLength();
    ThreeFieldsReadBack(proto.msgLoginSasl, SCRAM_SHA_256, scram, rest);
  }

  lemma MechanismLength()
    ensures |Utf8.Encode(SCRAM_SHA_256)| == 13
  {
    Utf8.EncodeAscii(SCRAM_SHA_256);
  }

  lemma ThreeFieldsAccepted(id: int, a: string, b: string)
    requires |Utf8.Encode(a)| <= MAX_DATA_LENGTH
    ensures Compose([U8(id), Str(Utf8.Encode(a)), Str(Utf8.Encode(b))]).Ok? <==>
      0 <= id <= 255 && |Utf8.Encode(b)| <= MAX_DATA_LENGTH
  {
    var fields := [U8(id), Str(Utf8.Encode(a)), Str(Utf8.Encode(b))];
    StrAcceptable(Utf8.Encode(a));
    StrAcceptable(Utf8.Encode(b));
    ComposeOk(fields);
    assert (forall i :: 0 <= i < |fields| ==> Acceptable(fields[i])) <==>
      Acceptable(fields[0]) && Acceptable(fields[1]) && Acceptable(fields[2]);
  }

  lemma ThreeFieldsReadBack(id: int, a: string, b: string, rest: seq<byte>)
    requires Compose([U8(id), Str(Utf8.Encode(a)), Str(Utf8.Encode(b))]).Ok?
    ensures var fields := [U8(id), Str(Utf8.Encode(a)), Str(Utf8.Encode(b))];
      |Compose(fields).value| == 9 + |Utf8.Encode(a)| + |Utf8.Encode(b)| &&
      ReadFields(Compose(fields).value + rest, fields) == Ok(fields)
  {
    var fields := [U8(id), Str(Utf8.Encode(a)), Str(Utf8.Encode(b))];
    Utf8.DecodeEncode(a);
    Utf8.DecodeEncode(b);
    ComposeReadBack(fields, rest);
    assert fields[1..][1..] == fields[2..];
    assert fields[2..][1..] == [];
    assert Length(fields[2..]) == 4 + |Utf8.Encode(b)|;
    assert Length(fields[1..]) == 8 + |Utf8.Encode(a)| + |Utf8.Encode(b)|;
  }

  function SaslResponseFields(proto: Protocol.Constants, clientFinal: string): seq<Field>
  {
    [U8(proto.msgSaslResponse), Str(Utf8.Encode(clientFinal))]
  }

  /** buildSaslResponse: the response message id and the client-final
      message; it is built exactly when the id is a byte and the message
      fits. */
  function BuildSaslResponse(proto: Protocol.Constants, clientFinal: string): (r: Result<seq<byte>, WriteError>)
    ensures r.Ok? <==> 0 <= proto.msgSaslResponse <= 255 && |Utf8.Encode(clientFinal)| <= MAX_DATA_LENGTH
  {
    assert Pow256(4) == 4294967296;
    ComposeOk(SaslResponseFields(proto, clientFinal));
    Compose(SaslResponseFields(proto, clientFinal))
  }

  /** A response reads back as the id and the client-final message, and has
      their length. */
  lemma SaslResponseReadBack(proto: Protocol.Constants, clientFinal: string, rest: seq<byte>)
    requires BuildSaslResponse(proto, clientFinal).Ok?
    ensures |BuildSaslResponse(proto, clientFinal).value| == 5 + |Utf8.Encode(clientFinal)|
    ensures ReadFields(BuildSaslResponse(proto, clientFinal).value + rest, SaslResponseFields(proto, clientFinal)) ==
      Ok(SaslResponseFields(proto, clientFinal))
  {
    var fields := SaslResponseFields(proto, clientFinal);
    Utf8.DecodeEncode(clientFinal);
    ComposeReadBack(fields, rest);
    assert fields[1..][1..] == [];
    assert Length(fields) == 1 + Length(fields[1..]);
  }

}
