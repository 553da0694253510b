/** The login handshake of custom_components/freeathome/fah/saslhandler.py:
    exchange keys, open a session, log in with SCRAM and answer the
    server's challenge. Each remote call is recorded in the order it is
    made; the server's replies are inputs, as is the randomness the crypto
    library would supply. */
module SaslHandler {
  import opened Wrappers
  import opened Bytes
  import Utf8
  import opened Primitives
  import MessageReader
  import opened MessageWriter
  import ClientScram
  import Protocol
  import opened Crypto
  import opened CryptoSession
  import opened PyList

  // ---------------------------------------------------------------------
  // StartNewSessionPayload

  /** The writes of StartNewSessionPayload: the new-session id, the protocol
      version, the user authentication type and the session identifier. */
  function NewSessionFields(proto: Protocol.Constants, sessionId: string): seq<Field>
  {
    [U8(proto.msgNewSession), U32(proto.protocolVersion), U8(proto.authTypeUser), Str(Utf8.Encode(sessionId))]
  }

  /** The payload a fresh writer makes of them. */
  function NewSessionPayload(proto: Protocol.Constants, sessionId: string): Result<seq<byte>, WriteError>
  {
    Compose(NewSessionFields(proto, sessionId))
  }

  /** The payload is built exactly when both ids are bytes, the version
      fits four bytes and the identifier fits; it is then the id, the
      version in four little-endian bytes, the authentication type and the
      identifier's UTF-8 behind its four-byte length. */
  lemma NewSessionPayloadLayout(proto: Protocol.Constants, sessionId: string)
    ensures NewSessionPayload(proto, sessionId).Ok? <==>
      (0 <= proto.msgNewSession <= 255 && 0 <= proto.protocolVersion < Pow256(4) &&
       0 <= proto.authTypeUser <= 255 && |Utf8.Encode(sessionId)| <= MAX_DATA_LENGTH)
    ensures NewSessionPayload(proto, sessionId).Ok? ==>
      var r, b := NewSessionPayload(proto, sessionId).value, Utf8.Encode(sessionId);
      |r| == 10 + |b| && r[0] == proto.msgNewSession && r[1..5] == ToLE(proto.protocolVersion, 4) &&
      r[5] == proto.authTypeUser && r[6..10] == ToLE(|b|, 4) && r[10..] == b
  {
    NewSessionPayloadOk(proto, sessionId);
    if NewSessionPayload(proto, sessionId).Ok? {
      var r, b := NewSessionPayload(proto, sessionId).value, Utf8.Encode(sessionId);
      NewSessionPayloadBytes(proto, sessionId);
      Pow256Four();
      LayoutSlices(r, proto.msgNewSession, ToLE(proto.protocolVersion, 4), proto.authTypeUser, ToLE(|b|, 4), b);
    }
  }

  lemma NewSessionPayloadOk(proto: Protocol.Constants, sessionId: string)
    ensures NewSessionPayload(proto, sessionId).Ok? <==>
      (0 <= proto.msgNewSession <= 255 && 0 <= proto.protocolVersion < Pow256(4) &&
       0 <= proto.authTypeUser <= 255 && |Utf8.Encode(sessionId)| <= MAX_DATA_LENGTH)
  {
    var fields := NewSessionFields(proto, sessionId);
    StrAcceptable(Utf8.Encode(sessionId));
    Pow256Four();
    ComposeOk(fields);
    assert (forall i :: 0 <= i < |fields| ==> Acceptable(fields[i])) <==>
      Acceptable(fields[0]) && Acceptable(fields[1]) && Acceptable(fields[2]) && Acceptable(fields[3]);
  }

  lemma NewSessionPayloadBytes(proto: Protocol.Constants, sessionId: string)
    requires 0 <= proto.msgNewSession <= 255 && 0 <= proto.protocolVersion < Pow256(4)
    requires 0 <= proto.authTypeUser <= 255 && |Utf8.Encode(sessionId)| <= MAX_DATA_LENGTH
    ensures NewSessionPayload(proto, sessionId).Ok?
    ensures var b := Utf8.Encode(sessionId);
      NewSessionPayload(proto, sessionId).value ==
        [proto.msgNewSession] + (ToLE(proto.protocolVersion, 4) + ([proto.authTypeUser] + (ToLE(|b|, 4) + b)))
  {
    var fields := NewSessionFields(proto, sessionId);
    var b := Utf8.Encode(sessionId);
    NewSessionPayloadOk(proto, sessionId);
    ComposeChecked(fields);
    var tail := ToLE(|b|, 4) + b;
    var f3 := [Str(b)];
    var f2 := [U8(proto.authTypeUser)] + f3;
    var f1 := [U32(proto.protocolVersion)] + f2;
    assert fields == [U8(proto.msgNewSession)] + f1;
    SerializeCons(Str(b), []);
    assert f3 == [Str(b)] + [];
    SerializeCons(U8(proto.authTypeUser), f3);
    SerializeCons(U32(proto.protocolVersion), f2);
    SerializeCons(U8(proto.msgNewSession), f1);
    assert tail + [] == tail;
  }

  lemma LayoutSlices(r: seq<byte>, x: byte, v: seq<byte>, t: byte, l: seq<byte>, b: seq<byte>)
    requires |v| == 4 && |l| == 4 && r == [x] + (v + ([t] + (l + b)))
    ensures |r| == 10 + |b| && r[0] == x && r[1..5] == v && r[5] == t && r[6..10] == l && r[10..] == b
  {
  }

  lemma SerializeCons(f: Field, rest: seq<Field>)
    requires EncodeField(f).Some? && Serialize(rest).Ok?
    ensures Serialize([f] + rest) == Ok(EncodeField(f).value + Serialize(rest).value)
  {
    assert ([f] + rest)[1..] == rest;
  }

  /** The payload reads back, field by field, as what was written. */
  lemma NewSessionReadBack(proto: Protocol.Constants, sessionId: string, rest: seq<byte>)
    requires NewSessionPayload(proto, sessionId).Ok?
    ensures ReadFields(NewSessionPayload(proto, sessionId).value + rest, NewSessionFields(proto, sessionId)) ==
      Ok(NewSessionFields(proto, sessionId))
  {
    var fields := NewSessionFields(proto, sessionId);
    forall i | 0 <= i < |fields| && fields[i].Str?
      ensures Utf8.Decode(fields[i].bytes).Some?
    {
      assert i == 3;
      Utf8.DecodeEncode(sessionId);
    }
    ComposeReadBack(fields, rest);
  }

  // ---------------------------------------------------------------------
  // Remote calls and replies

  /** A parameter of an XML-RPC call. */
  datatype RpcParam = PString(s: string) | PBase64(text: string) | PInt(i: int)

  /** A remote call to mrha@busch-jaeger.de/rpc. */
  datatype RpcCall = RpcCall(methodName: string, params: seq<RpcParam>)

  /** send_cryptExchangeLocalKeys2: the JID, the base64 local key, the
      mechanism and 0. */
  function ExchangeCall(jid: string, key: string): RpcCall
  {
    RpcCall("RemoteInterface.cryptExchangeLocalKeys2", [PString(jid), PBase64(key), PString(SCRAM_SHA_256), PInt(0)])
  }

  /** send_cryptMessage: the base64 message. */
  function MessageCall(message: string): RpcCall
  {
    RpcCall("RemoteInterface.cryptMessage", [PBase64(message)])
  }

  /** What one call comes back with: the send raised, the reply is a fault,
      the reply has no params, or its first argument, base64-decoded. */
  datatype Reply = SendRaised | Fault(message: string) | NoParams | Answer(arg: seq<byte>)

  /** The replies to the four calls, in order. */
  datatype Replies = Replies(keyExchange: Reply, newSession: Reply, login: Reply, response: Reply)

  function ReplyAt(replies: Replies, k: nat): Reply
  {
    if k == 0 then replies.keyExchange
    else if k == 1 then replies.newSession
    else if k == 2 then replies.login
    else replies.response
  }

  /** The random bytes the handshake asks of the library: 16 for the local
      key, 32 for the client nonce, and for each encrypted message the 24
      sealed in front of it and the 8 of its nonce. */
  datatype Randomness = Randomness(localKey: seq<byte>, clientNonce: seq<byte>,
                                   loginPrefix: seq<byte>, loginNonce: seq<byte>,
                                   responsePrefix: seq<byte>, responseNonce: seq<byte>)

  predicate Sized(rand: Randomness)
  {
    |rand.localKey| == 16 && |rand.clientNonce| == 32 &&
    |rand.loginPrefix| == NONCE_BYTES && |rand.loginNonce| == 8 &&
    |rand.responsePrefix| == NONCE_BYTES && |rand.responseNonce| == 8
  }

  /** How the handshake ends, with the number `step` of the call it was at:
      a send that raised or a fault, both logged; a reply without params;
      an exception that leaves the handler after `step` calls; a login not
      answered with a challenge, logged as a wrong response; a response not
      answered with a login success; or a verified login. */
  datatype Ending =
    | SendFailed(step: nat)
    | Faulted(step: nat)
    | Unanswered(step: nat)
    | Raised(step: nat, error: CryptoError)
    | WrongResponse(msgId: byte)
    | NotConfirmed(msgId: byte)
    | Authenticated

  /** What encryptPayload returns for `data` once the session nonce is
      known: the size check, the counter check, then the container. */
  function Encrypted(p: Primitives, proto: Protocol.Constants, keyReceived: bool, sessionId: string,
                     sharedSecret: Option<seq<byte>>, sessionNonce: seq<byte>, counter: nat,
                     prefix: seq<byte>, nonceRandom: seq<byte>, data: seq<byte>): Result<seq<byte>, CryptoError>
  {
    if |data| > MAX_PLAINTEXT then Err(PlaintextTooLarge)
    else if counter >= MAX_MESSAGE_COUNTER then Err(CounterExhausted)
    else EncryptContainer(p, proto, keyReceived, sessionId, sharedSecret,
                          Nonce(sessionNonce, counter, nonceRandom), prefix, data)
  }

  /** The login the handshake encrypts: loginSaslPayload of the
      client-first message with the base64 client nonce. */
  function LoginPlain(p: Primitives, proto: Protocol.Constants, jid: string, clientNonce: seq<byte>)
    : Result<seq<byte>, CryptoError>
  {
    match LoginSaslPayload(proto, ClientScram.ClientFirst(jid, p.b64encode(clientNonce)))
    case Err(e) => Err(Write(e))
    case Ok(b) => Ok(b)
  }

  /** The response the handshake encrypts: the server-first message read
      from the challenge at `off`, answered by processSaslChallenge and
      written by buildSaslResponse. */
  function ResponsePlain(p: Primitives, proto: Protocol.Constants, password: string, clientFirst: Option<string>,
                         plain: seq<byte>, off: nat): Result<seq<byte>, CryptoError>
  {
    var s := MessageReader.ReadStringAt(plain, off);
    if s.result.Err? then Err(Read(s.result.error))
    else match SaslChallengeReply(p, password, clientFirst, s.result.value)
      case Err(e) => Err(e)
      case Ok(clientFinal) =>
        match BuildSaslResponse(proto, clientFinal)
        case Err(e) => Err(Write(e))
        case Ok(b) => Ok(b)
  }

  /** The response reply was a login success, and the server-final message
      after it carries the signature that the server key and the auth
      message expect. */
  ghost predicate FinishedWith(prims: Primitives, proto: Protocol.Constants, sharedSecret: Option<seq<byte>>,
                               serverKey: Option<Digest>, authMessage: Option<string>,
                               rand: Randomness, replies: Replies, pending: seq<seq<byte>>,
                               table: map<string, Stream>, keyReceived: bool)
  {
    replies.response.Answer? &&
    var d := Decrypt(prims, replies.response.arg, pending + [rand.responsePrefix], sharedSecret, table, keyReceived);
    d.result.Ok? && d.result.value < |d.plain| && d.plain[d.result.value] == proto.msgSaslLoginSuccess &&
    var s := MessageReader.ReadStringAt(d.plain, d.result.value + 1);
    s.result.Ok? && SaslFinalCheck(prims, serverKey, authMessage, s.result.value).Pass?
  }

  /** The calls made since s0, when s1 added one and later calls kept s1. */
  lemma CallsAfter<T>(s0: seq<T>, s1: seq<T>, s2: seq<T>)
    requires |s1| == |s0| + 1 && s1[..|s0|] == s0 && |s1| <= |s2| && s2[..|s1|] == s1
    ensures s2[..|s0|] == s0 && |s2[|s0|..]| == |s2[|s1|..]| + 1
    ensures s2[|s0|..] == [s1[|s0|]] + s2[|s1|..] && s2[|s0|..][1..] == s2[|s1|..]
  {
    assert s2[..|s0|] == s2[..|s1|][..|s0|];
  }

  /** The pending list once a decryption has taken its prefix out. */
  function PendingAfter(pending: seq<seq<byte>>, d: Decryption): seq<seq<byte>>
  {
    if d.openedAt.Some? && d.openedAt.value < |pending| then RemoveFirst(pending, pending[d.openedAt.value])
    else pending
  }

  // ---------------------------------------------------------------------
  // The handler

  class Handler {
    const jid: string
    const crypto: Session
    /** The remote calls made, in order. */
    var sent: seq<RpcCall>

    ghost predicate Valid()
      reads this, crypto
    {
      crypto.Valid()
    }

    /** __init__: a Crypto object for the JID and password, with its key
        pair made; `keypair` is what crypto_box_keypair returned. */
    constructor (prims: Primitives, proto: Protocol.Constants, jid: string, password: string,
                 iterations: int, salt: seq<byte>, keypair: (seq<byte>, seq<byte>))
      ensures Valid() && fresh(crypto) && fresh(crypto.scram) && this.jid == jid && sent == []
      ensures crypto.prims == prims && crypto.proto == proto && crypto.jid == jid
      ensures crypto.password == password && crypto.iterations == iterations && crypto.salt == salt
      ensures crypto.publicKey == Some(keypair.0) && crypto.secretKey == Some(keypair.1)
      ensures crypto.table == map[] && !crypto.keyReceived && crypto.messageCounter == 1 && crypto.pending == []
      ensures crypto.sharedSecret == crypto.sessionNonce == crypto.symmetricKey == None && crypto.sessionId == None
      ensures crypto.scram.scram == None
    {
      this.jid := jid;
      var c := new Session(prims, proto, jid, password, iterations, salt);
      c.GenerateKeypair(keypair);
      crypto := c;
      sent := [];
    }

    /** StartNewSessionPayload, with a fresh writer. */
    method StartNewSessionPayload(sessionIdentifier: string) returns (r: Result<seq<byte>, WriteError>)
      ensures r == NewSessionPayload(crypto.proto, sessionIdentifier)
    {
      var fields := NewSessionFields(crypto.proto, sessionIdentifier);
      var mes := new Writer();
      var w := mes.WriteUint8(crypto.proto.msgNewSession);
      if w.Fail? {
        ComposeStops(fields, 0);
        return Err(w.error);
      }
      mes.WriteUint32(crypto.proto.protocolVersion);
      w := mes.WriteUint8(crypto.proto.authTypeUser);
      if w.Fail? {
        ComposeStops(fields, 2);
        return Err(w.error);
      }
      w := mes.WriteString(sessionIdentifier);
      if w.Fail? {
        ComposeStops(fields, 3);
        return Err(w.error);
      }
      assert mes.fields == fields;
      ComposeChecked(fields);
      r := mes.ToUint8Array();
    }

    /** initiate_key_exchange: each call is made only once the previous one
        was answered with params, and an exception or a fault ends the
        chain. The new-session payload goes out as it is; the login and the
        response go through encryptPayload, under the nonces the message
        counter numbers in turn. The response is sent only when the login
        was answered with a SASL challenge, and the handshake ends
        authenticated only when the response was answered with a login
        success whose server signature checks. */
    method InitiateKeyExchange(rand: Randomness, replies: Replies) returns (e: Ending)
      requires Valid() && Sized(rand)
      modifies this, crypto, crypto.scram
      ensures Valid()
      ensures |old(sent)| <= |sent| <= |old(sent)| + 4 && sent[..|old(sent)|] == old(sent)
      ensures var calls := sent[|old(sent)|..];
        var key := MakeAuthenticator(crypto.prims, old(crypto.publicKey), crypto.SharedKey(), rand.localKey);
        (calls == [] <==> key.Err?) &&
        (key.Ok? ==> calls[0] == ExchangeCall(jid, crypto.prims.b64encode(key.value)))
      ensures var calls := sent[|old(sent)|..];
        forall k :: 0 <= k < |calls| - 1 ==> ReplyAt(replies, k).Answer?
      ensures var calls := sent[|old(sent)|..];
        (e.SendFailed? ==> |calls| == e.step + 1 && ReplyAt(replies, e.step) == SendRaised) &&
        (e.Faulted? ==> |calls| == e.step + 1 && ReplyAt(replies, e.step).Fault?) &&
        (e.Unanswered? ==> |calls| == e.step + 1 && ReplyAt(replies, e.step) == NoParams && e.step != 2) &&
        (e.Raised? ==> |calls| == e.step) &&
        (e.WrongResponse? ==> |calls| == 3) &&
        (e.NotConfirmed? || e.Authenticated? ==> |calls| == 4)
      ensures var calls := sent[|old(sent)|..];
        |calls| >= 2 ==>
          replies.keyExchange.Answer? &&
          var k := ParseKeyExchange(crypto.prims, replies.keyExchange.arg, crypto.SharedKey());
          k.Ok? && NewSessionPayload(crypto.proto, k.value.sessionId).Ok? &&
          calls[1] == MessageCall(crypto.prims.b64encode(NewSessionPayload(crypto.proto, k.value.sessionId).value))
      ensures var calls := sent[|old(sent)|..];
        |calls| >= 3 ==>
          replies.newSession.Answer? && crypto.sessionNonce.Some? &&
          var login := LoginPlain(crypto.prims, crypto.proto, jid, rand.clientNonce);
          login.Ok? &&
          var c := Encrypted(crypto.prims, crypto.proto, old(crypto.keyReceived), crypto.sessionId.value,
                             crypto.sharedSecret, crypto.sessionNonce.value, old(crypto.messageCounter),
                             rand.loginPrefix, rand.loginNonce, login.value);
          c.Ok? && calls[2] == MessageCall(crypto.prims.b64encode(c.value))
      ensures var calls := sent[|old(sent)|..];
        |calls| >= 2 ==>
          replies.keyExchange.Answer? && old(crypto.secretKey).Some? &&
          var k := ParseKeyExchange(crypto.prims, replies.keyExchange.arg, crypto.SharedKey());
          k.Ok? && crypto.sharedSecret == Some(crypto.prims.boxBeforenm(k.value.publicKey, old(crypto.secretKey).value))
      ensures var calls := sent[|old(sent)|..];
        |calls| >= 3 ==>
          replies.newSession.Answer? && DecodeNewSession(crypto.proto, replies.newSession.arg).Ok? &&
          crypto.sessionId == Some(DecodeNewSession(crypto.proto, replies.newSession.arg).value.sessionId) &&
          crypto.sessionNonce == Some(DecodeNewSession(crypto.proto, replies.newSession.arg).value.nonce)
      ensures var calls := sent[|old(sent)|..];
        |calls| == 4 || e.WrongResponse? ==>
          |calls| >= 2 && old(crypto.messageCounter) >= 0 && crypto.sessionNonce.Some? &&
          Challenged(rand, replies, old(crypto.pending), old(crypto.table), old(crypto.keyReceived),
                     old(crypto.messageCounter), calls[2..], e)
      ensures e.Authenticated? ==>
        crypto.sessionNonce.Some? && LoggedIn(rand, replies, old(crypto.pending), old(crypto.table), old(crypto.keyReceived))
    {
      hide MakeAuthenticator, ParseKeyExchange, NewSessionPayload, LoginPlain, Encrypted, Challenged, LoggedIn,
        Decrypt, ResponsePlain, PendingAfter;
      ghost var s0 := sent;
      var sessionIdentifier := ExchangeKeys(rand.localKey, replies.keyExchange);
      if sessionIdentifier.Err? {
        return sessionIdentifier.error;
      }
      ghost var s1 := sent;
      e := StartSession(sessionIdentifier.value, rand, replies);
      CallsAfter(s0, s1, sent);
    }

    /** initiate_key_exchange once the key exchange was answered: open the
        session, then authenticate. `calls[k]` is step `k + 1`. */
    method StartSession(sessionIdentifier: string, rand: Randomness, replies: Replies) returns (e: Ending)
      requires Valid() && Sized(rand)
      modifies this, crypto, crypto.scram
      ensures Valid()
      ensures |old(sent)| <= |sent| <= |old(sent)| + 3 && sent[..|old(sent)|] == old(sent)
      ensures crypto.sharedSecret == old(crypto.sharedSecret)
      ensures var calls := sent[|old(sent)|..];
        forall k :: 1 <= k < |calls| ==> ReplyAt(replies, k).Answer?
      ensures var calls := sent[|old(sent)|..];
        (e.SendFailed? ==> |calls| == e.step && ReplyAt(replies, e.step) == SendRaised) &&
        (e.Faulted? ==> |calls| == e.step && ReplyAt(replies, e.step).Fault?) &&
        (e.Unanswered? ==> |calls| == e.step && ReplyAt(replies, e.step) == NoParams && e.step != 2) &&
        (e.Raised? ==> |calls| + 1 == e.step) &&
        (e.WrongResponse? ==> |calls| == 2) &&
        (e.NotConfirmed? || e.Authenticated? ==> |calls| == 3)
      ensures var calls := sent[|old(sent)|..];
        |calls| >= 1 ==>
          NewSessionPayload(crypto.proto, sessionIdentifier).Ok? &&
          calls[0] == MessageCall(crypto.prims.b64encode(NewSessionPayload(crypto.proto, sessionIdentifier).value))
      ensures var calls := sent[|old(sent)|..];
        |calls| >= 2 ==>
          replies.newSession.Answer? && crypto.sessionNonce.Some? &&
          var login := LoginPlain(crypto.prims, crypto.proto, jid, rand.clientNonce);
          login.Ok? &&
          var c := Encrypted(crypto.prims, crypto.proto, old(crypto.keyReceived), crypto.sessionId.value,
                             crypto.sharedSecret, crypto.sessionNonce.value, old(crypto.messageCounter),
                             rand.loginPrefix, rand.loginNonce, login.value);
          c.Ok? && calls[1] == MessageCall(crypto.prims.b64encode(c.value))
      ensures var calls := sent[|old(sent)|..];
        |calls| >= 2 ==>
          replies.newSession.Answer? && DecodeNewSession(crypto.proto, replies.newSession.arg).Ok? &&
          crypto.sessionId == Some(DecodeNewSession(crypto.proto, replies.newSession.arg).value.sessionId) &&
          crypto.sessionNonce == Some(DecodeNewSession(crypto.proto, replies.newSession.arg).value.nonce)
      ensures var calls := sent[|old(sent)|..];
        |calls| == 3 || e.WrongResponse? ==>
          |calls| >= 1 && old(crypto.messageCounter) >= 0 && crypto.sessionNonce.Some? &&
          Challenged(rand, replies, old(crypto.pending), old(crypto.table), old(crypto.keyReceived),
                     old(crypto.messageCounter), calls[1..], e)
      ensures e.Authenticated? ==>
        crypto.sessionNonce.Some? && LoggedIn(rand, replies, old(crypto.pending), old(crypto.table), old(crypto.keyReceived))
    {
      hide NewSessionPayload, LoginPlain, Encrypted, Challenged, LoggedIn, Decrypt, ResponsePlain, PendingAfter,
        DecodeNewSession, NewSessionId;
      ghost var s0 := sent;
      var started := OpenSession(sessionIdentifier, replies.newSession);
      if started.Fail? {
        return started.error;
      }
      ghost var s1 := sent;
      e := Authenticate(rand, replies);
      CallsAfter(s0, s1, sent);
    }

    /** What the login reply held when the handshake went past it: a SASL
        challenge, answered by `calls[1]` under the next counter; or another
        message id, which ended the handshake. */
    ghost predicate Challenged(rand: Randomness, replies: Replies, pending: seq<seq<byte>>, table: map<string, Stream>,
                               keyReceived: bool, counter: nat, calls: seq<RpcCall>, e: Ending)
      requires Valid() && crypto.sessionNonce.Some?
      reads this, crypto
    {
      replies.login.Answer? &&
      var d := Decrypt(crypto.prims, replies.login.arg, pending + [rand.loginPrefix], crypto.sharedSecret,
                       table, keyReceived);
      d.result.Ok? && d.result.value < |d.plain| &&
      (e.WrongResponse? ==> d.plain[d.result.value] == e.msgId != crypto.proto.msgSaslChallenge) &&
      (|calls| == 2 ==>
        d.plain[d.result.value] == crypto.proto.msgSaslChallenge &&
        var resp := ResponsePlain(crypto.prims, crypto.proto, crypto.password,
                                  Some(ClientScram.ClientFirst(jid, crypto.prims.b64encode(rand.clientNonce))),
                                  d.plain, d.result.value + 1);
        resp.Ok? &&
        var c := Encrypted(crypto.prims, crypto.proto, d.keyReceived, crypto.sessionId.value,
                           crypto.sharedSecret, crypto.sessionNonce.value, counter + 1,
                           rand.responsePrefix, rand.responseNonce, resp.value);
        c.Ok? && calls[1] == MessageCall(crypto.prims.b64encode(c.value)))
    }

    /** The handshake ended authenticated: the login reply was a challenge,
        and the response reply then ended it as `Finished` says. */
    ghost predicate LoggedIn(rand: Randomness, replies: Replies, pending: seq<seq<byte>>, table: map<string, Stream>,
                             keyReceived: bool)
      reads this, crypto, crypto.scram
    {
      replies.login.Answer? &&
      var d := Decrypt(crypto.prims, replies.login.arg, pending + [rand.loginPrefix], crypto.sharedSecret,
                       table, keyReceived);
      Finished(rand, replies, PendingAfter(pending + [rand.loginPrefix], d), d.table, d.keyReceived)
    }

    /** The response reply was a login success, and the server-final message
        after it carries the signature the SCRAM state expects. */
    ghost predicate Finished(rand: Randomness, replies: Replies, pending: seq<seq<byte>>, table: map<string, Stream>,
                             keyReceived: bool)
      reads this, crypto, crypto.scram
    {
      FinishedWith(crypto.prims, crypto.proto, crypto.sharedSecret, crypto.scram.serverKey, crypto.scram.authMessage,
                   rand, replies, pending, table, keyReceived)
    }

    /** The SASL part of initiate_key_exchange, once the session is open:
        the login, the response to the challenge, the server-final check. */
    method Authenticate(rand: Randomness, replies: Replies) returns (e: Ending)
      requires Valid() && Sized(rand) && crypto.sessionNonce.Some?
      modifies this, crypto, crypto.scram
      ensures Valid()
      ensures crypto.sessionId == old(crypto.sessionId) && crypto.sessionNonce == old(crypto.sessionNonce)
      ensures crypto.sharedSecret == old(crypto.sharedSecret)
      ensures |old(sent)| <= |sent| <= |old(sent)| + 2 && sent[..|old(sent)|] == old(sent)
      ensures var calls := sent[|old(sent)|..];
        forall k :: 2 <= k < |calls| + 1 ==> ReplyAt(replies, k).Answer?
      ensures var calls := sent[|old(sent)|..];
        (e.SendFailed? ==> |calls| + 2 == e.step + 1 && ReplyAt(replies, e.step) == SendRaised) &&
        (e.Faulted? ==> |calls| + 2 == e.step + 1 && ReplyAt(replies, e.step).Fault?) &&
        (e.Unanswered? ==> |calls| + 2 == e.step + 1 && ReplyAt(replies, e.step) == NoParams && e.step != 2) &&
        (e.Raised? ==> |calls| + 2 == e.step) &&
        (e.WrongResponse? ==> |calls| == 1) &&
        (e.NotConfirmed? || e.Authenticated? ==> |calls| == 2)
      ensures var calls := sent[|old(sent)|..];
        |calls| >= 1 ==>
          var login := LoginPlain(crypto.prims, crypto.proto, jid, rand.clientNonce);
          login.Ok? &&
          var c := Encrypted(crypto.prims, crypto.proto, old(crypto.keyReceived), crypto.sessionId.value,
                             crypto.sharedSecret, crypto.sessionNonce.value, old(crypto.messageCounter),
                             rand.loginPrefix, rand.loginNonce, login.value);
          c.Ok? && calls[0] == MessageCall(crypto.prims.b64encode(c.value))
      ensures var calls := sent[|old(sent)|..];
        |calls| == 2 || e.WrongResponse? ==>
          old(crypto.messageCounter) >= 0 && Challenged(rand, replies, old(crypto.pending), old(crypto.table), old(crypto.keyReceived),
                     old(crypto.messageCounter), calls, e)
      ensures e.Authenticated? ==>
        LoggedIn(rand, replies, old(crypto.pending), old(crypto.table), old(crypto.keyReceived))
    {
      hide Decrypt, Encrypted, LoginPlain, ResponsePlain, PendingAfter, Finished;
      var saslChallengeMessage := LogIn(rand, replies.login);
      if saslChallengeMessage.Err? {
        return saslChallengeMessage.error;
      }
      e := Conclude(saslChallengeMessage.value, rand, replies);
    }

    /** The last two steps of initiate_key_exchange: answer the challenge,
        then verify the server-final message. */
    method Conclude(challenge: MessageReader.Reader, rand: Randomness, replies: Replies) returns (e: Ending)
      requires Valid() && challenge.Valid() && crypto.sessionNonce.Some? && Sized(rand)
      modifies this, crypto, crypto.scram, challenge
      ensures Valid()
      ensures crypto.sessionId == old(crypto.sessionId) && crypto.sessionNonce == old(crypto.sessionNonce)
      ensures crypto.sharedSecret == old(crypto.sharedSecret)
      ensures |old(sent)| <= |sent| <= |old(sent)| + 1 && sent[..|old(sent)|] == old(sent)
      ensures sent != old(sent) ==>
        var resp := ResponsePlain(crypto.prims, crypto.proto, crypto.password, old(crypto.scram.scram),
                                  challenge.data, old(challenge.offset));
        resp.Ok? &&
        var c := Encrypted(crypto.prims, crypto.proto, old(crypto.keyReceived), crypto.sessionId.value,
                           crypto.sharedSecret, crypto.sessionNonce.value, old(crypto.messageCounter),
                           rand.responsePrefix, rand.responseNonce, resp.value);
        c.Ok? && sent[|sent| - 1] == MessageCall(crypto.prims.b64encode(c.value))
      ensures !e.WrongResponse?
      ensures e.SendFailed? ==> sent != old(sent) && e.step == 3 && replies.response == SendRaised
      ensures e.Faulted? ==> sent != old(sent) && e.step == 3 && replies.response.Fault?
      ensures e.Unanswered? ==> sent != old(sent) && e.step == 3 && replies.response == NoParams
      ensures e.Raised? ==> (sent == old(sent) <==> e.step == 3) && e.step in {3, 4}
      ensures e.NotConfirmed? || e.Authenticated? ==> sent != old(sent)
      ensures e.Raised? && e.step == 4 ==> replies.response.Answer?
      ensures e.NotConfirmed? ==> replies.response.Answer?
      ensures e.Authenticated? ==>
        Finished(rand, replies, old(crypto.pending), old(crypto.table), old(crypto.keyReceived))
    {
      hide Decrypt, Encrypted, ResponsePlain, SaslFinalCheck, MessageReader.ReadStringAt;
      ghost var p0, t0, k0 := crypto.pending, crypto.table, crypto.keyReceived;
      var saslSuccess := Respond(challenge, rand, replies.response);
      if saslSuccess.Err? {
        return saslSuccess.error;
      }
      e := Confirm(saslSuccess.value, rand, replies, p0, t0, k0);
    }

    /** processSaslFinal on the login-success reply, read past its id. */
    method Confirm(reader: MessageReader.Reader, rand: Randomness, replies: Replies,
                   ghost pending: seq<seq<byte>>, ghost table: map<string, Stream>, ghost keyReceived: bool)
      returns (e: Ending)
      requires Valid() && reader.Valid() && replies.response.Answer?
      requires var d := Decrypt(crypto.prims, replies.response.arg, pending + [rand.responsePrefix], crypto.sharedSecret,
                                table, keyReceived);
        d.result.Ok? && d.result.value < |d.plain| && d.plain[d.result.value] == crypto.proto.msgSaslLoginSuccess &&
        reader.data == d.plain && reader.offset == d.result.value + 1
      modifies reader
      ensures e == Authenticated || (e.Raised? && e.step == 4)
      ensures e.Authenticated? ==> Finished(rand, replies, pending, table, keyReceived)
    {
      hide Decrypt, SaslFinalCheck, MessageReader.ReadStringAt;
      var final := crypto.ProcessSaslFinal(reader);
      if final.Fail? {
        return Raised(4, final.error);
      }
      return Authenticated;
    }

    /** The first call: make the local key, send it, and complete the key
        exchange with the reply; Ok carries the session identifier. */
    method ExchangeKeys(random: seq<byte>, reply: Reply) returns (r: Result<string, Ending>)
      requires Valid() && |random| == 16
      modifies this, crypto
      ensures Valid()
      ensures var key := MakeAuthenticator(crypto.prims, crypto.publicKey, crypto.SharedKey(), random);
        key.Err? ==> r == Err(Raised(0, key.error)) && sent == old(sent)
      ensures var key := MakeAuthenticator(crypto.prims, crypto.publicKey, crypto.SharedKey(), random);
        key.Ok? ==>
          sent == old(sent) + [ExchangeCall(jid, crypto.prims.b64encode(key.value))] &&
          match reply
          case SendRaised => r == Err(SendFailed(0))
          case Fault(_) => r == Err(Faulted(0))
          case NoParams => r == Err(Unanswered(0))
          case Answer(arg) =>
            var k := ParseKeyExchange(crypto.prims, arg, crypto.SharedKey());
            (k.Err? ==> r == Err(Raised(1, k.error))) &&
            (k.Ok? && crypto.secretKey.None? ==> r == Err(Raised(1, MissingAttribute))) &&
            (k.Ok? && crypto.secretKey.Some? ==> r == Ok(k.value.sessionId))
      ensures r.Ok? ==>
        reply.Answer? && crypto.secretKey.Some? && ParseKeyExchange(crypto.prims, reply.arg, crypto.SharedKey()).Ok? &&
        crypto.sharedSecret == Some(crypto.prims.boxBeforenm(ParseKeyExchange(crypto.prims, reply.arg, crypto.SharedKey()).value.publicKey,
                                                             crypto.secretKey.value))
      ensures r.Err? ==> crypto.sharedSecret == old(crypto.sharedSecret)
      ensures crypto.table == old(crypto.table) && crypto.keyReceived == old(crypto.keyReceived)
      ensures crypto.messageCounter == old(crypto.messageCounter) && crypto.pending == old(crypto.pending)
      ensures crypto.symmetricKey == old(crypto.symmetricKey)
      ensures crypto.sessionId == old(crypto.sessionId) && crypto.sessionNonce == old(crypto.sessionNonce)
      ensures crypto.publicKey == old(crypto.publicKey) && crypto.secretKey == old(crypto.secretKey)
    {
      var keyBytes := crypto.GenerateLocalKey(random);
      if keyBytes.Err? {
        return Err(Raised(0, keyBytes.error));
      }
      var key := crypto.prims.b64encode(keyBytes.value);
      sent := sent + [ExchangeCall(jid, key)];
      match reply {
        case SendRaised => return Err(SendFailed(0));
        case Fault(_) => return Err(Faulted(0));
        case NoParams => return Err(Unanswered(0));
        case Answer(keymessage) =>
          var sessionIdentifier := crypto.CompleteKeyExchange(keymessage);
          if sessionIdentifier.Err? {
            return Err(Raised(1, sessionIdentifier.error));
          }
          return Ok(sessionIdentifier.value);
      }
    }

    /** The second call: send the new-session payload as it is and decode
        the reply. */
    method OpenSession(sessionIdentifier: string, reply: Reply) returns (r: Outcome<Ending>)
      requires Valid()
      modifies this, crypto
      ensures Valid()
      ensures var payload := NewSessionPayload(crypto.proto, sessionIdentifier);
        payload.Err? ==> r == Fail(Raised(1, Write(payload.error))) && sent == old(sent)
      ensures var payload := NewSessionPayload(crypto.proto, sessionIdentifier);
        payload.Ok? ==>
          sent == old(sent) + [MessageCall(crypto.prims.b64encode(payload.value))] &&
          match reply
          case SendRaised => r == Fail(SendFailed(1))
          case Fault(_) => r == Fail(Faulted(1))
          case NoParams => r == Fail(Unanswered(1))
          case Answer(arg) =>
            var d := DecodeNewSession(crypto.proto, arg);
            (r.Pass? <==> d.Ok?) && (d.Err? ==> r.error == Raised(2, d.error))
      ensures r.Pass? ==>
        reply.Answer? && DecodeNewSession(crypto.proto, reply.arg).Ok? &&
        crypto.sessionId == Some(DecodeNewSession(crypto.proto, reply.arg).value.sessionId) &&
        crypto.sessionNonce == Some(DecodeNewSession(crypto.proto, reply.arg).value.nonce)
      ensures r.Fail? ==> crypto.sessionNonce == old(crypto.sessionNonce)
      ensures r.Fail? && !(reply.Answer? && NewSessionPayload(crypto.proto, sessionIdentifier).Ok?) ==>
        crypto.sessionId == old(crypto.sessionId)
      ensures r.Fail? && reply.Answer? && NewSessionPayload(crypto.proto, sessionIdentifier).Ok? ==>
        crypto.sessionId == if NewSessionId(crypto.proto, reply.arg).Ok? then Some(NewSessionId(crypto.proto, reply.arg).value)
          else old(crypto.sessionId)
      ensures crypto.table == old(crypto.table) && crypto.keyReceived == old(crypto.keyReceived)
      ensures crypto.messageCounter == old(crypto.messageCounter) && crypto.pending == old(crypto.pending)
      ensures crypto.symmetricKey == old(crypto.symmetricKey) && crypto.sharedSecret == old(crypto.sharedSecret)
      ensures crypto.publicKey == old(crypto.publicKey) && crypto.secretKey == old(crypto.secretKey)
    {
      var payload := StartNewSessionPayload(sessionIdentifier);
      if payload.Err? {
        return Fail(Raised(1, Write(payload.error)));
      }
      sent := sent + [MessageCall(crypto.prims.b64encode(payload.value))];
      match reply {
        case SendRaised => return Fail(SendFailed(1));
        case Fault(_) => return Fail(Faulted(1));
        case NoParams => return Fail(Unanswered(1));
        case Answer(newsessionresponse) =>
          var decoded := crypto.DecodeNewSessionResult(newsessionresponse);
          if decoded.Fail? {
            return Fail(Raised(2, decoded.error));
          }
          return Pass;
      }
    }

    /** Encrypt a payload and send it. */
    method SendEncrypted(data: seq<byte>, prefix: seq<byte>, nonceRandom: seq<byte>, step: nat)
      returns (r: Outcome<Ending>)
      requires Valid() && crypto.sessionNonce.Some? && |prefix| == NONCE_BYTES && |nonceRandom| == 8
      modifies this, crypto
      ensures Valid()
      ensures crypto.sessionId == old(crypto.sessionId) && crypto.sessionNonce == old(crypto.sessionNonce)
      ensures var c := Encrypted(crypto.prims, crypto.proto, old(crypto.keyReceived), crypto.sessionId.value,
                                 crypto.sharedSecret, crypto.sessionNonce.value, old(crypto.messageCounter),
                                 prefix, nonceRandom, data);
        (c.Err? ==> r == Fail(Raised(step, c.error)) && sent == old(sent)) &&
        (c.Ok? ==>
          r.Pass? && sent == old(sent) + [MessageCall(crypto.prims.b64encode(c.value))] &&
          crypto.pending == old(crypto.pending) + [prefix] && crypto.messageCounter == old(crypto.messageCounter) + 1)
      ensures crypto.table == old(crypto.table) && crypto.keyReceived == old(crypto.keyReceived)
      ensures crypto.symmetricKey == old(crypto.symmetricKey) && crypto.sharedSecret == old(crypto.sharedSecret)
      ensures crypto.publicKey == old(crypto.publicKey) && crypto.secretKey == old(crypto.secretKey)
    {
      var payload := crypto.EncryptPayload(data, prefix, nonceRandom);
      if payload.Err? {
        return Fail(Raised(step, payload.error));
      }
      sent := sent + [MessageCall(crypto.prims.b64encode(payload.value))];
      return Pass;
    }

    /** The third call: send the encrypted login and decrypt the reply; Ok
        carries the reader over the challenge, past its message id. */
    method LogIn(rand: Randomness, reply: Reply) returns (r: Result<MessageReader.Reader, Ending>)
      requires Valid() && Sized(rand) && crypto.sessionNonce.Some?
      modifies this, crypto, crypto.scram
      ensures Valid()
      ensures crypto.sessionId == old(crypto.sessionId) && crypto.sessionNonce == old(crypto.sessionNonce)
      ensures crypto.scram.scram == Some(ClientScram.ClientFirst(jid, crypto.prims.b64encode(rand.clientNonce)))
      ensures var login := LoginPlain(crypto.prims, crypto.proto, jid, rand.clientNonce);
        var c := if login.Err? then login
          else Encrypted(crypto.prims, crypto.proto, old(crypto.keyReceived), crypto.sessionId.value,
                         crypto.sharedSecret, crypto.sessionNonce.value, old(crypto.messageCounter),
                         rand.loginPrefix, rand.loginNonce, login.value);
        (c.Err? ==> r == Err(Raised(2, c.error)) && sent == old(sent)) &&
        (c.Ok? ==>
          sent == old(sent) + [MessageCall(crypto.prims.b64encode(c.value))] &&
          match reply
          case SendRaised => r == Err(SendFailed(2))
          case Fault(_) => r == Err(Faulted(2))
          case NoParams => r == Err(Raised(3, MissingAttribute))
          case Answer(arg) =>
            var d := Decrypt(crypto.prims, arg, old(crypto.pending) + [rand.loginPrefix], crypto.sharedSecret,
                             old(crypto.table), old(crypto.keyReceived));
            (if d.result.Err? then r == Err(Raised(3, d.result.error))
             else if d.result.value >= |d.plain| then r == Err(Raised(3, Read(MessageReader.InsufficientData)))
             else if d.plain[d.result.value] != crypto.proto.msgSaslChallenge then r == Err(WrongResponse(d.plain[d.result.value]))
             else (r.Ok? && fresh(r.value) && r.value.Valid() && r.value.data == d.plain &&
               r.value.offset == d.result.value + 1)) &&
            crypto.pending == PendingAfter(old(crypto.pending) + [rand.loginPrefix], d) &&
            crypto.table == d.table && crypto.keyReceived == d.keyReceived &&
            crypto.messageCounter == old(crypto.messageCounter) + 1)
      ensures var login := LoginPlain(crypto.prims, crypto.proto, jid, rand.clientNonce);
        var c := if login.Err? then login
          else Encrypted(crypto.prims, crypto.proto, old(crypto.keyReceived), crypto.sessionId.value,
                         crypto.sharedSecret, crypto.sessionNonce.value, old(crypto.messageCounter),
                         rand.loginPrefix, rand.loginNonce, login.value);
        c.Ok? && !reply.Answer? ==>
          crypto.pending == old(crypto.pending) + [rand.loginPrefix] && crypto.messageCounter == old(crypto.messageCounter) + 1
          && crypto.table == old(crypto.table) && crypto.keyReceived == old(crypto.keyReceived)
      ensures crypto.sharedSecret == old(crypto.sharedSecret)
      ensures crypto.publicKey == old(crypto.publicKey) && crypto.secretKey == old(crypto.secretKey)
    {
      hide Decrypt, Encrypted, PendingAfter;
      var scram := crypto.scram.CreateClientFirst(jid, rand.clientNonce);
      var login := LoginSaslPayload(crypto.proto, scram.value);
      if login.Err? {
        return Err(Raised(2, Write(login.error)));
      }
      var s := SendEncrypted(login.value, rand.loginPrefix, rand.loginNonce, 2);
      if s.Fail? {
        return Err(s.error);
      }
      match reply {
        case SendRaised => return Err(SendFailed(2));
        case Fault(_) => return Err(Faulted(2));
        case NoParams => return Err(Raised(3, MissingAttribute));
        case Answer(saslChallengeResponse) =>
          r := ReadReply(saslChallengeResponse, crypto.proto.msgSaslChallenge, 3);
          if r.Err? && r.error.NotConfirmed? {
            r := Err(WrongResponse(r.error.msgId));
          }
      }
    }

    /** The fourth call: answer the challenge read from `challenge`, send
        the encrypted response and decrypt the reply; Ok carries the reader
        over a login success, past its message id. */
    method Respond(challenge: MessageReader.Reader, rand: Randomness, reply: Reply)
      returns (r: Result<MessageReader.Reader, Ending>)
      requires Valid() && challenge.Valid() && crypto.sessionNonce.Some? && Sized(rand)
      modifies this, crypto, crypto.scram, challenge
      ensures Valid()
      ensures crypto.sessionId == old(crypto.sessionId) && crypto.sessionNonce == old(crypto.sessionNonce)
      ensures var resp := ResponsePlain(crypto.prims, crypto.proto, crypto.password, old(crypto.scram.scram),
                                        challenge.data, old(challenge.offset));
        var c := if resp.Err? then resp
          else Encrypted(crypto.prims, crypto.proto, old(crypto.keyReceived), crypto.sessionId.value,
                         crypto.sharedSecret, crypto.sessionNonce.value, old(crypto.messageCounter),
                         rand.responsePrefix, rand.responseNonce, resp.value);
        (c.Err? ==> r == Err(Raised(3, c.error)) && sent == old(sent)) &&
        (c.Ok? ==>
          sent == old(sent) + [MessageCall(crypto.prims.b64encode(c.value))] &&
          match reply
          case SendRaised => r == Err(SendFailed(3))
          case Fault(_) => r == Err(Faulted(3))
          case NoParams => r == Err(Unanswered(3))
          case Answer(arg) =>
            var d := Decrypt(crypto.prims, arg, old(crypto.pending) + [rand.responsePrefix], crypto.sharedSecret,
                             old(crypto.table), old(crypto.keyReceived));
            if d.result.Err? then r == Err(Raised(4, d.result.error))
            else if d.result.value >= |d.plain| then r == Err(Raised(4, Read(MessageReader.InsufficientData)))
            else if d.plain[d.result.value] != crypto.proto.msgSaslLoginSuccess then r == Err(NotConfirmed(d.plain[d.result.value]))
            else (r.Ok? && fresh(r.value) && r.value.Valid() && r.value.data == d.plain &&
              r.value.offset == d.result.value + 1))
      ensures crypto.scram.scram == old(crypto.scram.scram)
      ensures crypto.sharedSecret == old(crypto.sharedSecret)
      ensures crypto.publicKey == old(crypto.publicKey) && crypto.secretKey == old(crypto.secretKey)
    {
      hide Decrypt, Encrypted;
      var clientFinal := crypto.ProcessSaslChallenge(challenge);
      if clientFinal.Err? {
        return Err(Raised(3, clientFinal.error));
      }
      var saslResponse := BuildSaslResponse(crypto.proto, clientFinal.value);
      if saslResponse.Err? {
        return Err(Raised(3, Write(saslResponse.error)));
      }
      var s := SendEncrypted(saslResponse.value, rand.responsePrefix, rand.responseNonce, 3);
      if s.Fail? {
        return Err(s.error);
      }
      match reply {
        case SendRaised => return Err(SendFailed(3));
        case Fault(_) => return Err(Faulted(3));
        case NoParams => return Err(Unanswered(3));
        case Answer(saslChallengeResponse2) =>
          r := ReadReply(saslChallengeResponse2, crypto.proto.msgSaslLoginSuccess, 4);
      }
    }

    /** Decrypt a reply and read its message id; Ok when it is `expected`,
        with the reader past it. */
    method ReadReply(message: seq<byte>, expected: int, step: nat) returns (r: Result<MessageReader.Reader, Ending>)
      requires Valid()
      modifies crypto
      ensures Valid()
      ensures var d := Decrypt(crypto.prims, message, old(crypto.pending), crypto.sharedSecret,
                               old(crypto.table), old(crypto.keyReceived));
        (if d.result.Err? then r == Err(Raised(step, d.result.error))
         else if d.result.value >= |d.plain| then r == Err(Raised(step, Read(MessageReader.InsufficientData)))
         else if d.plain[d.result.value] != expected then r == Err(NotConfirmed(d.plain[d.result.value]))
         else (r.Ok? && fresh(r.value) && r.value.Valid() && r.value.data == d.plain &&
           r.value.offset == d.result.value + 1)) &&
        crypto.pending == PendingAfter(old(crypto.pending), d) &&
        crypto.table == d.table && crypto.keyReceived == d.keyReceived
      ensures crypto.messageCounter == old(crypto.messageCounter) && crypto.sharedSecret == old(crypto.sharedSecret)
      ensures crypto.sessionId == old(crypto.sessionId) && crypto.sessionNonce == old(crypto.sessionNonce)
      ensures crypto.publicKey == old(crypto.publicKey) && crypto.secretKey == old(crypto.secretKey)
    {
      var message' := crypto.DecryptPayload(message);
      if message'.Err? {
        return Err(Raised(step, message'.error));
      }
      var msgId := message'.value.ReadUint8();
      if msgId.Err? {
        return Err(Raised(step, Read(msgId.error)));
      }
      if msgId.value != expected {
        return Err(NotConfirmed(msgId.value));
      }
      return Ok(message'.value);
    }
  }
}
