/** The client side of SCRAM-SHA-256 (RFC 5802 with the hash of RFC 7677) as
    custom_components/freeathome/fah/clientscramhandler.py runs it: the
    client-first message, the parsing of the server-first message, the
    client proof and the check of the server signature. */
module ClientScram {
  import opened Wrappers
  import opened Bytes
  import Utf8
  import opened PyValue
  import opened Primitives

  datatype ScramError =
    | RandomBytes           // random(32) gave a wrong length
    | MissingParameter      // r, s or i absent from the server-first message
    | SaltTooShort          // the s attribute has fewer than 32 characters
    | BadIterationCount     // int(i) raised ValueError
    | IterationsOutOfRange  // i outside [4096, 600000]
    | BadSalt               // s is not base64 of at least 32 bytes
    | MissingState          // an attribute read before it was set (AttributeError)
    | ServerSignatureMismatch

  const MIN_ITERATIONS: int := 4096
  const MAX_ITERATIONS: int := 600000

  /** sub occurs in s at index j. */
  predicate MatchAt(s: string, sub: string, j: nat)
  {
    j + |sub| <= |s| && s[j..j + |sub|] == sub
  }

  /** str.find(sub, start): the first index at or after start where sub
      occurs, or -1. */
  function FindFrom(s: string, sub: string, start: nat): (i: int)
    requires |sub| > 0
    ensures i == -1 || (start <= i && MatchAt(s, sub, i))
    decreases |s| - start
  {
    if start + |sub| > |s| then -1
    else if MatchAt(s, sub, start) then start
    else FindFrom(s, sub, start + 1)
  }

  /** str.find returns the first occurrence: none comes earlier, and -1
      means there is none at all. */
  lemma {:induction false} FindFromFirst(s: string, sub: string, start: nat)
    requires |sub| > 0
    ensures var i := FindFrom(s, sub, start);
      (i != -1 ==> forall j :: start <= j < i ==> !MatchAt(s, sub, j)) &&
      (i == -1 ==> forall j :: start <= j ==> !MatchAt(s, sub, j))
    decreases |s| - start
  {
    if start + |sub| <= |s| && s[start..start + |sub|] != sub {
      FindFromFirst(s, sub, start + 1);
    }
  }

  /** searchItem: the value of attribute `name` in a comma-separated list of
      name=value pairs, or "" when the attribute is absent. */
  function SearchItem(msg: string, name: char): (v: string)
    ensures |v| <= |msg|
  {
    if |msg| < 2 then ""
    else
      var bc := if msg[0] == name && msg[1] == '=' then 0
        else
          var f := FindFrom(msg, [',', name, '='], 0);
          if f == -1 then -1 else f + 1;
      if bc == -1 then ""
      else
        var f := FindFrom(msg, ",", bc);
        var bd := if f == -1 then |msg| else f;
        if bc + 2 <= bd then msg[bc + 2..bd] else ""
  }

  predicate NoComma(s: string) { forall i :: 0 <= i < |s| ==> s[i] != ',' }

  /** A list of attributes, each "name=value", joined by commas. */
  function Attributes(attrs: seq<(char, string)>): string
  {
    if attrs == [] then ""
    else if |attrs| == 1 then [attrs[0].0, '='] + attrs[0].1
    else [attrs[0].0, '='] + attrs[0].1 + "," + Attributes(attrs[1..])
  }

  lemma FindFromNoMatch(s: string, sub: string, start: nat, k: nat)
    requires |sub| > 0 && start <= k
    requires forall j :: start <= j < k ==> !MatchAt(s, sub, j)
    ensures FindFrom(s, sub, start) == FindFrom(s, sub, k)
    decreases k - start
  {
    if start < k {
      FindFromNoMatch(s, sub, start + 1, k);
    }
  }

  lemma FindFromHere(s: string, sub: string, k: nat)
    requires |sub| > 0 && MatchAt(s, sub, k)
    ensures FindFrom(s, sub, k) == k
  {
  }

  /** Where the next comma at or after `start` is, when s[start..k] has none. */
  lemma FindComma(s: string, start: nat, k: nat)
    requires start <= k <= |s| && NoComma(s[start..k])
    ensures k < |s| && s[k] == ',' ==> FindFrom(s, ",", start) == k
    ensures k == |s| ==> FindFrom(s, ",", start) == -1
  {
    forall j | start <= j < k
      ensures !MatchAt(s, ",", j)
    {
      assert s[j] == s[start..k][j - start];
    }
    FindFromNoMatch(s, ",", start, k);
    if k < |s| && s[k] == ',' {
      assert MatchAt(s, ",", k);
    }
  }

  /** searchItem on a message whose first attribute is the one sought. */
  lemma SearchItemFirst(name: char, v: string, rest: string)
    requires name != ',' && NoComma(v) && (rest == "" || rest[0] == ',')
    ensures SearchItem([name, '='] + v + rest, name) == v
  {
    var msg := [name, '='] + v + rest;
    assert msg[2..2 + |v|] == v;
    FindComma(msg, 0, 2 + |v|);
  }

  /** A comma at index j of p, if there is one, starts an attribute whose
      name is not `name`. */
  predicate OtherNameAt(p: string, name: char, j: nat)
  {
    j < |p| && p[j] == ',' ==> j + 2 < |p| && p[j + 1] != name
  }

  /** Every comma of p starts an attribute whose name is not `name`. */
  predicate CommasAvoid(p: string, name: char)
  {
    forall j :: 0 <= j < |p| ==> OtherNameAt(p, name, j)
  }

  /** No occurrence of ",name=" starts inside p when every comma of p is
      followed by another name. */
  lemma NoPatternInPrefix(p: string, name: char, tail: string)
    requires CommasAvoid(p, name)
    ensures forall j :: 0 <= j < |p| ==> !MatchAt(p + tail, [',', name, '='], j)
  {
    var msg := p + tail;
    forall j | 0 <= j < |p|
      ensures !MatchAt(msg, [',', name, '='], j)
    {
      if j + 3 <= |msg| {
        assert msg[j..j + 3][0] == p[j];
        assert OtherNameAt(p, name, j);
        if p[j] == ',' {
          assert msg[j..j + 3][1] == p[j + 1];
        }
      }
    }
  }

  /** searchItem on a message where the attribute sought follows a prefix p
      in which every comma starts an attribute of another name. */
  lemma SearchItemAfter(p: string, name: char, v: string, rest: string)
    requires name != ',' && NoComma(v) && (rest == "" || rest[0] == ',')
    requires |p| > 0 ==> p[0] != name
    requires CommasAvoid(p, name)
    ensures SearchItem(p + "," + [name, '='] + v + rest, name) == v
  {
    hide FindFrom;
    var tail := "," + [name, '='] + v + rest;
    var msg := p + tail;
    assert msg == p + "," + [name, '='] + v + rest;
    var pat := [',', name, '='];
    assert msg[0] != name;
    NoPatternInPrefix(p, name, tail);
    FindFromNoMatch(msg, pat, 0, |p|);
    assert msg[|p|..|p| + 3] == pat;
    FindFromHere(msg, pat, |p|);
    var bc := |p| + 1;
    assert msg[bc + 2..bc + 2 + |v|] == v;
    FindComma(msg, bc, bc + 2 + |v|);
  }

  /** Every comma of an attribute list is followed by a name of a later
      attribute and '='. */
  lemma {:induction false} AttributesShape(attrs: seq<(char, string)>)
    requires forall i :: 0 <= i < |attrs| ==> NoComma(attrs[i].1) && attrs[i].0 != ','
    ensures |attrs| > 0 ==> (|Attributes(attrs)| >= 2 &&
      Attributes(attrs)[0] == attrs[0].0 && Attributes(attrs)[1] == '=')
    ensures forall j :: 0 <= j < |Attributes(attrs)| && Attributes(attrs)[j] == ',' ==>
      j + 2 < |Attributes(attrs)| && Attributes(attrs)[j + 2] == '=' &&
      exists i :: 1 <= i < |attrs| && Attributes(attrs)[j + 1] == attrs[i].0
  {
    if |attrs| == 1 {
      var s := Attributes(attrs);
      forall j | 0 <= j < |s|
        ensures s[j] != ','
      {
        if j >= 2 {
          assert s[j] == attrs[0].1[j - 2];
        }
      }
    } else if |attrs| > 1 {
      AttributesShape(attrs[1..]);
      var head := [attrs[0].0, '='] + attrs[0].1;
      var tail := Attributes(attrs[1..]);
      var s := Attributes(attrs);
      assert s == head + "," + tail;
      forall j | 0 <= j < |head|
        ensures s[j] != ','
      {
        if j >= 2 {
          assert s[j] == attrs[0].1[j - 2];
        }
      }
      forall j | |head| <= j < |s| && s[j] == ','
        ensures j + 2 < |s| && s[j + 2] == '=' && exists i :: 1 <= i < |attrs| && s[j + 1] == attrs[i].0
      {
        if j == |head| {
          assert s[j + 1] == attrs[1].0;
        } else {
          var j' := j - |head| - 1;
          assert s[j] == tail[j'];
          assert s[j + 1] == tail[j' + 1] && s[j + 2] == tail[j' + 2];
          var i :| 1 <= i < |attrs[1..]| && tail[j' + 1] == attrs[1..][i].0;
          assert s[j + 1] == attrs[i + 1].0;
        }
      }
    }
  }

  lemma {:induction false} AttributesSplit(attrs: seq<(char, string)>, k: nat)
    requires 0 < k < |attrs|
    ensures Attributes(attrs) == Attributes(attrs[..k]) + "," + Attributes(attrs[k..])
  {
    if k > 1 {
      AttributesSplit(attrs[1..], k - 1);
      assert attrs[1..][..k - 1] == attrs[..k][1..];
      assert attrs[1..][k - 1..] == attrs[k..];
    }
  }

  /** The attribute list from index k on: attribute k, then the rest. */
  lemma SuffixShape(attrs: seq<(char, string)>, k: nat)
    requires k < |attrs|
    ensures Attributes(attrs[k..]) == [attrs[k].0, '='] + attrs[k].1 +
      (if k + 1 == |attrs| then "" else "," + Attributes(attrs[k + 1..]))
  {
    assert attrs[k..][1..] == attrs[k + 1..];
  }

  /** Every comma before attribute k introduces a name other than its own. */
  lemma PrefixCommas(attrs: seq<(char, string)>, k: nat)
    requires 0 < k < |attrs|
    requires forall i :: 0 <= i < |attrs| ==> NoComma(attrs[i].1) && attrs[i].0 != ','
    requires forall i, j :: 0 <= i < j < |attrs| ==> attrs[i].0 != attrs[j].0
    ensures var p := Attributes(attrs[..k]);
      |p| > 0 && p[0] != attrs[k].0 && CommasAvoid(p, attrs[k].0)
  {
    var prefix := attrs[..k];
    AttributesShape(prefix);
    var p := Attributes(prefix);
    forall j | 0 <= j < |p|
      ensures OtherNameAt(p, attrs[k].0, j)
    {
      if p[j] == ',' {
        var i :| 1 <= i < |prefix| && p[j + 1] == prefix[i].0;
        assert prefix[i] == attrs[i];
      }
    }
  }

  /** In an attribute list whose names are distinct and whose values hold no
      comma, searchItem finds the value of every attribute. */
  lemma SearchItemFinds(attrs: seq<(char, string)>, k: nat)
    requires k < |attrs|
    requires forall i :: 0 <= i < |attrs| ==> NoComma(attrs[i].1) && attrs[i].0 != ','
    requires forall i, j :: 0 <= i < j < |attrs| ==> attrs[i].0 != attrs[j].0
    ensures SearchItem(Attributes(attrs), attrs[k].0) == attrs[k].1
  {
    var name, v := attrs[k].0, attrs[k].1;
    var rest := if k + 1 == |attrs| then "" else "," + Attributes(attrs[k + 1..]);
    SuffixShape(attrs, k);
    if k == 0 {
      assert attrs[0..] == attrs;
      SearchItemFirst(name, v, rest);
    } else {
      SearchItemLater(attrs, k, rest);
    }
  }

  /** The attribute list split before attribute k, with what searchItem
      needs to know about the part in front. */
  lemma LaterShape(attrs: seq<(char, string)>, k: nat, rest: string) returns (p: string)
    requires 0 < k < |attrs|
    requires forall i :: 0 <= i < |attrs| ==> NoComma(attrs[i].1) && attrs[i].0 != ','
    requires forall i, j :: 0 <= i < j < |attrs| ==> attrs[i].0 != attrs[j].0
    requires Attributes(attrs[k..]) == [attrs[k].0, '='] + attrs[k].1 + rest
    ensures Attributes(attrs) == p + "," + [attrs[k].0, '='] + attrs[k].1 + rest
    ensures |p| > 0 && p[0] != attrs[k].0 && CommasAvoid(p, attrs[k].0)
  {
    AttributesSplit(attrs, k);
    PrefixCommas(attrs, k);
    p := Attributes(attrs[..k]);
  }

  lemma SearchItemLater(attrs: seq<(char, string)>, k: nat, rest: string)
    requires 0 < k < |attrs|
    requires forall i :: 0 <= i < |attrs| ==> NoComma(attrs[i].1) && attrs[i].0 != ','
    requires forall i, j :: 0 <= i < j < |attrs| ==> attrs[i].0 != attrs[j].0
    requires Attributes(attrs[k..]) == [attrs[k].0, '='] + attrs[k].1 + rest
    requires rest == "" || rest[0] == ','
    ensures SearchItem(Attributes(attrs), attrs[k].0) == attrs[k].1
  {
    var p := LaterShape(attrs, k, rest);
    SearchItemAfter(p, attrs[k].0, attrs[k].1, rest);
  }

  /** byte_xor: the pairwise exclusive or, as long as the shorter input. */
  function ByteXor(a: seq<byte>, b: seq<byte>): (r: seq<byte>)
    ensures |r| == if |a| < |b| then |a| else |b|
  {
    if a == [] || b == [] then [] else [Xor(a[0], b[0])] + ByteXor(a[1..], b[1..])
  }

  /** Exclusive or with the same bytes twice gives the input back: the
      server recovers ClientKey from the proof (RFC 5802, section 3). */
  lemma {:induction false} ByteXorTwice(a: seq<byte>, b: seq<byte>)
    requires |a| == |b|
    ensures ByteXor(ByteXor(a, b), b) == a
  {
    if a != [] {
      ByteXorTwice(a[1..], b[1..]);
      XorTwice(a[0], b[0]);
    }
  }

  /** SaltedPassword of RFC 5802, section 3. */
  function SaltedPassword(p: Primitives, password: string, salt: seq<byte>, iterations: int): Digest
  {
    p.pbkdf2HmacSha256(Utf8.Encode(password), salt, iterations)
  }

  /** The ASCII bytes of the labels "Client Key" and "Server Key". */
  const CLIENT_KEY_LABEL: seq<byte> := [0x43, 0x6c, 0x69, 0x65, 0x6e, 0x74, 0x20, 0x4b, 0x65, 0x79]
  const SERVER_KEY_LABEL: seq<byte> := [0x53, 0x65, 0x72, 0x76, 0x65, 0x72, 0x20, 0x4b, 0x65, 0x79]

  /** The label is the UTF-8 encoding of "Client Key". */
  lemma ClientKeyLabel()
    ensures Utf8.Encode("Client Key") == CLIENT_KEY_LABEL
  {
    Utf8.AsciiBytes("Client Key", CLIENT_KEY_LABEL);
  }

  /** The label is the UTF-8 encoding of "Server Key". */
  lemma ServerKeyLabel()
    ensures Utf8.Encode("Server Key") == SERVER_KEY_LABEL
  {
    Utf8.AsciiBytes("Server Key", SERVER_KEY_LABEL);
  }

  /** createClientKey: HMAC(SaltedPassword, "Client Key"). */
  function ClientKey(p: Primitives, password: string, salt: seq<byte>, iterations: int): Digest
  {
    p.hmacSha256(SaltedPassword(p, password, salt, iterations), CLIENT_KEY_LABEL)
  }

  /** createServerKey: HMAC(SaltedPassword, "Server Key"). */
  function ServerKey(p: Primitives, password: string, salt: seq<byte>, iterations: int): Digest
  {
    p.hmacSha256(SaltedPassword(p, password, salt, iterations), SERVER_KEY_LABEL)
  }

  /** createClientSignature: HMAC(H(ClientKey), AuthMessage). */
  function ClientSignature(p: Primitives, clientKey: seq<byte>, authMessage: string): Digest
  {
    p.hmacSha256(p.sha256(clientKey), Utf8.Encode(authMessage))
  }

  /** ClientProof := ClientKey XOR ClientSignature, and the server's check:
      XOR-ing the proof with the signature it computes itself gives a key
      whose hash is StoredKey = H(ClientKey). */
  lemma ProofVerifies(p: Primitives, clientKey: Digest, authMessage: string)
    ensures var proof := ByteXor(ClientSignature(p, clientKey, authMessage), clientKey);
      |proof| == 32 &&
      p.sha256(ByteXor(proof, ClientSignature(p, clientKey, authMessage))) == p.sha256(clientKey)
  {
    var sig := ClientSignature(p, clientKey, authMessage);
    ByteXorTwice(clientKey, sig);
    ByteXorCommutes(sig, clientKey);
  }

  lemma {:induction false} ByteXorCommutes(a: seq<byte>, b: seq<byte>)
    ensures ByteXor(a, b) == ByteXor(b, a)
  {
    if a != [] && b != [] {
      ByteXorCommutes(a[1..], b[1..]);
      XorTwice(a[0], b[0]);
    }
  }

  /** The client-first message of RFC 5802, section 7, with the gs2 header
      "n,," (no channel binding, no authzid). */
  function ClientFirst(username: string, nonce: string): string
  {
    "n,,n=" + username + ",r=" + nonce
  }

  class Handler {
    const prims: Primitives
    var scram: Option<string>
    var serverChallengeResponse: Option<string>
    var serverNonce: Option<string>
    var salt: Option<seq<byte>>
    var iterations: Option<int>
    var clientKey: Option<Digest>
    var serverKey: Option<Digest>
    var authMessage: Option<string>

    constructor (prims: Primitives)
      ensures this.prims == prims
      ensures scram == serverChallengeResponse == serverNonce == authMessage == None
      ensures salt == None && iterations == None && clientKey == None && serverKey == None
    {
      this.prims := prims;
      scram, serverChallengeResponse, serverNonce, authMessage := None, None, None, None;
      salt, iterations, clientKey, serverKey := None, None, None, None;
    }

    /** createClientFirst: `random` stands for the 32 random bytes asked of
        the library. */
    method CreateClientFirst(text: string, random: seq<byte>) returns (r: Result<string, ScramError>)
      modifies this
      ensures |random| != 32 ==> r == Err(RandomBytes) && scram == old(scram)
      ensures |random| == 32 ==> r == Ok(ClientFirst(text, prims.b64encode(random))) && scram == Some(r.value)
      ensures serverChallengeResponse == old(serverChallengeResponse) && serverNonce == old(serverNonce)
      ensures salt == old(salt) && iterations == old(iterations) && authMessage == old(authMessage)
      ensures clientKey == old(clientKey) && serverKey == old(serverKey)
    {
      if |random| != 32 {
        return Err(RandomBytes);
      }
      var n := prims.b64encode(random);
      scram := Some("n,,n=" + text + ",r=" + n);
      return Ok(scram.value);
    }

    /** setServerFirst: parse r, s and i, check them and derive the keys. */
    method SetServerFirst(response: string, password: string) returns (r: Outcome<ScramError>)
      modifies this
      ensures var res := ParseServerFirst(prims, response);
        (r.Pass? <==> res.Ok?) && (r.Fail? ==> r.error == res.error)
      ensures serverChallengeResponse == Some(response)
      ensures serverNonce == Some(SearchItem(response, 'r'))
      ensures iterations == if ParsedIterations(prims, response) then ParseInt(SearchItem(response, 'i')) else old(iterations)
      ensures salt == if DecodedSalt(prims, response) then prims.b64decode(SearchItem(response, 's')) else old(salt)
      ensures var res := ParseServerFirst(prims, response);
        if res.Ok? then
          iterations == Some(res.value.iterations) && salt == Some(res.value.salt) &&
          clientKey == Some(ClientKey(prims, password, res.value.salt, res.value.iterations)) &&
          serverKey == Some(ServerKey(prims, password, res.value.salt, res.value.iterations))
        else clientKey == old(clientKey) && serverKey == old(serverKey)
      ensures scram == old(scram) && authMessage == old(authMessage)
    {
      serverChallengeResponse := Some(response);
      serverNonce := Some(SearchItem(response, 'r'));
      r := CheckServerFirst(serverNonce.value, SearchItem(response, 's'), SearchItem(response, 'i'), password);
    }

    /** The checks of setServerFirst on the three attribute values. Each
        attribute is stored as soon as it is computed, so a failure leaves
        the earlier ones set. */
    method CheckServerFirst(nonce: string, saltString: string, iterationString: string, password: string)
      returns (r: Outcome<ScramError>)
      modifies this
      ensures var res := CheckAttributes(prims, nonce, saltString, iterationString);
        (r.Pass? <==> res.Ok?) && (r.Fail? ==> r.error == res.error)
      ensures iterations == if IterationsStored(prims, nonce, saltString, iterationString)
        then ParseInt(iterationString) else old(iterations)
      ensures salt == if SaltStored(prims, nonce, saltString, iterationString)
        then prims.b64decode(saltString) else old(salt)
      ensures var res := CheckAttributes(prims, nonce, saltString, iterationString);
        if res.Ok? then
          iterations == Some(res.value.iterations) && salt == Some(res.value.salt) &&
          clientKey == Some(ClientKey(prims, password, res.value.salt, res.value.iterations)) &&
          serverKey == Some(ServerKey(prims, password, res.value.salt, res.value.iterations))
        else clientKey == old(clientKey) && serverKey == old(serverKey)
      ensures scram == old(scram) && authMessage == old(authMessage)
      ensures serverChallengeResponse == old(serverChallengeResponse) && serverNonce == old(serverNonce)
    {
      if |nonce| == 0 || |saltString| == 0 || |iterationString| == 0 {
        return Fail(MissingParameter);
      }
      if |saltString| < 32 {
        return Fail(SaltTooShort);
      }
      var parsed := ParseInt(iterationString);
      if parsed.None? {
        return Fail(BadIterationCount);
      }
      iterations := parsed;
      if parsed.value < MIN_ITERATIONS || parsed.value > MAX_ITERATIONS {
        return Fail(IterationsOutOfRange);
      }
      var decoded := prims.b64decode(saltString);
      if decoded.None? {
        return Fail(BadSalt);
      }
      salt := decoded;
      if |decoded.value| < 32 {
        return Fail(BadSalt);
      }
      clientKey := Some(ClientKey(prims, password, decoded.value, parsed.value));
      serverKey := Some(ServerKey(prims, password, decoded.value, parsed.value));
      return Pass;
    }

    /** createClientFinal: the client-final message with the proof. */
    method CreateClientFinal() returns (r: Result<string, ScramError>)
      modifies this
      ensures r.Ok? <==> serverNonce.Some? && scram.Some? && serverChallengeResponse.Some? && clientKey.Some?
      ensures r.Err? ==> r.error == MissingState
      ensures r.Ok? ==> authMessage == Some(AuthMessage(scram.value, serverChallengeResponse.value, serverNonce.value))
      ensures serverNonce.Some? && scram.Some? && serverChallengeResponse.Some? ==>
                authMessage == Some(AuthMessage(scram.value, serverChallengeResponse.value, serverNonce.value))
      ensures !(serverNonce.Some? && scram.Some? && serverChallengeResponse.Some?) ==> authMessage == old(authMessage)
      ensures r.Ok? ==> (r.value == ClientFinalWithoutProof(serverNonce.value) + ",p=" +
        prims.b64encode(ByteXor(ClientSignature(prims, clientKey.value, authMessage.value), clientKey.value)))
      ensures scram == old(scram) && serverChallengeResponse == old(serverChallengeResponse)
      ensures serverNonce == old(serverNonce) && salt == old(salt) && iterations == old(iterations)
      ensures clientKey == old(clientKey) && serverKey == old(serverKey)
    {
      if serverNonce.None? {
        return Err(MissingState);
      }
      var bare := "c=biws,r=" + serverNonce.value;
      if scram.None? || serverChallengeResponse.None? {
        return Err(MissingState);
      }
      authMessage := Some(DropFirst(scram.value, 3) + "," + serverChallengeResponse.value + "," + bare);
      if clientKey.None? {
        return Err(MissingState);
      }
      var signature := ClientSignature(prims, clientKey.value, authMessage.value);
      var proof := ByteXor(signature, clientKey.value);
      var q := prims.b64encode(proof);
      return Ok(bare + ",p=" + q);
    }

    /** setServerFinal: the v attribute must be the base64 of
        HMAC(ServerKey, AuthMessage). */
    method SetServerFinal(x: string) returns (r: Outcome<ScramError>)
      ensures r.Pass? <==> (serverKey.Some? && authMessage.Some? &&
        SearchItem(x, 'v') == ServerSignature(prims, serverKey.value, authMessage.value))
      ensures r.Fail? ==> r.error == if serverKey.None? || authMessage.None? then MissingState else ServerSignatureMismatch
    {
      var y := Utf8.Encode(SearchItem(x, 'v'));
      if serverKey.None? || authMessage.None? {
        return Fail(MissingState);
      }
      var bb := prims.hmacSha256(serverKey.value, Utf8.Encode(authMessage.value));
      var ba := Utf8.Encode(prims.b64encode(bb));
      if y != ba {
        Utf8.DecodeEncode(SearchItem(x, 'v'));
        return Fail(ServerSignatureMismatch);
      }
      Utf8.EncodeInjective(SearchItem(x, 'v'), prims.b64encode(bb));
      return Pass;
    }
  }

  /** What setServerFirst keeps of an accepted server-first message. */
  datatype ServerFirst = ServerFirst(nonce: string, salt: seq<byte>, iterations: int)

  /** The checks of setServerFirst, in the order it makes them, on the
      values of the r, s and i attributes. */
  function CheckAttributes(p: Primitives, nonce: string, s: string, i: string): (r: Result<ServerFirst, ScramError>)
    ensures r.Ok? ==> r.value.nonce == nonce && |nonce| > 0
  {
    if |nonce| == 0 || |s| == 0 || |i| == 0 then Err(MissingParameter)
    else if |s| < 32 then Err(SaltTooShort)
    else if ParseInt(i).None? then Err(BadIterationCount)
    else if ParseInt(i).value < MIN_ITERATIONS || ParseInt(i).value > MAX_ITERATIONS then Err(IterationsOutOfRange)
    else if p.b64decode(s).None? || |p.b64decode(s).value| < 32 then Err(BadSalt)
    else Ok(ServerFirst(nonce, p.b64decode(s).value, ParseInt(i).value))
  }

  /** setServerFirst on a whole server-first message. */
  function ParseServerFirst(p: Primitives, response: string): (r: Result<ServerFirst, ScramError>)
    ensures r.Ok? ==> r.value.nonce == SearchItem(response, 'r') && |r.value.nonce| > 0
  {
    hide SearchItem, CheckAttributes;
    CheckAttributes(p, SearchItem(response, 'r'), SearchItem(response, 's'), SearchItem(response, 'i'))
  }

  /** A server-first message r=nonce,s=salt,i=count (the attributes in any
      order, among others with distinct names and values without commas)
      is accepted exactly with those values when they pass the checks. */
  lemma ParseServerFirstOf(p: Primitives, attrs: seq<(char, string)>, kr: nat, ks: nat, ki: nat, n: int)
    requires forall i :: 0 <= i < |attrs| ==> NoComma(attrs[i].1) && attrs[i].0 != ','
    requires forall i, j :: 0 <= i < j < |attrs| ==> attrs[i].0 != attrs[j].0
    requires kr < |attrs| && ks < |attrs| && ki < |attrs|
    requires attrs[kr].0 == 'r' && attrs[ks].0 == 's' && attrs[ki] == ('i', IntToString(n))
    requires |attrs[kr].1| > 0 && |attrs[ks].1| >= 32 && MIN_ITERATIONS <= n <= MAX_ITERATIONS
    requires p.b64decode(attrs[ks].1).Some? && |p.b64decode(attrs[ks].1).value| >= 32
    ensures ParseServerFirst(p, Attributes(attrs)) ==
      Ok(ServerFirst(attrs[kr].1, p.b64decode(attrs[ks].1).value, n))
  {
    SearchItemFinds(attrs, kr);
    SearchItemFinds(attrs, ks);
    SearchItemFinds(attrs, ki);
    ParseIntToString(n);
  }

  /** The checks got as far as storing the iteration count. */
  predicate IterationsStored(p: Primitives, nonce: string, s: string, i: string)
  {
    var res := CheckAttributes(p, nonce, s, i);
    res.Ok? || res.error == IterationsOutOfRange || res.error == BadSalt
  }

  /** The checks got as far as storing the decoded salt. */
  predicate SaltStored(p: Primitives, nonce: string, s: string, i: string)
  {
    var res := CheckAttributes(p, nonce, s, i);
    res.Ok? || (res.error == BadSalt && p.b64decode(s).Some?)
  }

  predicate ParsedIterations(p: Primitives, response: string)
  {
    IterationsStored(p, SearchItem(response, 'r'), SearchItem(response, 's'), SearchItem(response, 'i'))
  }

  predicate DecodedSalt(p: Primitives, response: string)
  {
    SaltStored(p, SearchItem(response, 'r'), SearchItem(response, 's'), SearchItem(response, 'i'))
  }

  /** AuthMessage of RFC 5802, section 3: client-first-message-bare,
      server-first-message and client-final-message-without-proof. */
  function AuthMessage(clientFirst: string, serverFirst: string, serverNonce: string): string
  {
    DropFirst(clientFirst, 3) + "," + serverFirst + "," + ClientFinalWithoutProof(serverNonce)
  }

  /** Python's s[k:], which is empty when s is shorter than k. */
  function DropFirst(s: string, k: nat): string
  {
    if k <= |s| then s[k..] else ""
  }

  /** "c=biws" is the base64 of the gs2 header "n,,". */
  function ClientFinalWithoutProof(serverNonce: string): string
  {
    "c=biws,r=" + serverNonce
  }

  /** ServerSignature := HMAC(ServerKey, AuthMessage), base64 encoded. */
  function ServerSignature(p: Primitives, serverKey: seq<byte>, authMessage: string): string
  {
    p.b64encode(p.hmacSha256(serverKey, Utf8.Encode(authMessage)))
  }
}
