/** The cryptographic and encoding primitives the protocol code takes from
    libraries outside the repository (hashlib, hmac, base64, libsodium through
    PyNaCl). They are given to the model as function values, so everything
    proved holds for every implementation of them; only their output lengths
    are fixed. */
module Primitives {
  import opened Bytes
  import opened Wrappers

  /** A SHA-256 sized digest or key: 32 bytes. */
  type Digest = s: seq<byte> | |s| == 32 witness seq(32, _ => 0)

  /** A Poly1305 authenticator: 16 bytes. */
  type Tag = s: seq<byte> | |s| == 16 witness seq(16, _ => 0)

  datatype Primitives = Primitives(
    sha256: seq<byte> -> Digest,
    /** hmac.new(key, message, sha256).digest() */
    hmacSha256: (seq<byte>, seq<byte>) -> Digest,
    /** hashlib.pbkdf2_hmac("sha256", password, salt, iterations) */
    pbkdf2HmacSha256: (seq<byte>, seq<byte>, int) -> Digest,
    /** generichash(data, key): keyed BLAKE2b */
    generichash: (seq<byte>, seq<byte>) -> Digest,
    /** crypto_onetimeauth(message, key) */
    poly1305: (seq<byte>, seq<byte>) -> Tag,
    /** crypto_box_beforenm(public key, secret key) */
    boxBeforenm: (seq<byte>, seq<byte>) -> seq<byte>,
    /** crypto_box_afternm(message, nonce, shared key) */
    boxAfternm: (seq<byte>, seq<byte>, seq<byte>) -> seq<byte>,
    /** crypto_box_open_afternm(ciphertext, nonce, shared key); None when the
        ciphertext does not authenticate */
    boxOpenAfternm: (seq<byte>, seq<byte>, seq<byte>) -> Option<seq<byte>>,
    /** crypto_secretbox_open(ciphertext, nonce, key) */
    secretboxOpen: (seq<byte>, seq<byte>, seq<byte>) -> Option<seq<byte>>,
    /** base64.b64encode, as text */
    b64encode: seq<byte> -> string,
    /** base64.b64decode; None where it raises */
    b64decode: string -> Option<seq<byte>>)
}
