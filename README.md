# free@home client core in Dafny

A model of the client side of the ABB free@home integration. The client
talks to the System Access Point (SysAP), which relays the bus devices of
a home over an encrypted XMPP session. The model covers these parts:

- **Wire codec.** `MessageReader` is a cursor over a byte buffer that reads
  little-endian integers, a big-endian u32, length-prefixed strings and
  blobs. `MessageWriter` queues typed fields and serialises them in order.
- **Session crypto** (`Crypto`, `CryptoSession`):
  - the parsers for the key exchange and the new session;
  - the nonce counter;
  - the pending-prefix list used to open replies;
  - the table of per-stream sequence counters with their skipped numbers;
  - the encrypted-container layout;
  - the SASL payloads.
- **SCRAM-SHA-256 client** (`ClientScram`): the message grammar of RFC 5802
  section 7, the proof and signature of section 3, and the check of the
  server's final message.
- **Handshake** (`SaslHandler`): key exchange, new session, SASL login,
  SASL response and success. Each step runs only after the one before it
  succeeded.
- **Datapoint synchronizer**:
  - `Pairing` resolves pairing ids to datapoints;
  - `Discovery` is the device and channel loop of `find_devices`;
  - `Synchronizer` is the client that owns the devices and the indexes of
    monitored datapoints and parameters;
  - `Updates` dispatches an update message to the devices.
  The configuration and update documents are an algebraic tree
  (`ConfigXml`).
- **Device kinds.** There is one module per device class. Each holds the
  class's `pairing_ids` classifier and a class whose fields the device
  updates in place. The shared base `FahDevice.Device` keeps the callbacks
  and records every `set_datapoint` call in a command trace.
- **TweetNaCl port helpers.**
  - `PyNaclInt` models the masking integer classes.
  - `TweetNacl` models the byte loads and stores, the constant-time
    compare, the 32-bit rotation, `add1305`, key and scalar clamping and the
    Salsa20 block counter.
  - `TweetNaclBox` models the stream, one-time-authenticator and secretbox
    drivers around the kernels.

Conventions used throughout:

- **Foreign primitives are parameters.** The hashes, HMAC, PBKDF2, BLAKE2b,
  the libsodium boxes and base64 are function values in a `Primitives`
  record. Every result therefore holds for any implementation of them.
- **TweetNaCl kernels are parameters.** The Salsa20, HSalsa20 and Poly1305
  kernels are a `Kernels` record in the same way.
- **Caller-supplied values are parameters.** Randomness, the room and
  display names the client fetches, and the RPC replies of the SysAP are
  all passed in as parameters.
- **Exceptions are values.** An exception the source raises is an `Err`
  (or `Fail`). A `PyError` names the Python exception class; a
  `CryptoError`, `ScramError` or `WriteError` names why the step raised,
  which for crypto.py is nearly always a plain `Exception` (the few
  exceptions to that are listed under Left out). Nothing the model raises
  changes state unless the source changed it before raising.
- **Widths are explicit.** Python integers are unbounded, as Dafny's are.
  The `u8`/`u32`/`u64`/`i64` classes mask as `Int.__new__` does. `u32` is
  `array("L")`, which holds 64 bits on an LP64 platform, so 32-bit
  properties are stated modulo 2^32.
- **Placeholder constants.** Constants that the integration imports but
  whose defining file is not part of this model get distinct placeholder
  values. No proof depends on those values beyond their being distinct.

## Model

| member | source | states |
|---|---|---|
| MessageReader.ReadU8At | fah/messagereader.py:8-13 | a byte is read exactly when one is left; it is the byte at the offset and the offset advances by one; otherwise InsufficientData with the offset unchanged |
| MessageReader.ReadLEAt | fah/messagereader.py:15-30 | n bytes are read exactly when n are left; the value is their little-endian number, below 256^n, and the offset advances by n |
| MessageReader.ReadU64At | fah/messagereader.py:32-41 | succeeds exactly when eight bytes are left and the upper four are zero; the value is the lower four, little-endian; non-zero upper bytes raise after both halves were consumed |
| MessageReader.ReadU32BEAt | fah/messagereader.py:43-47 | four bytes are read exactly when four are left, most significant first |
| MessageReader.BE4 | fah/messagereader.py:47 | the big-endian value of four bytes is the shifted-or of the four readUint8 results |
| MessageReader.ReadStringAt | fah/messagereader.py:49-58 | on success the 4-byte little-endian length prefix fits the data and the string encodes to exactly the bytes that follow; a missing prefix leaves the offset alone, a short body or bad UTF-8 leaves it after the prefix |
| MessageReader.ReadBlobAt | fah/messagereader.py:60-66 | amount bytes are returned exactly when amount are left, unchanged, and the offset advances by amount |
| MessageReader.Reader.constructor | fah/messagereader.py:4-6 | a new reader holds the data at offset 0 |
| MessageReader.Reader.ReadUint8 | fah/messagereader.py:8-13 | result and new offset are those of ReadU8At at the old offset |
| MessageReader.Reader.ReadUint16 | fah/messagereader.py:15-21 | result and new offset are those of ReadLEAt over two bytes |
| MessageReader.Reader.ReadUint32 | fah/messagereader.py:23-30 | result and new offset are those of ReadLEAt over four bytes |
| MessageReader.Reader.ReadUint64 | fah/messagereader.py:32-41 | result and new offset are those of ReadU64At: two readUint32 calls, the upper one required to be zero |
| MessageReader.Reader.ReadUint32BE | fah/messagereader.py:43-47 | result and new offset are those of ReadU32BEAt: four readUint8 calls |
| MessageReader.Reader.ReadString | fah/messagereader.py:49-58 | result and new offset are those of ReadStringAt |
| MessageReader.Reader.ReadBlob | fah/messagereader.py:60-66 | result and new offset are those of ReadBlobAt |
| MessageReader.Reader.RemainingData | fah/messagereader.py:68-69 | the data is the consumed prefix followed by the returned rest |
| MessageWriter.EncodeField | freeathome/fah/messagewriter.py:50-68 | an encodable field takes exactly the bytes the first loop of toUint8Array counts for its type |
| MessageWriter.SerializeAppend | freeathome/fah/messagewriter.py:50-70 | serialising a concatenation succeeds exactly when both parts do and gives the concatenated bytes |
| MessageWriter.SerializeLength | freeathome/fah/messagewriter.py:31-45 | the serialised message is as long as the length the first loop computes |
| MessageWriter.ReadBackField | freeathome/fah/messagewriter.py:50-68 | the reader method matching a well-formed field's type reads that field back from its bytes and stops right after them |
| MessageWriter.RoundTrip | freeathome/fah/messagewriter.py:30-70 | reading a serialised list of well-formed fields field by field gives the list back, whatever follows it |
| MessageWriter.ComposeReadBack | freeathome/fah/messagewriter.py:6-70 | when a fresh writer accepts every write, its output is the serialisation, has the computed length, and reads back as the written fields |
| MessageWriter.StrAcceptable | freeathome/fah/messagewriter.py:16-22 | a string is accepted exactly when its UTF-8 form is at most 10 MiB |
| MessageWriter.ComposeOk | freeathome/fah/messagewriter.py:6-70 | writing and serialising succeeds exactly when every field is accepted and encodable |
| MessageWriter.ComposeChecked | freeathome/fah/messagewriter.py:6-28 | when no write raises, the writer's output is the serialisation of the fields |
| MessageWriter.ComposeStops | freeathome/fah/messagewriter.py:6-28 | the first refused write decides the exception raised |
| MessageWriter.ComposeSerializes | freeathome/fah/messagewriter.py:6-70 | accepted writes serialise as the fields and each field is well-formed |
| MessageWriter.Writer.constructor | freeathome/fah/messagewriter.py:3-4 | a new writer holds no fields |
| MessageWriter.Writer.WriteUint8 | freeathome/fah/messagewriter.py:6-10 | raises exactly when the value exceeds 255, and appends nothing then: a NameError, because the refusal message names the undefined value_bytes; otherwise appends a uint8 field |
| MessageWriter.Writer.WriteUint32 | freeathome/fah/messagewriter.py:12-14 | appends a uint32 field, unchecked |
| MessageWriter.Writer.WriteString | freeathome/fah/messagewriter.py:16-22 | raises TooLong exactly when the UTF-8 form exceeds 10 MiB; otherwise appends the encoded string |
| MessageWriter.Writer.WriteBlob | freeathome/fah/messagewriter.py:24-28 | raises TooLong exactly when the blob exceeds 10 MiB; otherwise appends it |
| MessageWriter.Writer.ToUint8Array | freeathome/fah/messagewriter.py:30-70 | returns the serialisation of the written fields, as long as the summed field lengths |
| MessageWriter.AppendField | freeathome/fah/messagewriter.py:51-68 | one pass of the second loop appends the field's bytes by type, or fails where int.to_bytes overflows |
| MessageWriter.SerializeStopsAt | freeathome/fah/messagewriter.py:52-62 | one field that does not encode makes toUint8Array fail |
| Crypto.MakeAuthenticator | custom_components/freeathome/fah/crypto.py:68-86 | succeeds exactly when the public key, the key and the 16-byte token total 64 bytes; the result starts with the public key, then the key |
| Crypto.AuthenticatorValidates | custom_components/freeathome/fah/crypto.py:179-188 | the authenticator a client makes passes the validation the server side performs with the same shared key |
| Crypto.Extract | custom_components/freeathome/fah/crypto.py:150-177 | fails with ExtractShort exactly when fewer than four bytes are left; on success the text encodes to exactly the bytes after the prefix and at least five bytes are taken |
| Crypto.ExtractText | custom_components/freeathome/fah/crypto.py:160-175 | on success 4 + length bytes are taken, length is positive, and the text is those bytes decoded |
| Crypto.ExtractDataAsWritten | custom_components/freeathome/fah/crypto.py:150-177 | with the length read from three bytes it stays below 2^24, so the 20000000-byte maximum never triggers |
| Crypto.ExtractDataReads | custom_components/freeathome/fah/crypto.py:150-177 | whenever extractData accepts, it returns what readString reads at the same position |
| Crypto.ExtractDataOfField | custom_components/freeathome/fah/crypto.py:150-177 | a non-empty string written with a four-byte length prefix is extracted whole, with its length |
| Crypto.ExtractDataDropsHighByte | custom_components/freeathome/fah/crypto.py:155-158 | a 2^24-byte string is refused as empty by the three-byte read and extracted by the four-byte one |
| Crypto.PrefixLowBytesZero | custom_components/freeathome/fah/crypto.py:155-161 | as written, every text behind the prefix 00 00 00 01 is refused as empty |
| Crypto.LongTextBytes | custom_components/freeathome/fah/crypto.py:155-158 | a string whose length needs the fourth prefix byte exists |
| Crypto.ExtractWidthAgrees | custom_components/freeathome/fah/crypto.py:155-158 | while the fourth length byte is zero, reading three or four length bytes gives the same result |
| Crypto.KeyExchangeTail | custom_components/freeathome/fah/crypto.py:129-144 | on success the public key is 32 bytes |
| Crypto.ParseKeyExchange | custom_components/freeathome/fah/crypto.py:88-148 | as intended (corrected authenticator check, see Findings): on success the reply is at least 40 bytes, carries version 2 and error code 0 or 25, its authenticator verifies, and the public key is 32 bytes |
| Crypto.ParseKeyExchangeAsWritten | custom_components/freeathome/fah/crypto.py:88-148 | as written: an accepted reply is at least 40 bytes with version 2 and error code 0 or 25, and yields a 32-byte public key; the authenticator check is not among the conditions |
| Crypto.ValidateAuthenticator | custom_components/freeathome/fah/crypto.py:179-188 | answers 0 or -1, and 0 exactly when the token is the Poly1305 tag of message2 under generichash(key, message) |
| Crypto.ExtractData | custom_components/freeathome/fah/crypto.py:150-177 | as intended (four-byte length, see Findings row crypto.py:155-158): raises for a buffer without room for the length prefix; on success the length is the prefix plus the declared length, within the buffer, and the text is what those bytes decode to |
| Crypto.KeyExchangeHeaderOf | custom_components/freeathome/fah/crypto.py:90-120 | a reply with version 2 and error code 0 or 25 passes the header checks, and the server half and the tag sit at bytes 8-24 and 24-40 |
| Crypto.KeyExchangeTailOf | custom_components/freeathome/fah/crypto.py:129-144 | the tail of a well-formed reply gives exactly its session id, its flags and its public key |
| Crypto.ParseKeyExchangeOf | custom_components/freeathome/fah/crypto.py:88-148 | a well-formed reply with the tag the shared key gives is accepted with exactly its session id, flags and public key |
| Crypto.ParseKeyExchangeAsWrittenOf | custom_components/freeathome/fah/crypto.py:88-148 | as written, a well-formed reply is accepted whatever its tag |
| Crypto.TailWidthAgrees | custom_components/freeathome/fah/crypto.py:129-158 | while both length prefixes have a zero fourth byte, the tail parses the same with three length bytes as with four |
| Crypto.KeyExchangeIgnoresAuthenticator | custom_components/freeathome/fah/crypto.py:124-127 | some reply with a tag that does not verify is accepted as written and refused with AuthenticationFailed as intended |
| Crypto.MinIndexLeast | custom_components/freeathome/fah/crypto.py:235-241 | the entry picked is no larger than any entry and strictly smaller than every entry before it |
| Crypto.DropOneIsRemoveFirst | custom_components/freeathome/fah/crypto.py:236-241 | dropping the smallest is list.remove of the smallest value |
| PyList.RemoveFirst | custom_components/freeathome/fah/crypto.py:354 | list.remove(x) takes exactly one x out when there is one, and nothing otherwise |
| Crypto.DropSmallestLength | custom_components/freeathome/fah/crypto.py:235-241 | dropping the k smallest keeps all but k entries |
| Crypto.DropSmallestKeeps | custom_components/freeathome/fah/crypto.py:235-241 | the entries kept are a sub-multiset of the list |
| Crypto.DropSmallestKeepsLargest | custom_components/freeathome/fah/crypto.py:235-241 | no entry dropped is larger than an entry kept |
| Crypto.Countdown | custom_components/freeathome/fah/crypto.py:227-233 | at most k numbers, the i-th being x - i |
| Crypto.Sequence | custom_components/freeathome/fah/crypto.py:209-243 | as intended (corrected skip loop, see Findings): accepted exactly when the counter is an integer and the nonce is not below it or is a recorded skipped number; the counter then goes up by one; the "cU" placeholder counter raises TypeError |
| Crypto.SequenceAsWritten | custom_components/freeathome/fah/crypto.py:209-243 | as written: accepted in exactly the same cases as the corrected Sequence, and the counter goes up by one |
| Crypto.GapExact | custom_components/freeathome/fah/crypto.py:222-233 | the numbers recorded are exactly those strictly between the counter and the nonce and at most 16 below the nonce |
| Crypto.CountdownExact | custom_components/freeathome/fah/crypto.py:227-233 | the countdown holds exactly the k numbers ending at x |
| Crypto.SequenceBounded | custom_components/freeathome/fah/crypto.py:235-241 | the skipped list never grows beyond 32 entries |
| Crypto.TrimBounded | custom_components/freeathome/fah/crypto.py:235-241 | the trim leaves 32 entries of a longer list and a shorter one as it is |
| Crypto.SequenceConsumesSkipped | custom_components/freeathome/fah/crypto.py:210-220 | an accepted old number is taken out of the skipped list once |
| Crypto.SequenceInOrder | custom_components/freeathome/fah/crypto.py:209-243 | as intended (corrected skip loop, see Findings): a nonce one above the counter records nothing and advances the counter |
| Crypto.SequenceAsWrittenReplays | custom_components/freeathome/fah/crypto.py:227-233 | as written, a skipped number 5 is accepted after 6; as intended nothing is recorded and 5 is refused |
| Crypto.LastSlash | custom_components/freeathome/fah/crypto.py:365 | the index of the last '/', or -1 when there is none |
| Crypto.StreamNameOf | custom_components/freeathome/fah/crypto.py:365-371 | a path ending in a name without slashes designates that name, with or without the "_encrypted" suffix |
| Crypto.LastSlashOf | custom_components/freeathome/fah/crypto.py:365 | the last slash of path + "/" + name is the one before name |
| Crypto.EntriesStep | custom_components/freeathome/fah/crypto.py:363-376 | after one entry is read, the loop goes on after it with the entry registered |
| Crypto.ReadEntriesSkipsName | custom_components/freeathome/fah/crypto.py:364-367 | as written, a name without a slash is skipped and the next read starts right after the name |
| Crypto.ReadEntriesFramed | custom_components/freeathome/fah/crypto.py:363-376 | as intended, every entry's counter is consumed, and only a name with a slash opens a stream |
| Crypto.ReadEntriesOf | custom_components/freeathome/fah/crypto.py:360-378 | reading the entries the server wrote registers all of them, in order, and stops right after the last one |
| Crypto.ReadEntriesAt | custom_components/freeathome/fah/crypto.py:363-376 | the same, for entries found at any offset of the data |
| Crypto.EntryAtSlice | custom_components/freeathome/fah/crypto.py:364-373 | a key entry at an offset reads as its name and counter and ends after its bytes |
| Crypto.ReadEntriesDesynchronises | custom_components/freeathome/fah/crypto.py:363-376 | with a slash-less first name, the loop as written misreads the counter as the next name and opens no stream; read as intended it opens stream "y" with counter 7 |
| Crypto.LoginSaslAccepted | custom_components/freeathome/fah/crypto.py:405-410 | the login payload is built exactly when the id is a byte and the client-first message fits 10 MiB |
| Crypto.LoginSaslReadBack | custom_components/freeathome/fah/crypto.py:405-410 | the login payload reads back as the id, "SCRAM-SHA-256" and the client-first message, and is 22 bytes longer than that message |
| Crypto.BuildSaslResponse | custom_components/freeathome/fah/crypto.py:413-417 | the response is built exactly when the id is a byte and the message fits 10 MiB |
| Crypto.ReadEntries | custom_components/freeathome/fah/crypto.py:360-378 | the key-update loop only adds streams to the table, a raise is a read error, and zero entries leave everything as it was |
| Crypto.SaslResponseReadBack | custom_components/freeathome/fah/crypto.py:413-417 | the response reads back as the id and the client-final message, and is five bytes longer than that message |
| CryptoSession.NewSessionId | custom_components/freeathome/fah/crypto.py:253-267 | on success the type, OK result code and version were read and the identifier is the string read at byte 9, which fits the data |
| CryptoSession.DecodeNewSession | custom_components/freeathome/fah/crypto.py:253-268 | on success the identifier is the one read at byte 9 and the nonce is eight bytes |
| CryptoSession.ReadNewSession | custom_components/freeathome/fah/crypto.py:253-268 | the reads through a reader give what NewSessionId and DecodeNewSession specify |
| CryptoSession.DecodeNewSessionOf | custom_components/freeathome/fah/crypto.py:253-268 | a reply with the OK code decodes to its identifier and nonce, whatever protocol version it names |
| CryptoSession.DecodeNewSessionRefused | custom_components/freeathome/fah/crypto.py:259-261 | a reply whose result code is not OK is refused before anything after the code is read |
| CryptoSession.NonceLayout | custom_components/freeathome/fah/crypto.py:270-281 | a nonce is 24 bytes: the session nonce, the counter as a u64 the reader reads back, then the random bytes |
| CryptoSession.NonceUnique | custom_components/freeathome/fah/crypto.py:270-281 | nonces built with different counters differ, whatever the random bytes |
| CryptoSession.SerializeNonce | custom_components/freeathome/fah/crypto.py:271-281 | the four writes of createNonce serialise to the nonce |
| CryptoSession.OutgoingFlags | custom_components/freeathome/fah/crypto.py:287-289 | the flags byte is 2 (request key update) until a key update is received, then 0 |
| CryptoSession.EncryptContainerOk | custom_components/freeathome/fah/crypto.py:283-321 | the container is produced exactly when the box passes its checks, the id is a byte, the identifier fits and nonce, tag and payload together fit 10 MiB |
| CryptoSession.ContainerOk | custom_components/freeathome/fah/crypto.py:313-321 | the container's writes succeed exactly when the id is a byte, the identifier and box fit 10 MiB and the length is a u32 |
| CryptoSession.EncryptLimitGap | custom_components/freeathome/fah/crypto.py:284-321 | a payload under encryptPayload's own limit but too large once sealed is refused by writeBlob as too long |
| CryptoSession.EncryptContainerReadBack | custom_components/freeathome/fah/crypto.py:283-321 | a produced container reads back field by field as written, and its box is as long as nonce, tag and payload together |
| CryptoSession.WriteContainer | custom_components/freeathome/fah/crypto.py:313-321 | the writes give the composed container, or the first write's exception |
| CryptoSession.ContainerCompose | custom_components/freeathome/fah/crypto.py:313-321 | which write raises first: the message id above 255, then an identifier or box over 10 MiB |
| CryptoSession.ContainerReadBack | custom_components/freeathome/fah/crypto.py:313-321 | a written container reads back field by field |
| CryptoSession.ReadContainer | custom_components/freeathome/fah/crypto.py:323-344 | the header is accepted exactly when the announced length is that of the rest and at least the tag size; the flags and the body are returned |
| CryptoSession.ReadContainerHeader | custom_components/freeathome/fah/crypto.py:325-344 | the reads through a reader give ReadContainer |
| CryptoSession.FirstOpening | custom_components/freeathome/fah/crypto.py:346-355 | the first pending prefix under which the box opens, and none before it opens it |
| CryptoSession.FindOpening | custom_components/freeathome/fah/crypto.py:346-355 | the loop finds the first prefix that opens the box, with the plaintext it gives |
| CryptoSession.OpenBody | custom_components/freeathome/fah/crypto.py:346-357 | as intended (corrected pending loop, see Findings): the reply opens under the first pending prefix that opens it, with that plaintext; an error means no prefix opens it, or there is no prefix or no shared secret |
| CryptoSession.OpenBodyAsWritten | custom_components/freeathome/fah/crypto.py:346-355 | as written: succeeds only at the first pending prefix, with the plaintext it opens to, and raises exactly when that prefix does not open the reply |
| CryptoSession.ReadKeyUpdate | custom_components/freeathome/fah/crypto.py:359-378 | a key that is read is 32 bytes |
| CryptoSession.KeyUpdateOf | custom_components/freeathome/fah/crypto.py:359-378 | a key update the server writes reads back as its key and the table with every entry registered |
| CryptoSession.ApplyKeyUpdate | custom_components/freeathome/fah/crypto.py:359-378 | the reader's reads give ReadKeyUpdate and the reader stops where it stops |
| CryptoSession.ReadKeyEntries | custom_components/freeathome/fah/crypto.py:363-376 | the loop's table and stop are those of ReadEntries, and the reader ends at its stop |
| CryptoSession.RegisterKeyEntry | custom_components/freeathome/fah/crypto.py:364-376 | one pass of the loop keeps the remaining loop equal to what is left of the whole |
| CryptoSession.EntriesStops | custom_components/freeathome/fah/crypto.py:363-376 | an entry that cannot be read stops the loop with its exception |
| CryptoSession.ReadKeyEntry | custom_components/freeathome/fah/crypto.py:364-373 | reads one entry as ReadEntryAt specifies, always with a counter |
| CryptoSession.Decrypt | custom_components/freeathome/fah/crypto.py:323-380 | the prefix that opened the box is one of the pending ones |
| CryptoSession.DecryptRemovesOpened | custom_components/freeathome/fah/crypto.py:348-355 | a reader is returned only once a prefix opened the box, and removing that prefix's value removes exactly its position |
| CryptoSession.PySlice | custom_components/freeathome/fah/crypto.py:200 | the slice of the present bytes, clipped at the end |
| CryptoSession.WithUpdateStream | custom_components/freeathome/fah/crypto.py:202-207 | "update" is present afterwards, other streams are unchanged, and a missing one is created with the "cU" counter and no skipped numbers |
| CryptoSession.OpenPubSub | custom_components/freeathome/fah/crypto.py:191-251 | only the "update" stream changes |
| CryptoSession.PubSubRefusedUntilReady | custom_components/freeathome/fah/crypto.py:202-210 | until a key update gives "update" an int counter, every message is refused and the stream stays unready |
| CryptoSession.KeyEntryReadiesUpdate | custom_components/freeathome/fah/crypto.py:365-376 | a key entry for ".../update" or ".../update_encrypted" makes the stream ready with its counter |
| CryptoSession.PubSubInOrder | custom_components/freeathome/fah/crypto.py:191-251 | as intended (corrected skip loop, see Findings): the message one above the counter opens when its box does, and the counter goes up by one |
| CryptoSession.PubSubBounded | custom_components/freeathome/fah/crypto.py:235-243 | the skipped list stays within 32 entries |
| CryptoSession.SequenceAheadRepeats | custom_components/freeathome/fah/crypto.py:222-243 | as intended (corrected skip loop, see Findings): the counter goes up by one per message: after 5 at counter 0, the number 1 is accepted twice |
| CryptoSession.SaslChallengeReply | custom_components/freeathome/fah/crypto.py:382-394 | succeeds exactly when the server-first message parses and a client-first message exists; a parse error is passed on |
| CryptoSession.SaslChallengeReplyShape | custom_components/freeathome/fah/crypto.py:382-394 | the reply starts "c=biws,r=" with the server nonce, and its proof xored with the client signature hashes to SHA-256 of the client key |
| CryptoSession.SaslFinalCheck | custom_components/freeathome/fah/crypto.py:396-399 | passes exactly when the server key and auth message exist and the v= item is the server signature |
| CryptoSession.Session.constructor | custom_components/freeathome/fah/crypto.py:34-43 | the counter starts at 1 with no streams, no pending prefixes and no keys |
| CryptoSession.Session.GenerateKeypair | custom_components/freeathome/fah/crypto.py:45-49 | stores both halves of the key pair and nothing else |
| CryptoSession.Session.GenerateLocalKey | custom_components/freeathome/fah/crypto.py:59-65 | the authenticator of the shared key under the random bytes; a 32-byte public key gives 64 bytes starting with it |
| CryptoSession.Session.CompleteKeyExchange | custom_components/freeathome/fah/crypto.py:88-148 | a reply ParseKeyExchange accepts sets the shared secret from its public key and returns the session id; otherwise the exception and no change |
| CryptoSession.Session.DecodeNewSessionResult | custom_components/freeathome/fah/crypto.py:253-268 | succeeds exactly when DecodeNewSession does; the identifier is stored once read, the nonce only on success |
| CryptoSession.Session.DecryptPayload | custom_components/freeathome/fah/crypto.py:323-380 | returns a reader over the plaintext where Decrypt stops; the opened prefix leaves the pending list, the key update sets key, table and flag |
| CryptoSession.OpenAsWrittenStopsAtFirst | custom_components/freeathome/fah/crypto.py:346-355 | as written, a box that does not open under the first pending prefix raises, even when it opens under the second; the corrected search finds the second |
| CryptoSession.OpenAsWrittenAgrees | custom_components/freeathome/fah/crypto.py:346-355 | whenever the loop as written succeeds, the corrected search gives the same opening, and with at most one pending prefix the two succeed on the same replies |
| CryptoSession.Session.ProcessSaslChallenge | custom_components/freeathome/fah/crypto.py:382-394 | reads the server-first message and returns SaslChallengeReply of it; on success the server key and auth message are stored |
| CryptoSession.Session.ProcessSaslFinal | custom_components/freeathome/fah/crypto.py:396-399 | reads the server-final message and returns SaslFinalCheck of it |
| CryptoSession.Session.DecryptPubSub | custom_components/freeathome/fah/crypto.py:191-251 | result and table are those of OpenPubSub on the old table |
| CryptoSession.Session.CreateNonce | custom_components/freeathome/fah/crypto.py:270-281 | the counter goes up once the session nonce is known; past 2^32 it raises, otherwise returns the nonce for the old counter |
| CryptoSession.Session.EncryptPayload | custom_components/freeathome/fah/crypto.py:283-321 | too large or missing state raises with nothing changed; otherwise the counter goes up and the result is the encrypted container; the prefix is pending once the box passes its checks |
| ClientScram.FindFrom | custom_components/freeathome/fah/clientscramhandler.py:108-114 | str.find: -1, or an index at or after the start where the pattern occurs |
| ClientScram.FindFromFirst | custom_components/freeathome/fah/clientscramhandler.py:108-114 | the index str.find gives is the first occurrence, and -1 means none at all |
| ClientScram.SearchItem | custom_components/freeathome/fah/clientscramhandler.py:101-118 | the value found is never longer than the message |
| ClientScram.SearchItemFirst | custom_components/freeathome/fah/clientscramhandler.py:105-118 | an attribute at the head of the message is found with its whole value, up to the next comma |
| ClientScram.SearchItemAfter | custom_components/freeathome/fah/clientscramhandler.py:105-118 | an attribute after others of different names is found with its whole value |
| ClientScram.SearchItemFinds | custom_components/freeathome/fah/clientscramhandler.py:101-118 | in a comma-separated list of name=value pairs with distinct names and comma-free values, searchItem finds every attribute's value |
| ClientScram.ByteXor | custom_components/freeathome/fah/clientscramhandler.py:42-43 | zip stops at the shorter input |
| ClientScram.ByteXorTwice | custom_components/freeathome/fah/clientscramhandler.py:36-43 | xoring with the same bytes twice gives the input back, so the server recovers the client key from the proof |
| ClientScram.ByteXorCommutes | custom_components/freeathome/fah/clientscramhandler.py:42-43 | byte_xor does not depend on its argument order |
| ClientScram.ClientKeyLabel | custom_components/freeathome/fah/clientscramhandler.py:127 | the HMAC label is the UTF-8 encoding of "Client Key" |
| ClientScram.ServerKeyLabel | custom_components/freeathome/fah/clientscramhandler.py:142 | the HMAC label is the UTF-8 encoding of "Server Key" |
| ClientScram.ProofVerifies | custom_components/freeathome/fah/clientscramhandler.py:32-40 | the proof is 32 bytes, and xored with the client signature it hashes to SHA-256 of the client key, the server's stored key |
| ClientScram.ParseServerFirst | custom_components/freeathome/fah/clientscramhandler.py:45-82 | an accepted server-first message keeps a non-empty nonce, the r attribute |
| ClientScram.ParseServerFirstOf | custom_components/freeathome/fah/clientscramhandler.py:45-82 | a server-first message whose r, s and i pass the checks is accepted with exactly those values, whatever the attributes' order |
| ClientScram.CheckAttributes | custom_components/freeathome/fah/clientscramhandler.py:54-82 | accepted values keep the r attribute as the nonce, which is non-empty |
| ClientScram.Handler.constructor | custom_components/freeathome/fah/clientscramhandler.py:10 | nothing is set yet |
| ClientScram.Handler.CreateClientFirst | custom_components/freeathome/fah/clientscramhandler.py:11-20 | wrong-length random bytes raise; otherwise the message is "n,,n=" user ",r=" base64 nonce and is stored |
| ClientScram.Handler.SetServerFirst | custom_components/freeathome/fah/clientscramhandler.py:45-82 | passes exactly when ParseServerFirst accepts; response and nonce are stored in any case, iterations and salt as far as the checks got, both keys only on success |
| ClientScram.Handler.CheckServerFirst | custom_components/freeathome/fah/clientscramhandler.py:54-82 | the checks on r, s and i in the source's order, storing iterations and salt as they pass |
| ClientScram.Handler.CreateClientFinal | custom_components/freeathome/fah/clientscramhandler.py:22-40 | raises on missing state; the auth message is stored whenever the nonce, client-first and server-first messages are known, even when the client key is missing and it then raises, and kept otherwise; on success the result is the final message without proof plus ",p=" and the base64 proof |
| ClientScram.Handler.SetServerFinal | custom_components/freeathome/fah/clientscramhandler.py:84-99 | passes exactly when the v attribute is the base64 HMAC of the auth message under the server key |
| SaslHandler.NewSessionPayloadLayout | custom_components/freeathome/fah/saslhandler.py:175-181 | the payload exists exactly when every field fits, and is the id byte, the u32 protocol version, the auth-type byte and the length-prefixed UTF-8 identifier |
| SaslHandler.NewSessionPayloadOk | custom_components/freeathome/fah/saslhandler.py:175-181 | when the new-session payload can be written |
| SaslHandler.NewSessionPayloadBytes | custom_components/freeathome/fah/saslhandler.py:175-181 | the payload's bytes, field after field |
| SaslHandler.NewSessionReadBack | custom_components/freeathome/fah/saslhandler.py:175-181 | the payload reads back, field by field, as written |
| SaslHandler.Handler.constructor | custom_components/freeathome/fah/saslhandler.py:19-23 | a Crypto object for the JID and password with its key pair stored, and no call made |
| SaslHandler.Handler.StartNewSessionPayload | custom_components/freeathome/fah/saslhandler.py:175-181 | the payload, or the exception of the first write that fails |
| SaslHandler.Handler.InitiateKeyExchange | custom_components/freeathome/fah/saslhandler.py:25-146 | each call is made only once the previous one was answered with params; the calls are the key exchange, the new-session payload as it is, and the login encrypted under the shared secret crypto_box_beforenm of the server's key and the session id and nonce decodeNewSessionResult gave; the response is sent only after a SASL challenge, and the handshake ends authenticated only when the server signature checks |
| SaslHandler.Handler.ExchangeKeys | custom_components/freeathome/fah/saslhandler.py:28-52 | the local key is sent when it can be made; an exception or fault ends the chain; otherwise the session identifier completeKeyExchange gives, with the shared secret crypto_box_beforenm of the server's public key and the secret key; a failure keeps the shared secret, and no other crypto state changes |
| SaslHandler.Handler.StartSession | custom_components/freeathome/fah/saslhandler.py:54-146 | after the key exchange: the new-session call and then the SASL calls, each only after the previous one was answered; the login is encrypted under the session id and nonce the new-session reply decodes to, and the shared secret is kept |
| SaslHandler.Handler.OpenSession | custom_components/freeathome/fah/saslhandler.py:54-80 | the new-session payload is sent as it is; a fault, missing params or decodeNewSessionResult's exception ends it; on success the session id and nonce are those the reply decodes to; a failure keeps the nonce, and the id only when the reply was not read that far |
| SaslHandler.Handler.Authenticate | custom_components/freeathome/fah/saslhandler.py:82-146 | the encrypted login is the third call; the response follows only after a challenge, and authenticated means the login reply was a challenge and the response reply a success that checks |
| SaslHandler.Handler.LogIn | custom_components/freeathome/fah/saslhandler.py:82-110 | the client-first message is stored, the login is encrypted and sent, and the reply is decrypted and its id read; without an answer the login prefix is still pending and the counter has gone up by one |
| SaslHandler.Handler.SendEncrypted | custom_components/freeathome/fah/saslhandler.py:85-89 | encryptPayload of the data under the next counter, then the call; the encrypted container is what is sent |
| SaslHandler.Handler.ReadReply | custom_components/freeathome/fah/saslhandler.py:105-110 | the reply is decrypted as Decrypt says and its id read; Ok only when the id is the one expected |
| SaslHandler.Handler.Conclude | custom_components/freeathome/fah/saslhandler.py:111-146 | answers the challenge and then verifies the server-final message; a wrong id is never the ending here |
| SaslHandler.Handler.Respond | custom_components/freeathome/fah/saslhandler.py:114-139 | the reply to the challenge is built, encrypted and sent, and the answer decrypted |
| SaslHandler.Handler.Confirm | custom_components/freeathome/fah/saslhandler.py:141-144 | after a login success, processSaslFinal either raises or the handshake ends authenticated as Finished says |
| Discovery.Then | custom_components/freeathome/fah/pfreeathome.py:637-781 | a loop step's devices are kept, and the rest runs only when the step did not raise |
| Discovery.WellFormedAppend | custom_components/freeathome/fah/pfreeathome.py:637-781 | two runs that each add only handled, resolved devices together add only such devices |
| Discovery.DeviceFilterMask | custom_components/freeathome/fah/pfreeathome.py:678-682 | a device without a deviceChannelSelector parameter keeps the mask 0xFFFFFFFF |
| Discovery.SelectedMask | custom_components/freeathome/fah/pfreeathome.py:702-706 | a selected option's mask is found only when the selector has a value element |
| Discovery.ChannelFilterMask | custom_components/freeathome/fah/pfreeathome.py:695-706 | 0xFFFFFFFF when no selector's match code meets the device mask; otherwise what the last selector that does selects: its option's mask, or the exception looking the option up raises; a mask is found only when every selector's match code parses |
| Discovery.LastMeeting | custom_components/freeathome/fah/pfreeathome.py:695-706 | the position of the last selector whose match code meets the device mask, None exactly when none does |
| Discovery.FilterMaskStep | custom_components/freeathome/fah/pfreeathome.py:697-706 | one selector more keeps the loop's specification: the default when all miss, the last meeting selector's mask otherwise |
| Discovery.KindParameters | custom_components/freeathome/fah/pfreeathome.py:770-776 | no parameters for any class but the thermostat; a thermostat gets each of its parameter ids that resolves, with the parameter it names |
| Discovery.DeviceName | custom_components/freeathome/fah/pfreeathome.py:643-649 | the name exists exactly when the display name and serial number do: the display name, or the model when it is empty, then the serial in parentheses |
| Discovery.DeviceHeader | custom_components/freeathome/fah/pfreeathome.py:638-714 | a device whose loop goes on is neither external, uncommissioned nor without channels, and keeps its serial number and channels element |
| Discovery.DisplayName | custom_components/freeathome/fah/pfreeathome.py:739-743 | the channel's own display name, else the device's, else serial number "/" channel id (a TypeError without a channel id) |
| Discovery.RoomSuffix | custom_components/freeathome/fah/pfreeathome.py:746-748 | empty unless floor and room are set and room names are wanted; otherwise " (" room name ")" from the floor's table |
| Discovery.FunctionIdOf | custom_components/freeathome/fah/pfreeathome.py:719-720 | none for a missing or empty attribute; otherwise its hex value |
| Discovery.ChannelHeader | custom_components/freeathome/fah/pfreeathome.py:717-752 | a channel that goes on to the classes has a mask meeting the filter mask and a room, and carries its id, display name and function id |
| Discovery.KindPlan | custom_components/freeathome/fah/pfreeathome.py:758-781 | at most one device per class: when the class handles the function and a pairing id resolves, with the datapoints found and, for a thermostat alone, its parameters |
| Discovery.KindsPlan | custom_components/freeathome/fah/pfreeathome.py:758-781 | only the classes asked add devices, and every device added is handled and resolved |
| Discovery.KindsPlanShared | custom_components/freeathome/fah/pfreeathome.py:758-781 | every device the class loop adds carries the device's serial number and the channel's id |
| Discovery.KindPlanShared | custom_components/freeathome/fah/pfreeathome.py:781 | a class's device carries the device's serial number and the channel's id |
| Discovery.KindsPlanCons | custom_components/freeathome/fah/pfreeathome.py:758-781 | the class loop's devices come from its first class or the rest |
| Discovery.KindsPlanFrom | custom_components/freeathome/fah/pfreeathome.py:758-781 | the loop over all classes, with what its devices share |
| Discovery.ChannelPlan | custom_components/freeathome/fah/pfreeathome.py:716-781 | a channel's devices are well formed and carry the device's serial number and the channel's id |
| Discovery.ChannelsPlan | custom_components/freeathome/fah/pfreeathome.py:716-781 | all of a device's channels' devices carry its serial number |
| Discovery.DevicePlan | custom_components/freeathome/fah/pfreeathome.py:637-781 | an ignored device adds nothing; every device added carries the device's serial number |
| Discovery.DevicesPlan | custom_components/freeathome/fah/pfreeathome.py:637-781 | the device loop adds only handled, resolved devices |
| Discovery.Plan | custom_components/freeathome/fah/pfreeathome.py:616-781 | find_devices adds only handled, resolved devices; a document without a devices element raises an AttributeError |
| Synchronizer.Deliver | custom_components/freeathome/fah/pfreeathome.py:522-526 | update_datapoint of the device's class: it raises exactly when DeliveryError says (a cover's or thermostat's value that does not parse, a light's colour value that is not an int), with that exception, and the device's state afterwards is AfterDatapoint of its state before |
| Synchronizer.StateOf | custom_components/freeathome/fah/pfreeathome.py:522-526 | the state read from a device object is a state of that device's class |
| Synchronizer.AfterDatapoint | custom_components/freeathome/fah/pfreeathome.py:522-526 | update_datapoint keeps a device's state within its class; which attribute takes the value is the per-class rule of the device files |
| Synchronizer.RaisingDeliveryChangesNothing | custom_components/freeathome/fah/pfreeathome.py:522-526 | an update_datapoint that raises leaves the device's state as it was |
| Synchronizer.Replay | custom_components/freeathome/fah/pfreeathome.py:501-547 | replaying deliveries keeps a device's state within its class |
| Synchronizer.ReplayOthers | custom_components/freeathome/fah/pfreeathome.py:517-547 | deliveries routed to other devices do not change a device's state |
| Synchronizer.ReplayThen | custom_components/freeathome/fah/pfreeathome.py:517-547 | deliveries after the last one routed to a device do not change its state |
| Synchronizer.SingleReport | custom_components/freeathome/fah/pfreeathome.py:517-526 | a device that receives exactly one datapoint report ends in the state update_datapoint gives for that report, whatever was delivered to others |
| Synchronizer.Watch | custom_components/freeathome/fah/pfreeathome.py:576-588 | a registering loop raises an IndexError exactly when one of the ids is empty |
| Synchronizer.WatchKeeps | custom_components/freeathome/fah/pfreeathome.py:576-588 | registering only adds keys; every key maps to the new device or keeps its device, and a key no id names is untouched |
| Synchronizer.WatchAddsOnlyOutputs | custom_components/freeathome/fah/pfreeathome.py:576-588 | every key added is the prefix and a non-empty id not starting with 'i': input datapoints are never monitored |
| Synchronizer.WatchCoversOutputs | custom_components/freeathome/fah/pfreeathome.py:576-588 | a run without an error monitors every id not starting with 'i' under the new device |
| Synchronizer.WatchKeepsIn | custom_components/freeathome/fah/pfreeathome.py:576-588 | registering keeps every monitored device among the registered ones |
| Synchronizer.WatchStops | custom_components/freeathome/fah/pfreeathome.py:576-588 | once registering raised, the ids after it change nothing |
| Synchronizer.WatchAll | custom_components/freeathome/fah/pfreeathome.py:576-588 | the loop's map and exception are those of Watch |
| Synchronizer.Routes | custom_components/freeathome/fah/pfreeathome.py:470-547 | every delivery goes to the device monitoring its report's key, every monitored report is delivered, and there is at most one delivery per report |
| Synchronizer.Reached | custom_components/freeathome/fah/pfreeathome.py:526-547 | the set of updated devices is exactly the devices deliveries went to |
| Synchronizer.ObjIsNotBase | custom_components/freeathome/fah/pfreeathome.py:562-574 | a device's own object is not the base object of another device |
| Synchronizer.ObjInjective | custom_components/freeathome/fah/pfreeathome.py:562-574 | distinct devices have distinct objects, so a delivery to one changes no other |
| Synchronizer.DeliverAll | custom_components/freeathome/fah/pfreeathome.py:501-547 | the deliveries are made in order up to the first that raises (Rejected: update_datapoint's error for a datapoint report, an AttributeError for a parameter report to a thermostat, scene or lock, whose classes have no update_parameter); every device's state afterwards is the Replay of the deliveries made, and no device's callbacks, commands or invoked callbacks change |
| Synchronizer.AddDeviceArgsAsWritten | custom_components/freeathome/fah/pfreeathome.py:564-571 | add_device passes four positional arguments, the display name fourth |
| Synchronizer.AddDeviceAsWrittenRaises | custom_components/freeathome/fah/pfreeathome.py:564-571 | as written, the display name binds to function_id and name is left unbound, so every add_device call raises a TypeError |
| Synchronizer.AddDeviceArgs | custom_components/freeathome/fah/pfreeathome.py:564-571 | the five arguments with the function id in its place |
| Synchronizer.AddDeviceBindsName | custom_components/freeathome/fah/pfreeathome.py:564-571 | with the function id passed, the display name binds to name and the function id to function_id |
| Synchronizer.TypeName | custom_components/freeathome/fah/pfreeathome.py:371-396 | every class has a type name get_devices maps back to it |
| Synchronizer.KindOfTypeInverse | custom_components/freeathome/fah/pfreeathome.py:371-398 | every type name get_devices knows is the name of exactly one class |
| Synchronizer.Create | custom_components/freeathome/fah/pfreeathome.py:564-571 | a fresh device of the class named, with the serial number, channel, function id, device info, datapoints and parameters given, and the display name except for a sensor |
| Synchronizer.Client.constructor | custom_components/freeathome/fah/pfreeathome.py:199-208 | no devices and nothing monitored |
| Synchronizer.Client.GetDevices | custom_components/freeathome/fah/pfreeathome.py:367-398 | exactly the registered devices of the class the type names; none for an unknown type |
| Synchronizer.Client.UpdateDevices | custom_components/freeathome/fah/pfreeathome.py:456-551 | reports go, in document order, to the devices monitoring their keys until one raises (Rejected, as for DeliverAll) or reading the document raises; each device's state afterwards is the Replay of the deliveries made; only if nothing raised does every reached device run its callbacks once |
| Synchronizer.Client.RunAfterUpdate | custom_components/freeathome/fah/pfreeathome.py:550-551 | each updated device runs its callbacks once, in any order, and nothing else changes, the state of every device included |
| Synchronizer.Client.NotADeviceObject | custom_components/freeathome/fah/pfreeathome.py:197 | the client is none of its devices' objects |
| Synchronizer.Client.FindDevices | custom_components/freeathome/fah/pfreeathome.py:616-785 | with a configuration the devices Plan lists are added in order, up to the first that raises; without one nothing changes |
| Synchronizer.Client.AddDevice | custom_components/freeathome/fah/pfreeathome.py:562-590 | the new device is registered and its output datapoints, then parameters, are monitored under serial/channel/id; an empty id raises an IndexError |
| Synchronizer.Client.AddCreation | custom_components/freeathome/fah/pfreeathome.py:562-590 | add_device for one device of the plan |
| Synchronizer.Client.AddAll | custom_components/freeathome/fah/pfreeathome.py:637-781 | the add_device calls in order up to the first that raises, each building the device planned |
| ConfigXml.Get | custom_components/freeathome/fah/pfreeathome.py:638-641 | element.get: the attribute's value, or None when it is absent |
| ConfigXml.FindAll | custom_components/freeathome/fah/pfreeathome.py:637 | findall(tag) keeps exactly the children with that tag |
| ConfigXml.Filter | custom_components/freeathome/fah/pfreeathome.py:637 | exactly the nodes with that tag are kept |
| ConfigXml.Find | custom_components/freeathome/fah/pfreeathome.py:635 | find(tag) gives a child with that tag exactly when there is one |
| ConfigXml.FirstWith | custom_components/freeathome/fah/pfreeathome.py:109-111 | an element whose attribute has the value, exactly when one exists |
| ConfigXml.AllWith | custom_components/freeathome/fah/pfreeathome.py:696 | exactly the elements whose attribute has the value |
| ConfigXml.Flatten | custom_components/freeathome/fah/pfreeathome.py:696 | exactly the grandchildren a "group/tag" path visits |
| ConfigXml.FindPath | custom_components/freeathome/fah/pfreeathome.py:679 | a "group/tag[@attr='value']" path finds an element exactly when one of the grandchildren carries the value |
| ConfigXml.DescendantsIn | custom_components/freeathome/fah/pfreeathome.py:498-499 | ".//tag" finds every element with the tag, and only such elements |
| ConfigXml.IntHex | custom_components/freeathome/fah/pfreeathome.py:682 | int(s, 16) succeeds exactly when ParseHex accepts the text (white space, a sign, an optional 0x prefix, single underscores between hexadecimal digits) and gives its value; None raises a TypeError, other text a ValueError |
| PyValue.ParseIntAccepts | freeathome/fah/devices/fah_thermostat.py:72 | int() skips surrounding white space and single underscores between digits, keeps leading zeros and a minus sign: " 1_000\n" is 1000 and "-07" is -7 |
| PyValue.ParseIntRefuses | freeathome/fah/devices/fah_thermostat.py:72 | int() refuses doubled, leading and trailing underscores, a sign apart from its digits, and empty text |
| PyValue.ParseHexAccepts | custom_components/freeathome/fah/pfreeathome.py:682 | int(s, 16) takes "0x_1F" as 31 and " +ff " as 255, refuses a bare "0x", and reads "-0" as 0 |
| PyValue.ParseHex | custom_components/freeathome/fah/pfreeathome.py:682 | int(s, 16) of a text made only of hexadecimal digits is the value of those digits |
| PyValue.ParseInt | custom_components/freeathome/fah/clientscramhandler.py:64 | int(s) of a text made only of decimal digits is the value of those digits |
| PyValue.ToInt | custom_components/freeathome/fah/devices/fah_cover.py:96-103 | int(v): None raises TypeError, an int is itself, a decimal-digit text is its value, and every other failure is a TypeError or ValueError |
| ConfigXml.HexChar | custom_components/freeathome/fah/pfreeathome.py:490 | the lower-case digit reads back as its value |
| ConfigXml.NatToHex | custom_components/freeathome/fah/pfreeathome.py:490 | at least one digit |
| ConfigXml.Hex04 | custom_components/freeathome/fah/pfreeathome.py:490 | '%04x' gives at least four digits |
| ConfigXml.NatToHexValue | custom_components/freeathome/fah/pfreeathome.py:490 | the digits read back as the number |
| ConfigXml.LeadingZeros | custom_components/freeathome/fah/pfreeathome.py:490 | leading zeros do not change the value |
| ConfigXml.ZerosValue | custom_components/freeathome/fah/pfreeathome.py:490 | a run of zeros reads as 0 |
| ConfigXml.Hex04RoundTrip | custom_components/freeathome/fah/pfreeathome.py:489-490 | int('%04x' % n, 16) == n: the channel's function is looked up by the id it was parsed from |
| Updates.Then | custom_components/freeathome/fah/pfreeathome.py:472-547 | a loop step's reports are kept, and the rest is read only when the step did not raise |
| Updates.Key | custom_components/freeathome/fah/pfreeathome.py:515 | the key serial "/" channel "/" id exists exactly when all three parts do |
| Updates.ChannelMask | custom_components/freeathome/fah/pfreeathome.py:483-496 | 0xFFFFFFFF without a functionId attribute; otherwise sensorMatchCode or actuatorMatchCode of the function found by '%04x' of that id |
| Updates.DatapointStep | custom_components/freeathome/fah/pfreeathome.py:503-526 | one datapoint more keeps the reports sound and complete |
| Updates.DatapointReports | custom_components/freeathome/fah/pfreeathome.py:503-526 | every datapoint report comes from a datapoint that passes the mask, and, unless the loop raised, every such datapoint with a value is reported |
| Updates.ParameterReports | custom_components/freeathome/fah/pfreeathome.py:529-547 | every parameter report comes from a parameter with a value element; the loop raises a TypeError exactly when a parameter has no 'i' (or serial or channel id is missing), and unless it raised every parameter with a value is reported |
| Updates.ParameterStep | custom_components/freeathome/fah/pfreeathome.py:529-547 | one parameter more keeps the reports sound and complete |
| Updates.ChannelReports | custom_components/freeathome/fah/pfreeathome.py:477-547 | every datapoint report of a channel comes from a datapoint below it that passes the channel's mask, every parameter report from a parameter below it; unless it raised, every such datapoint and parameter with a value is reported |
| Updates.ChannelsReports | custom_components/freeathome/fah/pfreeathome.py:477-547 | every report of a device's channel loop comes from one of its channels and, unless the loop raised, every channel's reports are all there |
| Updates.DeviceReports | custom_components/freeathome/fah/pfreeathome.py:472-547 | a device without channels gives nothing; otherwise its reports are those of its channels under its serial number, all of them unless it raised |
| Updates.DevicesReports | custom_components/freeathome/fah/pfreeathome.py:472-547 | every report of the device loop comes from one of the devices and, unless the loop raised, every device's reports are all there |
| Updates.Read | custom_components/freeathome/fah/pfreeathome.py:466-547 | a document without a devices element raises an AttributeError |
| Updates.ReadReports | custom_components/freeathome/fah/pfreeathome.py:466-547 | with a devices element, every report comes from one of its device elements and, unless reading raised, every report of every device is read |
| Updates.MatchCodeFilter | custom_components/freeathome/fah/pfreeathome.py:505-510 | under the default mask a datapoint is read exactly when its match code's low 32 bits are not all zero; under a function's mask, exactly when it shares a bit with the sensor or the actuator match code |
| Pairing.GetAttribute | custom_components/freeathome/fah/pfreeathome.py:107-112 | '' when no attribute element has the name; otherwise the text of the first one that does |
| Pairing.ScanById | custom_components/freeathome/fah/pfreeathome.py:142-157 | the 'i' of the first element whose id parses to the one sought, none when none does; int(..., 16) raises at the first id that is not hexadecimal |
| Pairing.GetById | custom_components/freeathome/fah/pfreeathome.py:142-157 | the lookup in the channel's group; a channel without the group raises an AttributeError |
| Pairing.GetDatapointsByPairingIds | custom_components/freeathome/fah/pfreeathome.py:160-170 | distinct keys; each entry is a requested pairing id with the datapoint it resolves to, every resolving id is present, and a lookup that raises ends it with that exception |
| Pairing.GetParametersByParameterIds | custom_components/freeathome/fah/pfreeathome.py:172-182 | the same over parameters and their parameter ids |
| Pairing.Pairs | custom_components/freeathome/fah/pfreeathome.py:163-164 | exactly the pairs of a group and one of its ids |
| Pairing.ResolvePairs | custom_components/freeathome/fah/pfreeathome.py:160-181 | the dict has distinct keys, each entry is a number its id resolved to, and every id that resolves is kept; an exception comes from one of the lookups |
| Pairing.ResolveStep | custom_components/freeathome/fah/pfreeathome.py:164-167 | one pair more keeps the dict's properties |
| Pairing.PutEntries | custom_components/freeathome/fah/pfreeathome.py:167 | setting a key adds only that entry |
| FahDevice.BindInit | custom_components/freeathome/fah/devices/fah_device.py:4 | positional arguments bind only when all five parameters without a default get one: fewer raise a TypeError, and the fourth and fifth are function_id and name |
| FahDevice.LookupKey | custom_components/freeathome/fah/devices/fah_device.py:55-58 | the key is the serial number, one '/', then the channel id, each recoverable from it |
| FahDevice.LookupKeyInjective | custom_components/freeathome/fah/devices/fah_device.py:55-58 | for serial numbers without '/', equal keys mean the same serial number and channel |
| FahDevice.Device.constructor | custom_components/freeathome/fah/devices/fah_device.py:4-15 | the accessors return the arguments unchanged, and a callback is registered only when one is given |
| FahDevice.Device.SendsTo | custom_components/freeathome/fah/devices/fah_device.py:4-13 | one call when the pairing id was resolved, none otherwise |
| FahDevice.Device.RegisterDeviceUpdatedCb | custom_components/freeathome/fah/devices/fah_device.py:17-19 | the callback is appended and nothing else changes |
| FahDevice.Device.UnregisterDeviceCb | custom_components/freeathome/fah/devices/fah_device.py:21-23 | one occurrence of a registered callback is removed; an unregistered one raises a ValueError and changes nothing |
| FahDevice.Device.AfterUpdate | custom_components/freeathome/fah/devices/fah_device.py:25-28 | every registered callback runs once, in registration order |
| FahDevice.Device.SetDatapoint | custom_components/freeathome/fah/devices/fah_device.py:4-13 | one set_datapoint call on this device's serial number and channel is recorded |
| FahDevice.Device.SendTo | custom_components/freeathome/fah/devices/fah_device.py:4-13 | the call goes to the datapoint resolved for the pairing id; an unresolved id raises a KeyError and sends nothing |
| FahCover.PairingIdsFor | custom_components/freeathome/fah/devices/fah_cover.py:46-78 | pairing ids exist exactly for the four cover families; blinds, attic windows and awnings get the blind lists, and shutters add the slats datapoints |
| FahCover.ReportedPosition | custom_components/freeathome/fah/devices/fah_cover.py:180-185 | a reported position is stored mirrored (abs(100 - value)) when it parses as a number, and raises otherwise |
| FahCover.PositionReportedBack | custom_components/freeathome/fah/devices/fah_cover.py:110-114 | a position from 0 to 100 that is sent and then reported back reads as the same position |
| FahCover.PositionCommandExamples | custom_components/freeathome/fah/devices/fah_cover.py:114 | position 41 is sent as "59" and tilt 34 as "66" |
| FahCover.ReportedPositionExamples | custom_components/freeathome/fah/devices/fah_cover.py:181 | a report of 100 stores position "0", and a report of 64 stores "36" |
| FahCover.ForcedState | custom_components/freeathome/fah/devices/fah_cover.py:28-32 | only "0", "2" and "3" name a forced position |
| FahCover.ForcedCommandReadBack | custom_components/freeathome/fah/devices/fah_cover.py:21-32 | forcing "open" or "closed" reads back as itself, but the command for "none" does not |
| FahCover.Cover.constructor | custom_components/freeathome/fah/devices/fah_cover.py:41-44 | the device is built from the arguments, and every attribute starts as None |
| FahCover.Cover.IsCoverClosed | custom_components/freeathome/fah/devices/fah_cover.py:80-85 | None without position support; otherwise whether the position is 0, raising when the position is not a number |
| FahCover.Cover.GetCoverPosition | custom_components/freeathome/fah/devices/fah_cover.py:95-98 | None without position support; otherwise the stored position as a number, or its conversion error |
| FahCover.Cover.GetCoverTiltPosition | custom_components/freeathome/fah/devices/fah_cover.py:100-103 | None without tilt support; otherwise the stored tilt position as a number |
| FahCover.Cover.GetForcedCoverPosition | custom_components/freeathome/fah/devices/fah_cover.py:105-108 | a forced position name, only with force support and a recognised state |
| FahCover.Cover.DeviceClass | custom_components/freeathome/fah/devices/fah_cover.py:163-172 | "window", "awning" or "shutter" by function id family, and None for every other cover |
| FahCover.Cover.SetCoverPosition | custom_components/freeathome/fah/devices/fah_cover.py:110-114 | the mirrored position goes to the blinds position datapoint, and only when that datapoint is resolved |
| FahCover.Cover.SetCoverTiltPosition | custom_components/freeathome/fah/devices/fah_cover.py:116-120 | the mirrored tilt goes to the slats datapoint, and only when that datapoint is resolved |
| FahCover.Cover.SetForcedCoverPosition | custom_components/freeathome/fah/devices/fah_cover.py:122-127 | the command for a known name goes to the force datapoint; any other name sends nothing |
| FahCover.Cover.OpenCover | custom_components/freeathome/fah/devices/fah_cover.py:130-133 | '0' goes to the move datapoint; a KeyError when it is missing |
| FahCover.Cover.CloseCover | custom_components/freeathome/fah/devices/fah_cover.py:135-138 | '1' goes to the move datapoint; a KeyError when it is missing |
| FahCover.Cover.StopCover | custom_components/freeathome/fah/devices/fah_cover.py:140-145 | '1' goes to the adjust datapoint only while the cover is opening or closing |
| FahCover.Cover.UpdateDatapoint | custom_components/freeathome/fah/devices/fah_cover.py:174-193 | exactly the attribute matched first changes; a position that is not a number raises and changes nothing |
| FahLight.PairingIdsFor | custom_components/freeathome/fah/devices/fah_light.py:50-100 | pairing ids exist for colour, colour-temperature and dimming actuators, and for switching actuators unless switch_as_x; colour wins over colour temperature; every list starts with the on/off datapoints |
| FahLight.ParameterIdsFor | custom_components/freeathome/fah/devices/fah_light.py:102-109 | only a colour-temperature actuator asks for parameters: its maximum and minimum colour temperature |
| FahLight.UnpackRgb | custom_components/freeathome/fah/devices/fah_light.py:164-168 | an int colour splits into three components, each in 0..255; any other value raises |
| FahLight.RgbRoundTrip | custom_components/freeathome/fah/devices/fah_light.py:160-168 | a colour set from components in 0..255 is read back as the same components |
| FahLight.ColorTempScaleMissing | custom_components/freeathome/fah/devices/fah_light.py:141-158 | with limits 2700 K and 6500 K, 4600 K is stored as 0 percent, and 50 percent reads as 192700 K |
| FahLight.ColorTempPercent | custom_components/freeathome/fah/devices/fah_light.py:141-149 | the minimum maps to 0 and the maximum to 100; a temperature within ordered limits maps into 0..100 |
| FahLight.ColorTempKelvin | custom_components/freeathome/fah/devices/fah_light.py:151-158 | 0 maps to the minimum and 100 to the maximum; a percentage in 0..100 maps to a temperature within the limits |
| FahLight.ColorTempPercentAsWritten | custom_components/freeathome/fah/devices/fah_light.py:141-149 | as written: any temperature strictly between the limits is stored as 0, and ZeroDivisionError exactly when the limits are equal numbers and the temperature is neither |
| FahLight.ColorTempKelvinAsWritten | custom_components/freeathome/fah/devices/fah_light.py:151-158 | as written: a percentage strictly between 1 and 100 gives a temperature above the upper limit; TypeError exactly when the percentage is neither 0 nor 100 and one of the three is not a number |
| FahLight.ColorTempReadBack | custom_components/freeathome/fah/devices/fah_light.py:141-158 | a temperature within the limits reads back within the limits, and each limit reads back exactly |
| FahLight.Light.constructor | custom_components/freeathome/fah/devices/fah_light.py:39-47 | the limits come from the parameters only when the light has a colour-temperature datapoint, and the update callback is not passed on |
| FahLight.Light.LimitOf | custom_components/freeathome/fah/devices/fah_light.py:41-45 | a limit is known exactly when the colour-temperature datapoint and that parameter are both present |
| FahLight.Light.ResendsBrightness | custom_components/freeathome/fah/devices/fah_light.py:117-118 | a dimmer that was already on re-sends its brightness; a light that is not a dimmer never does; only int() of the brightness can raise |
| FahLight.Light.TurnOn | custom_components/freeathome/fah/devices/fah_light.py:111-125 | '1' to the switch and the state is on, then the brightness, colour temperature and colour each go out when the light has them; a missing switch datapoint raises and changes nothing |
| FahLight.Light.SendSettings | custom_components/freeathome/fah/devices/fah_light.py:117-125 | the brightness, colour temperature and colour go out in that order, each only when supported; a brightness that is not a number stops before any is sent |
| FahLight.Light.TurnOff | custom_components/freeathome/fah/devices/fah_light.py:127-130 | '0' to the switch and the state is off; a missing switch datapoint raises and changes nothing |
| FahLight.Light.SetBrightness | custom_components/freeathome/fah/devices/fah_light.py:132-135 | only a dimmer stores the brightness |
| FahLight.Light.SetColorTemp | custom_components/freeathome/fah/devices/fah_light.py:141-149 | a colour-temperature light stores the temperature as a percentage of its range |
| FahLight.Light.GetColorTemp | custom_components/freeathome/fah/devices/fah_light.py:151-158 | the stored percentage is read back in kelvin |
| FahLight.Light.SetRgbColor | custom_components/freeathome/fah/devices/fah_light.py:160-162 | only a colour light stores the colour, and the stored colour reads back as the components given |
| FahLight.Light.UpdateDatapoint | custom_components/freeathome/fah/devices/fah_light.py:184-203 | exactly the attribute matched first changes; a colour value that is not a number raises and changes nothing |
| FahLightGroup.PairingIdsFor | custom_components/freeathome/fah/devices/fah_light_group.py:22-35 | only light groups have pairing ids, and theirs are the info inputs and the SysAP info and command outputs |
| FahLightGroup.LightGroup.constructor | custom_components/freeathome/fah/devices/fah_light_group.py:19-20 | the device is built from the arguments, and state and brightness start as None |
| FahLightGroup.LightGroup.ResendsBrightness | custom_components/freeathome/fah/devices/fah_light_group.py:44-45 | a dimmer group that was already on re-sends its brightness; a group that is not a dimmer never does |
| FahLightGroup.LightGroup.SendOnOff | custom_components/freeathome/fah/devices/fah_light_group.py:40-41 | the value goes to the info on/off datapoint and then to the switch datapoint; a missing one raises a KeyError and stops there |
| FahLightGroup.LightGroup.TurnOn | custom_components/freeathome/fah/devices/fah_light_group.py:37-47 | '1' to both on/off datapoints and the state is on, then a dimmer group re-sends its brightness to both dimming datapoints; each missing datapoint raises where it is looked up |
| FahLightGroup.LightGroup.TurnOff | custom_components/freeathome/fah/devices/fah_light_group.py:49-53 | '0' to both on/off datapoints, then the state is off; a missing datapoint raises and leaves the state |
| FahLightGroup.LightGroup.SetBrightness | custom_components/freeathome/fah/devices/fah_light_group.py:55-58 | only a dimmer group stores the brightness |
| FahLightGroup.LightGroup.UpdateDatapoint | custom_components/freeathome/fah/devices/fah_light_group.py:72-83 | a SysAP on/off report sets the state to whether the value is '1', a SysAP dimming report sets the brightness, and anything else changes nothing |
| FahSwitch.PairingIdsFor | custom_components/freeathome/fah/devices/fah_switch.py:18-27 | only switching actuators have pairing ids: one on/off input and one info output |
| FahSwitch.Switch.constructor | custom_components/freeathome/fah/devices/fah_switch.py:16 | the device is built from the arguments, and the state starts as None |
| FahSwitch.Switch.TurnOn | custom_components/freeathome/fah/devices/fah_switch.py:29-32 | '1' to the switch datapoint, then the state is on; a missing datapoint raises and leaves the state |
| FahSwitch.Switch.TurnOff | custom_components/freeathome/fah/devices/fah_switch.py:34-37 | '0' to the switch datapoint, then the state is off; a missing datapoint raises and leaves the state |
| FahSwitch.Switch.UpdateDatapoint | custom_components/freeathome/fah/devices/fah_switch.py:43-50 | only the info on/off datapoint changes the state, to whether the value is '1' |
| FahBinarySensor.PairingIdsFor | custom_components/freeathome/fah/devices/fah_binary_sensor.py:37-82 | binary sensors, weather stations and doorbells have pairing ids, all outputs and no inputs; the first matching family decides |
| FahBinarySensor.BinarySensor.constructor | custom_components/freeathome/fah/devices/fah_binary_sensor.py:34-35 | the device is built from the arguments, and state and window position start as None |
| FahBinarySensor.BinarySensor.UpdateDatapoint | custom_components/freeathome/fah/devices/fah_binary_sensor.py:85-91 | a window-position report sets the window position; any other report sets the state to '0' or '1' |
| FahBinarySensor.BinarySensor.GetIcon | custom_components/freeathome/fah/devices/fah_binary_sensor.py:93-97 | only a doorbell has an icon, "mdi:doorbell" |
| FahSensor.FirstSensorType | custom_components/freeathome/fah/devices/fah_sensor.py:20-38 | the type of the first resolved datapoint, in order, that has a type; None when no datapoint has one |
| FahSensor.SensorTypeFromPairingIds | custom_components/freeathome/fah/devices/fah_sensor.py:20-38 | a type exactly when some resolved pairing id is a measured one, and then one of the seven sensor types |
| FahSensor.PairingIdsFor | custom_components/freeathome/fah/devices/fah_sensor.py:49-73 | movement detectors, weather stations and air-quality sensors have pairing ids: outputs only, each a measured datapoint |
| FahSensor.SensorName | custom_components/freeathome/fah/devices/fah_sensor.py:80-82 | the name is kept when there is no type, and otherwise gets "_" and the type appended |
| FahSensor.SensorLookupKey | custom_components/freeathome/fah/devices/fah_sensor.py:105-115 | the lookup key gets "/" and the datapoint appended exactly when the sensor has one datapoint and it is an air-quality one |
| FahSensor.AirQualityKeysDiffer | custom_components/freeathome/fah/devices/fah_sensor.py:110-113 | two air-quality sensors on one channel with different datapoints get different lookup keys |
| FahSensor.Sensor.constructor | custom_components/freeathome/fah/devices/fah_sensor.py:76-84 | the type comes from the datapoints and is appended to the name; the update callback is not passed on |
| FahSensor.Sensor.UpdateDatapoint | custom_components/freeathome/fah/devices/fah_sensor.py:87-100 | a measured datapoint stores its value as reported, and any other datapoint changes nothing |
| FahThermostat.PairingIdsFor | freeathome/fah/devices/fah_thermostat.py:25-40 | only room temperature controllers have pairing ids: three request inputs and five outputs |
| FahThermostat.EcoModeOf | freeathome/fah/devices/fah_thermostat.py:70-72 | eco mode is on exactly when bit 0x04 of the reported status is set; a status that is not a number raises |
| FahThermostat.EcoModeExamples | freeathome/fah/devices/fah_thermostat.py:70-72 | status 36 reads as eco mode and 33 does not |
| FahThermostat.EcoBitOfRemainder | freeathome/fah/devices/fah_thermostat.py:72 | bit 0x04 is set exactly when the status modulo 8 is 4 to 7, negative statuses included |
| FahThermostat.Thermostat.constructor | freeathome/fah/devices/fah_thermostat.py:21-23 | the device is built from the arguments, and every attribute starts as None |
| FahThermostat.Thermostat.TurnOn | freeathome/fah/devices/fah_thermostat.py:42-45 | '0' to the eco request, then '1' to the controller request; a missing datapoint raises and stops there |
| FahThermostat.Thermostat.TurnOff | freeathome/fah/devices/fah_thermostat.py:47-49 | '0' to the controller request; a KeyError when it is missing |
| FahThermostat.Thermostat.EcoMode | freeathome/fah/devices/fah_thermostat.py:51-53 | '1' to the eco request; a KeyError when it is missing |
| FahThermostat.Thermostat.UpdateDatapoint | freeathome/fah/devices/fah_thermostat.py:58-97 | exactly the attribute matched first changes, the on/off state to whether the value is '1' and eco mode through its status bit; a status that is not a number raises and changes nothing |
| FahLock.PairingIdsFor | freeathome/fah/devices/fah_lock.py:17-26 | only door openers have pairing ids: one command input and one info output |
| FahLock.Lock.constructor | freeathome/fah/devices/fah_lock.py:15 | the device is built from the arguments, and the state starts as None |
| FahLock.Lock.Lock | freeathome/fah/devices/fah_lock.py:28-30 | '0' to the lock command datapoint; a KeyError when it is missing |
| FahLock.Lock.Unlock | freeathome/fah/devices/fah_lock.py:32-34 | '1' to the lock command datapoint; a KeyError when it is missing |
| FahLock.Lock.UpdateDatapoint | freeathome/fah/devices/fah_lock.py:36-43 | only the lock info datapoint changes the state, to the reported value |
| FahLightScene.PairingIdsFor | freeathome/fah/devices/fah_light_scene.py:19-26 | only scenes have pairing ids: scene control as the one output |
| FahLightScene.LightScene.constructor | freeathome/fah/devices/fah_light_scene.py:16 | the device is built from the arguments, and the state starts as None |
| FahLightScene.LightScene.Activate | freeathome/fah/devices/fah_light_scene.py:28-30 | '1' goes to the fixed datapoint odp0000, whatever datapoints were resolved |
| FahLightScene.LightScene.UpdateDatapoint | freeathome/fah/devices/fah_light_scene.py:32-36 | only the scene control datapoint changes the state, to the reported value |
| LegacyFahCover.PairingIdsFor | freeathome/fah/devices/fah_cover.py:40-56 | only blind actuators of the older function-id list have pairing ids, the same blind lists as the newer cover |
| LegacyFahCover.Cover.constructor | freeathome/fah/devices/fah_cover.py:36-38 | the device is built from the arguments, and every attribute starts as None |
| LegacyFahCover.Cover.IsCoverClosed | freeathome/fah/devices/fah_cover.py:58-60 | whether the stored position reads 0; with no position yet it raises a TypeError, because there is no support guard |
| LegacyFahCover.Cover.GetCoverPosition | freeathome/fah/devices/fah_cover.py:70-72 | the stored position as a number, raising as int() does |
| LegacyFahCover.Cover.GetForcedCoverPosition | freeathome/fah/devices/fah_cover.py:74-76 | the name of a recognised forced state, and None otherwise |
| LegacyFahCover.Cover.SetCoverPosition | freeathome/fah/devices/fah_cover.py:78-81 | the mirrored position goes to the set-position datapoint; a KeyError when it is missing |
| LegacyFahCover.Cover.SetForcedCoverPosition | freeathome/fah/devices/fah_cover.py:83-87 | a missing force datapoint raises even for an unknown name; a known name sends its command |
| LegacyFahCover.Cover.OpenCover | freeathome/fah/devices/fah_cover.py:89-92 | '0' to the move datapoint; a KeyError when it is missing |
| LegacyFahCover.Cover.CloseCover | freeathome/fah/devices/fah_cover.py:94-97 | '1' to the move datapoint; a KeyError when it is missing |
| LegacyFahCover.Cover.StopCover | freeathome/fah/devices/fah_cover.py:99-103 | '1' to the adjust datapoint while the cover is moving, raising only then when the datapoint is missing |
| LegacyFahCover.Cover.UpdateDatapoint | freeathome/fah/devices/fah_cover.py:105-120 | exactly the attribute matched first changes; a position that is not a number raises and changes nothing |
| LegacyFahSensor.SensorTypeFromPairingIds | freeathome/fah/devices/fah_sensor.py:16-28 | a type exactly when some resolved pairing id is one of the four measured ones |
| LegacyFahSensor.PairingIdsFor | freeathome/fah/devices/fah_sensor.py:36-54 | movement detectors and weather stations have pairing ids: outputs only, each a measured datapoint |
| LegacyFahSensor.MovementDetectorName | freeathome/fah/devices/fah_sensor.py:57-65 | a movement detector with a brightness datapoint is typed "lux" and named with "_lux" appended |
| LegacyFahSensor.Sensor.constructor | freeathome/fah/devices/fah_sensor.py:57-65 | the type comes from the datapoints and is appended to the name; the update callback is not passed on |
| LegacyFahSensor.Sensor.UpdateDatapoint | freeathome/fah/devices/fah_sensor.py:68-78 | a measured datapoint stores its value as reported, and any other datapoint changes nothing |
| LegacyFahBinarySensor.PairingIdsFor | freeathome/fah/devices/fah_binary_sensor.py:18-33 | sensor units report through on/off and movement detectors through movement; no other function has pairing ids |
| LegacyFahBinarySensor.BinarySensor.constructor | freeathome/fah/devices/fah_binary_sensor.py:16 | the device is built from the arguments, and the state starts as None |
| LegacyFahBinarySensor.BinarySensor.UpdateDatapoint | freeathome/fah/devices/fah_binary_sensor.py:35-40 | a switch or movement report stores its value as reported, and any other datapoint changes nothing |
| PyNaclInt.MaskOfBits | custom_components/freeathome/fah/pure_pynacl/__init__.py:33-34 | each class's mask is 2^n - 1, where n is its value bits (one fewer than its bits for a signed class) |
| PyNaclInt.New | custom_components/freeathome/fah/pure_pynacl/__init__.py:44-54 | a new number has its class and a value the class can hold; a non-negative value is reduced modulo mask + 1, and a negative one is reduced in magnitude, keeping its sign only in a signed class |
| PyNaclInt.NewKeepsFitting | custom_components/freeathome/fah/pure_pynacl/__init__.py:44-54 | a value the class can hold is kept unchanged, so making a number twice changes nothing |
| PyNaclInt.NewOfNegative | custom_components/freeathome/fah/pure_pynacl/__init__.py:48-51 | an unsigned class drops the sign (u8(-1) is 1, not C's 255), and a signed class negates the masked magnitude |
| PyNaclInt.FloorDivide | custom_components/freeathome/fah/pure_pynacl/__init__.py:163 | Python's // rounds toward minus infinity: the remainder lies between zero and the divisor |
| PyNaclInt.ModSign | custom_components/freeathome/fah/pure_pynacl/__init__.py:156 | Python's % takes the sign of the divisor and pairs with // to rebuild the dividend |
| PyNaclInt.BinOpWithPlain | custom_components/freeathome/fah/pure_pynacl/__init__.py:56-99 | with a plain int on either side the result is the plain result, unmasked, and raises exactly when the plain operation raises |
| PyNaclInt.BinOpTyped | custom_components/freeathome/fah/pure_pynacl/__init__.py:56-99 | between two typed numbers the result is masked to the class of higher order, except that a negative result of two unsigned numbers becomes an Int |
| PyNaclInt.BinOpComm | custom_components/freeathome/fah/pure_pynacl/__init__.py:136-158 | &, \|, ^, + and * give the same typed result whichever operand is on the left |
| PyNaclInt.BinOpExamples | custom_components/freeathome/fah/pure_pynacl/__init__.py:56-67 | u8(1) - u8(2) is Int(-1), and u8(200) + u8(100) wraps to u8(44) |
| PyNaclInt.LeftShiftTyped | custom_components/freeathome/fah/pure_pynacl/__init__.py:101-132 | a left shift keeps the class of its left operand, and an unsigned class drops the bits above its mask; a negative count raises |
| PyNaclInt.RightShiftTyped | custom_components/freeathome/fah/pure_pynacl/__init__.py:101-134 | a right shift keeps the class of its left operand and rounds toward minus infinity; a negative count raises |
| PyNaclInt.InvertUnsigned | custom_components/freeathome/fah/pure_pynacl/__init__.py:115-129 | on an unsigned class, ~ subtracts from the mask, as C's ~ does |
| PyNaclInt.InvertTwice | custom_components/freeathome/fah/pure_pynacl/__init__.py:115-129 | ~~a == a for every value except the largest of a signed class |
| PyNaclInt.InvertSignedMax | custom_components/freeathome/fah/pure_pynacl/__init__.py:115-129 | ~ of a signed class's largest value gives 0, where C gives the least value |
| PyNaclInt.TypedAll | custom_components/freeathome/fah/pure_pynacl/__init__.py:193 | each element is made a number of the class, and the length is kept |
| PyNaclInt.IntArray | custom_components/freeathome/fah/pure_pynacl/__init__.py:174-193 | a positive size fixes the length, truncating or padding with zeros of the class; with no size every element of init is kept |
| TweetNacl.Masked64IsNew | custom_components/freeathome/fah/pure_pynacl/tweetnacl.py:24-45 | u32 and u64 both keep 64 bits on LP64, so a value below 2^64 is kept |
| TweetNacl.RotateLeft32Inverse | custom_components/freeathome/fah/pure_pynacl/tweetnacl.py:183-185 | rotating left by c and then by 32 - c gives the word back, and a rotation stays below 2^32 |
| TweetNacl.L32Rotates | custom_components/freeathome/fah/pure_pynacl/tweetnacl.py:183-185 | L32 raises exactly for a count outside 0..32; otherwise its low 32 bits are the 32-bit left rotation of u32(x) |
| TweetNacl.L32Fails | custom_components/freeathome/fah/pure_pynacl/tweetnacl.py:183-185 | a count above 32 makes the right shift negative, and L32 raises |
| TweetNacl.Ld32IsLE | custom_components/freeathome/fah/pure_pynacl/tweetnacl.py:188-193 | ld32 reads the first four bytes as a little-endian number |
| TweetNacl.St32 | custom_components/freeathome/fah/pure_pynacl/tweetnacl.py:204-209 | the first four bytes become the low four bytes of u, least significant first, and the rest is left alone |
| TweetNacl.Ld32OfSt32 | custom_components/freeathome/fah/pure_pynacl/tweetnacl.py:188-209 | ld32 after st32 gives u modulo 2^32 |
| TweetNacl.Dl64 | custom_components/freeathome/fah/pure_pynacl/tweetnacl.py:196-201 | dl64 reads the first eight bytes as a big-endian number |
| TweetNacl.Ts64 | custom_components/freeathome/fah/pure_pynacl/tweetnacl.py:212-217 | the first eight bytes become the low eight bytes of u, most significant first, and the rest is left alone |
| TweetNacl.Ts64ThenDl64 | custom_components/freeathome/fah/pure_pynacl/tweetnacl.py:196-217 | dl64 after ts64 gives u modulo 2^64 |
| TweetNacl.BEOfToBE | custom_components/freeathome/fah/pure_pynacl/tweetnacl.py:212-217 | decoding the k low bytes of n, most significant first, gives n modulo 256^k |
| TweetNacl.LEOfToLEMod | custom_components/freeathome/fah/pure_pynacl/tweetnacl.py:204-209 | decoding the k low bytes of n, least significant first, gives n modulo 256^k |
| TweetNacl.VnResultOfByte | custom_components/freeathome/fah/pure_pynacl/tweetnacl.py:225 | the branch-free ending maps 0 to 0 and any other byte to -1 |
| TweetNacl.Vn | custom_components/freeathome/fah/pure_pynacl/tweetnacl.py:220-225 | 0 exactly when the first n bytes agree, and -1 otherwise |
| TweetNacl.CryptoVerify16 | custom_components/freeathome/fah/pure_pynacl/tweetnacl.py:228-230 | 0 exactly when the first 16 bytes agree, and -1 otherwise |
| TweetNacl.CryptoVerify32 | custom_components/freeathome/fah/pure_pynacl/tweetnacl.py:233-235 | 0 exactly when the first 32 bytes agree, and -1 otherwise |
| TweetNacl.AddLimbsBytes | custom_components/freeathome/fah/pure_pynacl/tweetnacl.py:350-356 | every limb add1305 leaves is a byte |
| TweetNacl.AddLimbsSum | custom_components/freeathome/fah/pure_pynacl/tweetnacl.py:350-356 | with limbs below 2^32, add1305 adds the two numbers modulo 256^17, dropping the carry out of the top limb |
| TweetNacl.Add1305 | custom_components/freeathome/fah/pure_pynacl/tweetnacl.py:350-356 | the 17 limbs of h become the limb-wise sum with carry, and nothing past them changes |
| TweetNacl.AndBytesLE | custom_components/freeathome/fah/pure_pynacl/tweetnacl.py:374-382 | & taken byte by byte on two little-endian numbers is the & of the numbers |
| TweetNacl.ClampPoly1305Key | custom_components/freeathome/fah/pure_pynacl/tweetnacl.py:368-382 | r holds the first 16 key bytes masked by the Poly1305 clamp, with a zero 17th limb |
| TweetNacl.ClampMaskValue | custom_components/freeathome/fah/pure_pynacl/tweetnacl.py:376-382 | the clamp mask read little-endian is 0x0ffffffc0ffffffc0ffffffc0fffffff |
| TweetNacl.ClampIsRfc8439 | custom_components/freeathome/fah/pure_pynacl/tweetnacl.py:374-382 | the clamped multiplier is the key's first 16 bytes, read little-endian, & 0x0ffffffc0ffffffc0ffffffc0fffffff, as section 2.5.1 of RFC 8439 requires |
| TweetNacl.ClampedScalarParts | custom_components/freeathome/fah/pure_pynacl/tweetnacl.py:628-631 | the scalar is n with byte 0 & 248 and byte 31 (n[31] & 127) \| 64, bytes 1 to 30 copied |
| TweetNacl.ClampScalar | custom_components/freeathome/fah/pure_pynacl/tweetnacl.py:628-631 | the scalar array holds the clamped scalar |
| TweetNacl.ClampedScalarRange | custom_components/freeathome/fah/pure_pynacl/tweetnacl.py:628-631 | the clamped scalar is a multiple of 8 with 2^254 <= z < 2^255, as section 5 of RFC 7748 requires |
| TweetNacl.CounterBytesAdds | custom_components/freeathome/fah/pure_pynacl/tweetnacl.py:313-317 | the little-endian counter advances by the carry: the k bytes of j become the k bytes of j + u |
| TweetNacl.CounterStepIncrements | custom_components/freeathome/fah/pure_pynacl/tweetnacl.py:313-317 | one step of the corrected counter adds one to the 64-bit block number modulo 2^64 |
| TweetNacl.CounterZeros | custom_components/freeathome/fah/pure_pynacl/tweetnacl.py:298-317 | a zero carry through zero bytes changes nothing, in both the as-written and the corrected step |
| TweetNacl.CounterAsWrittenDiverges | custom_components/freeathome/fah/pure_pynacl/tweetnacl.py:313-317 | from block 255 the as-written step stores 256 in a u8 slot, so its next counter differs from block 257's |
| TweetNacl.CounterStepAsWritten | custom_components/freeathome/fah/pure_pynacl/tweetnacl.py:313-317 | the counter bytes become the as-written step of the old ones, and the nonce bytes are kept |
| TweetNacl.CounterStep | custom_components/freeathome/fah/pure_pynacl/tweetnacl.py:313-317 | the counter bytes become the corrected step of the old ones, and the nonce bytes are kept |
| TweetNaclBox.XorStream | custom_components/freeathome/fah/pure_pynacl/tweetnacl.py:296-328 | the stream has length b |
| TweetNaclBox.XorStreamAt | custom_components/freeathome/fah/pure_pynacl/tweetnacl.py:296-328 | byte i is message byte i (zero for an empty message) xor byte i % 64 of the Salsa20 block numbered i / 64 |
| TweetNaclBox.XStream | custom_components/freeathome/fah/pure_pynacl/tweetnacl.py:343-347 | the XSalsa20 stream has length d |
| TweetNaclBox.StreamSalsa20Xor | custom_components/freeathome/fah/pure_pynacl/tweetnacl.py:296-328 | c[..b] becomes the message xor the key stream, block by block and through the last partial block; nothing past b changes; the result is 0 |
| TweetNaclBox.XorBlock | custom_components/freeathome/fah/pure_pynacl/tweetnacl.py:311-326 | the bytes of one block are the message bytes xor the block, and no other byte changes |
| TweetNaclBox.StreamSalsa20 | custom_components/freeathome/fah/pure_pynacl/tweetnacl.py:331-334 | c[..d] becomes the key stream alone |
| TweetNaclBox.StreamXSalsa20Xor | custom_components/freeathome/fah/pure_pynacl/tweetnacl.py:343-347 | c[..d] becomes the message xor the Salsa20 stream under the HSalsa20 subkey of the first 16 nonce bytes |
| TweetNaclBox.StreamXSalsa20 | custom_components/freeathome/fah/pure_pynacl/tweetnacl.py:336-340 | c[..d] becomes the XSalsa20 key stream alone |
| TweetNaclBox.XorStreamTwice | custom_components/freeathome/fah/pure_pynacl/tweetnacl.py:296-328 | xoring the same key stream twice gives the message back |
| TweetNaclBox.Onetimeauth | custom_components/freeathome/fah/pure_pynacl/tweetnacl.py:364-437 | the first 16 bytes of out become the tag of m[..n] under k[..32], and the rest is left alone |
| TweetNaclBox.OnetimeauthVerify | custom_components/freeathome/fah/pure_pynacl/tweetnacl.py:440-444 | 0 exactly when h[..16] is the tag of m[..n], and -1 otherwise |
| TweetNaclBox.Secretbox | custom_components/freeathome/fah/pure_pynacl/tweetnacl.py:447-456 | -1 and no change when d < 32; otherwise c[..d] holds zeros, the tag, then the ciphertext |
| TweetNaclBox.SecretboxOpen | custom_components/freeathome/fah/pure_pynacl/tweetnacl.py:459-469 | 0 exactly when the tag checks, and then m[..d] holds 32 zero bytes followed by the opened message; otherwise -1 and m is unchanged |
| TweetNaclBox.SealThenOpen | custom_components/freeathome/fah/pure_pynacl/tweetnacl.py:447-469 | a sealed box whose message starts with 32 zero bytes opens to that message |
| TweetNaclBox.ForgedTagRefused | custom_components/freeathome/fah/pure_pynacl/tweetnacl.py:459-466 | a box whose tag slot does not hold the tag of its ciphertext is refused |
| Utf8.EncodeChar | freeathome/fah/messagewriter.py:17 | a character encodes to between one and four bytes |
| Utf8.AsciiBytes | freeathome/fah/messagewriter.py:17 | an ASCII string encodes to the bytes of its character codes |
| Utf8.DecodeEncode | fah/messagereader.py:56 | decoding what str.encode produced gives the string back |
| Utf8.EncodeDecode | fah/messagereader.py:56 | strict decoding accepts only encodings: bytes that decode are the encoding of what they decode to |
| Utf8.EncodeInjective | freeathome/fah/messagewriter.py:17 | distinct strings have distinct encodings |

## Left out

- XMPP transport and RPC plumbing (custom_components/freeathome/fah/pfreeathome.py:212-414 and 787-893, custom_components/freeathome/fah/saslhandler.py:149-173): event handlers, presence, stanzas, keep-alive, reconnection and polling are I/O. Each awaited call is a sequential step whose reply is a parameter.
- Foreign cryptography (libsodium through ctypes, pynacl, hashlib, hmac): SHA-256, HMAC-SHA256, PBKDF2, BLAKE2b, the `crypto_box_*` calls, `secretbox_open` and base64 are fields of the `Primitives` record, with no property assumed of them.
- TweetNaCl kernels: the Salsa20 and HSalsa20 cores and the Poly1305 block loop (custom_components/freeathome/fah/pure_pynacl/tweetnacl.py:238-345, 384-437) are fields of the `Kernels` record. Only `add1305`, the key clamp and the block counter around them are modelled.
- Curve25519 field arithmetic, SHA-512 and Ed25519 (custom_components/freeathome/fah/pure_pynacl/tweetnacl.py:472-1292) are not part of this model, apart from the X25519 scalar clamp.
- XML and base64/zlib decoding (`data2py`, `message2py`, custom_components/freeathome/fah/pfreeathome.py:59-74 and 430-447), and the duplicate-`name` regex (lines 464 and 626): the configuration and update documents enter as `ConfigXml` trees.
- `get_room_names` and `get_names` (custom_components/freeathome/fah/pfreeathome.py:76-105): their results enter `Discovery` as `Env.names` and `Env.roomnames`.
- `get_input_datapoint`, `get_output_datapoint`, `is_output_pairing_id_assigned` and `get_all_datapoints_as_str` (custom_components/freeathome/fah/pfreeathome.py:115-140, 184-194): none of them is on the modelled paths.
- DecryptPayload (CryptoSession.Session.DecryptPayload): with an empty pending list the source builds a reader over `None`, whose first read raises; the model returns `NoPendingOpened` at once. With pending prefixes, `crypto_box_open_afternm` raises at the first prefix that does not open the reply (custom_components/freeathome/fah/crypto.py:348-355); the model searches all of them instead, following the Findings row for crypto.py:346-355.
- FirstOpening, FindOpening, Decrypt and DecryptRemovesOpened (CryptoSession): the corrected pending search of the Findings row for crypto.py:346-355; the loop as written is OpenBodyAsWritten.
- ExtractData (Crypto.ExtractData): reads four length bytes where crypto.py:155-158 reads three, following the Findings row for crypto.py:155-158; ExtractDataAsWritten is the source as written.
- ParseKeyExchange (Crypto.ParseKeyExchange): refuses a reply whose authenticator does not verify, following the Findings row for crypto.py:124-127, and reads the container length from 4 bytes, following the row for crypto.py:155-158.
- CompleteKeyExchange (CryptoSession.Session.CompleteKeyExchange), InitiateKeyExchange and ExchangeKeys (SaslHandler.Handler): use the corrected ParseKeyExchange, following the Findings rows for crypto.py:124-127 and 155-158.
- SequenceInOrder (Crypto.SequenceInOrder): the corrected skip loop of the Findings row for crypto.py:227-233; the loop as written is SequenceAsWritten.
- Sequence, Gap, GapExact and Countdown (Crypto): the corrected skip loop of the Findings row for crypto.py:227-233, which records the numbers between the counter and the nonce; the loop as written is SequenceAsWritten.
- OpenPubSub, PubSubInOrder and SequenceAheadRepeats (CryptoSession): built on the corrected skip loop of the Findings row for crypto.py:227-233.
- DecryptPubSub (CryptoSession.Session.DecryptPubSub): updates the stream counters with the corrected skip loop of the Findings row for crypto.py:227-233.
- ReadKeyEntries and ReadKeyEntry (CryptoSession): a stream name without "/" still has its counter read and discarded, following the Findings row for crypto.py:363-367.
- ReadKeyUpdate, KeyUpdateOf and ApplyKeyUpdate (CryptoSession): read the key-update table with the corrected entries loop of the Findings row for crypto.py:363-367; DecryptPayload does too.
- Create, FindDevices, AddDevice, AddCreation and AddAll (Synchronizer, Synchronizer.Client): pass the channel's function id to the device class, following the Findings row for pfreeathome.py:562-571. For lights and sensors the fix needs one more change: `FahLight.__init__` and `FahSensor.__init__` (custom_components/freeathome/fah/devices/fah_light.py:39-47, custom_components/freeathome/fah/devices/fah_sensor.py:76-84) take no function id and forward to `FahDevice.__init__` without one, so they raise as well; FahLight.Light.constructor and FahSensor.Sensor.constructor model them with that forwarding corrected.
- SetColorTemp and GetColorTemp (FahLight.Light): use the percentage scale of the Findings row for fah_light.py:141-158; the formulas as written are ColorTempPercentAsWritten and ColorTempKelvinAsWritten.
- LimitOf (FahLight.Light.LimitOf): a colour-temperature limit is the parameter's text when present, as in the source. Through `find_devices` lights receive no parameters, so both limits stay `None`.
- XorStream, XorStreamAt, XStream, StreamSalsa20Xor, StreamSalsa20, StreamXSalsa20Xor, StreamXSalsa20, Secretbox and SecretboxOpen (TweetNaclBox): advance the block counter with the masked byte store of the Findings row for tweetnacl.py:313-317.
- ParseHex (PyValue.ParseHex): a negative non-zero hexadecimal text such as "-1f" is refused, where `int(s, 16)` returns a negative number; no modelled caller is given one. Decimal digits outside ASCII, which `int()` also accepts, are refused by ParseHex and ParseInt.
- ParseInt (PyValue.ParseInt): accepts only ASCII decimal digits, where Python's `int()` accepts every Unicode decimal digit.
- IntHex (ConfigXml.IntHex) and ScanById (Pairing.ScanById): parse with ParseHex, so they share its two gaps: negative values and non-ASCII digits.
- Env.thermostatParameterIds: stands for `FahThermostat.parameter_ids(function_id)` (custom_components/freeathome/fah/pfreeathome.py:775). That class lives in custom_components/freeathome/fah/devices/fah_thermostat.py, which is not part of this model, so the ids are a fixed parameter of discovery.
- Update handlers (`add_update_handler`, `clear_update_handlers` and the loop at custom_components/freeathome/fah/pfreeathome.py:459-460): each handler receives the raw update text before parsing and cannot change devices through the modelled interface. They are callbacks into code outside the core and are not modelled.
- AIR_QUALITY_PIDS (FahSensor.AIR_QUALITY_PIDS): a set in the source, a sequence in the model. It is used for membership tests and as the output list of the pairing ids. Each id there is looked up on its own, so the datapoint map has the same contents, and raises in the same cases, whatever the order; only the map's insertion order could differ, and the only use of that order is for a map of a single datapoint.
- FahLight.ColorTempPercent and FahLight.ColorTempKelvin: between the two limits the model divides with truncating integer division. Python divides in floating point and then truncates, which can differ by one.
- `set_target_temperature` of the thermostat (freeathome/fah/devices/fah_thermostat.py:55-56) formats a float with `'%.2f'` and is not modelled; floating point is outside the model.
- FahCover and LegacyFahCover: `int(float(value))` is modelled as parsing a decimal integer, so fractional texts are refused rather than truncated.
- The brightness ×2.55 and wind-speed ×3.6 scalings live in the Home Assistant platform files, which are not part of this model.
- The pub-sub sequence number is read with the little-endian `readUint64` (custom_components/freeathome/fah/crypto.py:200-201). The model reads it the same way.
- The default stream counter is the text "cU" (custom_components/freeathome/fah/crypto.py:205-207). The model keeps it as a string, so comparing a sequence number with it is a `TypeError`, as in Python.
- ShortKeyExchange and UnexpectedTokenSize (Crypto.CryptoError): custom_components/freeathome/fah/crypto.py:73, 80 and 91 `raise Error(...)`, and `Error` is not defined there, so Python raises a NameError at those points; the model names the reason instead. Either way the step raises.
- ShortPublicKey (Crypto.CryptoError): the message at custom_components/freeathome/fah/crypto.py:137-142 adds an int to a str, so Python raises a TypeError while building it; the model names the reason instead.
- Logging and the protocol-version mismatch warning of `decodeNewSessionResult` have no effect on state and are not modelled.
- Trivial getters (`is_on`, `get_brightness`, position and state getters) read a field and have no contract of their own. The `supports_*` and `is_*` queries are predicates defined as a lookup in the resolved pairing map.
- Home Assistant adapters, the settings fetchers, the legacy clients and the test files are outside the core.

## Findings

| source | as written | input that shows it | evidently intended | confidence | as-written member | corrected member |
|---|---|---|---|---|---|---|
| custom_components/freeathome/fah/crypto.py:155-158 | `extractData` reads the length from 3 bytes, `fX[fY:fY+3]`, though 4 bytes are required and then skipped | a container whose length bytes are 00 00 00 01 (2^24 bytes of data) reads as length 0 and is refused | a 4-byte little-endian length | not executed | Crypto.ExtractDataDropsHighByte | Crypto.ExtractDataOfField |
| custom_components/freeathome/fah/crypto.py:124-127 | the key exchange raises only when `validateAuthenticator` returns `None`, but it returns the verify result, an int (lines 186-188) | a reply whose authenticator tag does not verify is accepted | refuse the reply when the tag does not verify | not executed | Crypto.KeyExchangeIgnoresAuthenticator | Crypto.ParseKeyExchangeOf |
| custom_components/freeathome/fah/crypto.py:227-233 | the skip loop never appends inside its body; after it, `n-1` is appended once and `x -= x` has no effect | stream counter 5, then message 6: 5 is recorded as skipped, so a second message numbered 5 is accepted | record only the numbers between the counter and `n`, at most 16 of them: the loop's own count `c = n - counter - 1` and its guard `x == 0` treat the counter as the last number accepted, and a loop of `c` steps appending `x` and decrementing it records exactly those | not executed | Crypto.SequenceAsWrittenReplays | Crypto.GapExact |
| custom_components/freeathome/fah/crypto.py:363-367 | a stream name without "/" is skipped with `continue` before its uint64 counter is read | two names, "a" then "x/y" with counter 7: the first bytes of the counter of "a" are read as a second, empty name, so "x/y" is never seen | read and discard the counter of a skipped name | not executed | Crypto.ReadEntriesDesynchronises | Crypto.ReadEntriesOf |
| custom_components/freeathome/fah/devices/fah_light.py:141-158 | `set_color_temp` stores `int((k-min)/(max-min))` and `get_color_temp` returns `int(p*(max-min)+min)`, with no factor 100 | a FahLight whose parameters give the numeric limits 2700 K and 6500 K: 4600 K is stored as 0, and 50 percent reads back as 192700 K. Discovery does not reach this: `find_devices` fetches parameters only for thermostats (custom_components/freeathome/fah/pfreeathome.py:773-776), so a discovered light has both limits `None` and the middle branch raises a TypeError; the example needs a light constructed with those parameters | a percentage scale between the two limits | not executed | FahLight.ColorTempScaleMissing | FahLight.ColorTempReadBack |
| custom_components/freeathome/fah/pfreeathome.py:562-571 | `add_device` passes four positional arguments, but `FahDevice.__init__` expects the function id before the name (custom_components/freeathome/fah/devices/fah_device.py:4); `FahLight.__init__` and `FahSensor.__init__` take no function id and forward to it without one (custom_components/freeathome/fah/devices/fah_light.py:47, custom_components/freeathome/fah/devices/fah_sensor.py:84) | any channel that reaches `add_device` | pass the channel's function id, and forward it from `FahLight.__init__` and `FahSensor.__init__` | not executed | Synchronizer.AddDeviceAsWrittenRaises | Synchronizer.AddDeviceBindsName |
| custom_components/freeathome/fah/pure_pynacl/tweetnacl.py:313-317 | the block counter stores the running `u32` carry `u` into a byte slot of `z` without masking it | counter byte 255: after one block the slot holds 256, not 0, and the next step gives counter bytes 257, 2 where the intended counter is 1, 1 | store `u & 255` | not executed | TweetNacl.CounterAsWrittenDiverges | TweetNacl.CounterStepIncrements |
| custom_components/freeathome/fah/crypto.py:346-355 | the loop over the pending prefixes expects `crypto_box_open_afternm` to return `None` for a box that does not open, but that binding raises a `CryptoError` instead, so the loop never gets past the first prefix | two requests outstanding and the reply to the second: the open under the first prefix raises, and the reply is lost | try each pending prefix until one opens the reply | not executed | CryptoSession.OpenAsWrittenStopsAtFirst | CryptoSession.OpenBody |
