# QuantumShield core in Dafny

This project models the post-quantum transport and token core of QuantumShield:

- **KEMTLS handshake and channel (`kemtls/`).** The server's long-term Kyber768 and Dilithium3 keypairs, the server hello, client encapsulation, server decapsulation and the signature over the SHA-256 digest of the transcript. The AES-GCM `SecureChannel` is keyed by SHA-256 of the shared secret; a frame is the 12-byte nonce followed by the AEAD output. The server keeps a `sessions` dictionary keyed by `id(channel)`, and the client holds a channel once `finalize` runs.
- **Auth-server KEM endpoint and record layer (`auth_server/kemtls_server.py`, `crypto/symmetric.py`).** The session id is `os.urandom(8).hex()`. The `SymmetricChannel` is keyed by the first 32 bytes of the secret; its frames are carried as padded standard base64.
- **ID tokens (`auth_server/token_service.py`).** A JWS compact serialization: base64url without padding of the `json.dumps` header and payload, and a Dilithium signature over `h.p`.
- **Crypto policy merge (`policy/policy_loader.py`)** and **dashboard risk score and label (`dashboard/risk.js`).**

The cryptographic primitives are records of functions (`Primitives.Aead`, `Kem`, `SigScheme`, `Hash`). The only facts about them are the correctness predicates `AeadCorrect`, `KemCorrect`, `SigCorrect`, `Sha256Length` and `AeadTagLength`. These predicates appear as preconditions wherever a lemma needs them.

Randomness, the clock and CPython's `id()` are parameters:
- nonces, keygen and encapsulation coins, and the 8 session-id bytes;
- the `time.time()` readings, as `real`;
- `channelId`.

Base64 (sections 4 and 5 of RFC 4648) is modelled concretely, with the decoder following CPython's non-strict `binascii.a2b_base64`. Lower-case hex and `json.dumps` with `ensure_ascii` are modelled concretely too, so the framing lengths and round trips are proved, not assumed. The classes are Dafny classes: `sessions` and `channel` are mutable fields, and everything assigned once in `__init__` is a `const`.

Four behaviours of the code differ from the design intent. The model follows the code:
- **Key derivation differs between layers.** `SecureChannel` hashes the secret; `SymmetricChannel` truncates it (`Scenarios.KeyDerivationsDiffer`). The design intends one derivation.
- **The client never checks the server's signature.** `kemtls_client.py` never calls `verify_server`, so any party that answers with a hello of its own ends up sharing the client's key (`KemtlsClient.ClientAndServerAgree` holds for any handshake instance).
- **Session ids are not unpredictable random values.** The `kemtls/` server uses `id(channel)`, a memory address. The auth server draws 64 random bits and silently overwrites an existing entry on collision.
- **Tokens and handshakes are signed with unrelated Dilithium3 keys.** `TokenService.NewTokenService` binds the JWKS keypair made once in auth_server/jwks.py:8-11. `Handshake.KemtlsHandshake.sigPk` is `sig.keygen(sigCoins).pk`, generated afresh by every handshake object at kemtls/handshake.py:14-15. Nothing ties the two: `Scenarios.TokenAndHandshakeKeys` builds both from separate coins and shows that the token verifies under the JWKS key, while the hello publishes the other key.

## Model

| member | source | states |
|---|---|---|
| Channel.NewSecureChannel | QuantumShield/kemtls/channel.py:7-10 | the channel key is 32 bytes long |
| Channel.KeyDerivation | QuantumShield/kemtls/channel.py:7-9 | the key is SHA-256 of the shared secret; equal secrets give equal channels |
| Channel.Encrypt | QuantumShield/kemtls/channel.py:12-15 | the frame starts with the 12-byte nonce and continues with exactly the AEAD output for that key and nonce, without associated data |
| Channel.DecryptSplitsFrame | QuantumShield/kemtls/channel.py:17-20 | decrypting `nonce + ct` opens `ct` under `nonce`; the split is the inverse of the join |
| Channel.DecryptEncrypt | QuantumShield/kemtls/channel.py:12-20 | decrypt(encrypt(p)) == p for every nonce and plaintext |
| Channel.EncryptLength | QuantumShield/kemtls/channel.py:12-15 | with a 16-byte tag a frame is 12 + \|p\| + 16 bytes |
| Channel.Decrypt | QuantumShield/kemtls/channel.py:17-20 | the definition: the first 12 bytes (fewer if the frame is shorter) are the nonce, the rest the ciphertext, opened without associated data; a failed open is AuthenticationFailure. Its properties are stated by DecryptSplitsFrame and DecryptEncrypt |
| Symmetric.NewSymmetricChannel | QuantumShield/crypto/symmetric.py:6-8 | construction succeeds iff `key[:32]` is 16, 24 or 32 bytes; the key kept is exactly `key[:32]`; otherwise InvalidKeyLength |
| Symmetric.KeyIsTruncatedSecret | QuantumShield/crypto/symmetric.py:7 | a secret of at least 32 bytes is cut to its first 32; a 32-byte secret is the key unchanged |
| Symmetric.Encrypt | QuantumShield/crypto/symmetric.py:10-13 | the definition: padded standard base64 of the nonce followed by the AEAD output. Its properties are stated by EncryptIsBase64, EncryptLength and DecryptEncrypt |
| Symmetric.Decrypt | QuantumShield/crypto/symmetric.py:15-17 | the definition: b64decode, failing with MalformedBase64; then the first 12 bytes are the nonce and the rest the ciphertext. Its properties are stated by DecryptSplitsFrame, DecryptEncrypt and the three lemmas below |
| Symmetric.EncryptIsBase64 | QuantumShield/crypto/symmetric.py:10-13 | the text is padded standard base64: alphabet plus `=`, length a multiple of 4, 4·⌈n/3⌉ for an n-byte frame |
| Symmetric.EncryptLength | QuantumShield/crypto/symmetric.py:10-13 | with the 16-byte tag the text is 4·⌈(\|p\| + 28)/3⌉ characters |
| Symmetric.DecryptSplitsFrame | QuantumShield/crypto/symmetric.py:15-17 | decrypting the base64 of `nonce + ct` opens `ct` under `nonce` |
| Symmetric.DecryptEncrypt | QuantumShield/crypto/symmetric.py:10-17 | decrypt(encrypt(p)) == p for every nonce and plaintext |
| Symmetric.DecryptSkipsSurplusPadding | QuantumShield/crypto/symmetric.py:16 | an encrypted text followed by any number of extra `=` still decrypts to the plaintext |
| Symmetric.DecryptStopsAtPadding | QuantumShield/crypto/symmetric.py:16 | when the frame length is not a multiple of 3, any ASCII text after the base64 is ignored and the plaintext comes back |
| Symmetric.DecryptIgnoresForeign | QuantumShield/crypto/symmetric.py:16 | inserting an ASCII character outside the alphabet and other than `=` anywhere in the text does not change the result |
| Base64.DigitValue | QuantumShield/crypto/symmetric.py:13 | the digit of every sextet is in the alphabet and maps back to that sextet |
| Base64.GroupRoundTrip | QuantumShield/crypto/symmetric.py:13-16 | splitting 1-3 bytes into sextets and joining them again gives the bytes |
| Base64.DigitsRoundTrip | QuantumShield/crypto/symmetric.py:13-16 | sextets written as digits read back as the same sextets |
| Base64.UnpaddedDigits | QuantumShield/auth_server/token_service.py:10-11 | unpadded base64 uses only alphabet digits and has ⌈4n/3⌉ characters |
| Base64.UnpaddedRoundTrip | QuantumShield/auth_server/token_service.py:10-11 | unpadded digits decode back to the input bytes |
| Base64.EncodeLength | QuantumShield/crypto/symmetric.py:13 | padded output has length 4·⌈n/3⌉, a multiple of 4 |
| Base64.EncodeAlphabet | QuantumShield/crypto/symmetric.py:13 | padded output holds alphabet digits, and `=` only after the digits |
| Base64.DecodeEncode | QuantumShield/crypto/symmetric.py:13-16 | b64decode(b64encode(x)) == x, through the non-strict decoder |
| Base64.StripPadding | QuantumShield/auth_server/token_service.py:11 | `rstrip(b"=")` of the padded encoding is exactly the unpadded digits |
| Base64.Encode | QuantumShield/crypto/symmetric.py:13 | the definition: the unpadded digits followed by the padding of the final group. Its properties are stated by EncodeLength, EncodeAlphabet and DecodeEncode |
| Base64.Unpadded | QuantumShield/auth_server/token_service.py:11 | the definition: the digits of each 3-byte group, a final group of one or two bytes giving two or three digits, with no `=`. UnpaddedDigits (⌈4n/3⌉ alphabet digits), UnpaddedRoundTrip and StripPadding state its properties |
| Base64.Padding | QuantumShield/crypto/symmetric.py:13 | the definition: `==` after a final group of one byte, `=` after two, nothing after a whole group. PaddedLength, EncodeLength and StripPadding state its properties |
| Base64.RStripPad | QuantumShield/auth_server/token_service.py:11 | the definition of `rstrip(b"=")`. StripPadding states what it does to an encoding |
| Base64.Scan | QuantumShield/crypto/symmetric.py:16 | the definition of CPython's non-strict `a2b_base64`, character by character: skip characters outside the alphabet; stop at an `=` that completes a group of two or three digits; skip any other `=`; fail unless the input ends on a group boundary |
| Base64.Decode | QuantumShield/crypto/symmetric.py:16 | the definition: a non-ASCII `str` is refused, otherwise Scan from the initial state. Its properties are stated by DecodeEncode and the Decode lemmas below |
| Base64.ScanQuad | QuantumShield/crypto/symmetric.py:16 | four digits on a group boundary are read as the three bytes their sextets carry, and decoding continues on a group boundary |
| Base64.ScanPadded | QuantumShield/crypto/symmetric.py:16 | two or three digits, then the `=` that complete their group, are read as the bytes they carry, and decoding stops there |
| Base64.ScanGroup | QuantumShield/crypto/symmetric.py:16 | the four digits of a whole 3-byte group are read back as that group, and decoding continues on a group boundary |
| Base64.ScanShortGroup | QuantumShield/crypto/symmetric.py:16 | a final group of one or two bytes with its padding is read back as that group, and whatever follows is ignored |
| Base64.ScanWholeGroups | QuantumShield/crypto/symmetric.py:13-16 | an encoding of a multiple of 3 bytes followed by `t` decodes to the input, and decoding goes on into `t` on a group boundary |
| Base64.ScanThroughPadding | QuantumShield/crypto/symmetric.py:13-16 | an encoding that ends in padding, followed by any `t`, decodes to the input, and `t` is ignored |
| Base64.ScanPadRun | QuantumShield/crypto/symmetric.py:16 | a run of `=` on a group boundary adds nothing |
| Base64.ScanSkipsForeign | QuantumShield/crypto/symmetric.py:16 | a character outside the alphabet and other than `=` is skipped in every decoder state |
| Base64.EncodeIsAscii | QuantumShield/crypto/symmetric.py:13 | base64 output is ASCII, so b64decode accepts it as a `str` |
| Base64.DecodeSkipsSurplusPadding | QuantumShield/crypto/symmetric.py:16 | b64decode(b64encode(x) + "=" * k) == x for every k |
| Base64.DecodeStopsAtPadding | QuantumShield/crypto/symmetric.py:16 | when the encoding ends in padding, any ASCII text after it is ignored |
| Base64.DecodeSkipsForeign | QuantumShield/crypto/symmetric.py:16 | an ASCII character outside the alphabet and other than `=` is discarded wherever it stands |
| Base64.DecodeRejectsNonAscii | QuantumShield/crypto/symmetric.py:16 | a `str` that holds a non-ASCII character is refused |
| Hex.ToHex | QuantumShield/auth_server/kemtls_server.py:18 | the definition of `bytes.hex()`: two digits per byte, high nibble first. HexShape and HexInjective state its properties |
| Hex.HexShape | QuantumShield/auth_server/kemtls_server.py:18 | `.hex()` of n bytes is 2n lower-case hex characters |
| Hex.HexInjective | QuantumShield/auth_server/kemtls_server.py:18 | distinct random bytes give distinct session ids |
| Hex.HexDigitInjective | QuantumShield/auth_server/kemtls_server.py:18 | distinct nibbles give distinct hex digits |
| Handshake.KemtlsHandshake.constructor | QuantumShield/kemtls/handshake.py:9-15 | each keypair is the output of its generator; the instance is valid |
| Handshake.KemtlsHandshake.ServerHello | QuantumShield/kemtls/handshake.py:17-24 | the hello publishes the generated KEM and signature public keys |
| Handshake.KemtlsHandshake.ClientEncapsulate | QuantumShield/kemtls/handshake.py:26-32 | the definition: a fresh KEM object encapsulates against the given key, with no server secret involved |
| Handshake.KemtlsHandshake.ServerDecapsulate | QuantumShield/kemtls/handshake.py:34-38 | the definition: decapsulation with the server's KEM secret key, None where it fails. DecapsulateRecoversSecret states its property |
| Handshake.KemtlsHandshake.AuthenticateServer | QuantumShield/kemtls/handshake.py:40-45 | the definition: the signature, under the handshake's own key, of the SHA-256 digest of the transcript |
| Handshake.KemtlsHandshake.VerifyServer | QuantumShield/kemtls/handshake.py:47-54 | the definition: verification of the signature over the SHA-256 digest under the given key. AuthenticationVerifies and SignatureDependsOnDigest state its properties |
| Handshake.DecapsulateRecoversSecret | QuantumShield/kemtls/handshake.py:26-38 | decapsulating the ciphertext of an encapsulation against the hello's KEM key gives that encapsulation's secret |
| Handshake.AuthenticationVerifies | QuantumShield/kemtls/handshake.py:40-54 | verify_server accepts authenticate_server(t) for t under the hello's signature key |
| Handshake.SignatureDependsOnDigest | QuantumShield/kemtls/handshake.py:40-54 | the signature and its verification see the transcript only through its SHA-256 digest |
| KemtlsServer.Server.constructor | QuantumShield/kemtls/kemtls_server.py:6-8 | the server owns a valid handshake and starts with no sessions |
| KemtlsServer.Server.StartHandshake | QuantumShield/kemtls/kemtls_server.py:10-14 | the hello is the handshake's long-term public keys |
| KemtlsServer.Server.CompleteHandshake | QuantumShield/kemtls/kemtls_server.py:16-30 | a failed decapsulation stores nothing. Otherwise it returns `(id, signature over the ciphertext)` and adds exactly one session under the new id, with the channel of the decapsulated secret; every earlier session is kept |
| KemtlsServer.Server.Send | QuantumShield/kemtls/kemtls_server.py:32-33 | an unknown id is SessionNotFound; otherwise the session channel's frame |
| KemtlsServer.Server.Receive | QuantumShield/kemtls/kemtls_server.py:35-36 | an unknown id is SessionNotFound; otherwise the session channel's decryption |
| KemtlsClient.Client.constructor | QuantumShield/kemtls/kemtls_client.py:6-8 | the client starts without a channel |
| KemtlsClient.Client.InitiateHandshake | QuantumShield/kemtls/kemtls_client.py:10-20 | ciphertext and secret are an encapsulation against the hello's KEM key; the transcript is the ciphertext; the signature key is passed back unchanged |
| KemtlsClient.Client.Finalize | QuantumShield/kemtls/kemtls_client.py:22-26 | the channel becomes the SecureChannel of the given secret |
| KemtlsClient.Client.Encrypt | QuantumShield/kemtls/kemtls_client.py:28-29 | before finalize the call fails; afterwards it returns the channel's frame |
| KemtlsClient.Client.Decrypt | QuantumShield/kemtls/kemtls_client.py:31-32 | before finalize the call fails; afterwards it returns the channel's decryption |
| KemtlsClient.ClientAndServerAgree | QuantumShield/kemtls/kemtls_client.py:10-26 | the handshake instance that issued the hello decapsulates to the client's secret, so both channels get the same key; this holds for any instance, since the signature is never checked |
| KemtlsClient.PeerDecrypts | QuantumShield/kemtls/kemtls_client.py:10-32 | the server's channel, built from the secret it decapsulates, decrypts every frame the client encrypts on the channel of its encapsulated secret |
| AuthKemtlsServer.Server.constructor | QuantumShield/auth_server/kemtls_server.py:8-11 | the KEM keypair is the generator's output; no sessions |
| AuthKemtlsServer.Server.GetServerPk | QuantumShield/auth_server/kemtls_server.py:13-14 | the public key generated at construction |
| AuthKemtlsServer.Server.CompleteHandshake | QuantumShield/auth_server/kemtls_server.py:16-20 | a failed decapsulation or a rejected key length stores nothing. Otherwise the id is the hex of the random bytes (16 lower-case hex characters) and `sessions[id]` is set, overwriting a colliding entry; the channel key is the truncated secret and the other sessions are kept |
| AuthKemtlsServer.Server.Encrypt | QuantumShield/auth_server/kemtls_server.py:22-23 | an unknown id is SessionNotFound; otherwise the session channel's base64 frame |
| AuthKemtlsServer.Server.Decrypt | QuantumShield/auth_server/kemtls_server.py:25-26 | an unknown id is SessionNotFound; otherwise the session channel's decryption |
| Text.Split | QuantumShield/auth_server/token_service.py:35 | a reader's inverse of the `.` join at line 35 (the code itself never splits), defined as Python's one-character `str.split`; it yields at least one part |
| Text.SplitWithoutSeparator | QuantumShield/auth_server/token_service.py:35 | for Split, the reader's inverse of the join: a string without the separator splits into itself |
| Text.SplitAtFirstSeparator | QuantumShield/auth_server/token_service.py:35 | for Split, the reader's inverse of the join: a separator-free prefix followed by the separator is the first part |
| Text.SplitCountsSeparators | QuantumShield/auth_server/token_service.py:35 | for Split, the reader's inverse of the join: a string splits into one more part than it has separators |
| Text.AsciiBytes | QuantumShield/auth_server/token_service.py:27-35 | ASCII `.encode()` gives one byte per character, with the character's code |
| Text.AsciiBytesConcat | QuantumShield/auth_server/token_service.py:30 | encoding distributes over concatenation |
| Text.Lower | QuantumShield/dashboard/risk.js:14 | `toLowerCase` keeps the length and maps each character |
| Text.Contains | QuantumShield/dashboard/risk.js:14 | the definition of `includes`: a search from the front. ContainsIsOccurrence states what it means |
| Text.ContainsIsOccurrence | QuantumShield/dashboard/risk.js:14 | `includes(t)` holds iff `t` occurs at some index |
| Json.DecimalNatPrintable | QuantumShield/auth_server/token_service.py:23-24 | integers serialize to printable characters |
| Json.EscapeCharPrintable | QuantumShield/auth_server/token_service.py:27-28 | with ensure_ascii every character escapes to printable ASCII |
| Json.EscapePrintable | QuantumShield/auth_server/token_service.py:27-28 | an escaped string is printable ASCII |
| Json.SerializePrintable | QuantumShield/auth_server/token_service.py:27-28 | a serialized value is printable ASCII |
| Json.SerializeObjectPrintable | QuantumShield/auth_server/token_service.py:27-28 | `json.dumps` of the header or payload dict is printable ASCII, so `.encode()` is one byte per character |
| Json.EscapePlain | QuantumShield/auth_server/token_service.py:14-21 | a printable string without `"` or `\` is written unchanged |
| Json.PrintableIsAscii | QuantumShield/auth_server/token_service.py:27-28 | printable text is ASCII |
| Json.EscapeChar | QuantumShield/auth_server/token_service.py:27-28 | the definition: `"`, `\` and the five control characters with short escapes are written escaped, printable ASCII as itself, anything else as `\uXXXX` (a surrogate pair above U+FFFF). EscapeCharPrintable and EscapePlain state its properties |
| Json.Escape | QuantumShield/auth_server/token_service.py:27-28 | the definition: each character escaped in turn. EscapePrintable and EscapePlain state its properties |
| Json.Quote | QuantumShield/auth_server/token_service.py:27-28 | the definition: a string value is its escaped text between double quotes. SerializePrintable states its property |
| Json.SerializeObject | QuantumShield/auth_server/token_service.py:27-28 | the definition: `{`, the members `"key": value` in insertion order separated by `, ` (json.dumps' default separators), `}`. SerializeObjectPrintable states its property |
| TokenService.NewTokenService | QuantumShield/auth_server/token_service.py:7-8 | the definition: the service binds the JWKS public key and signer |
| TokenService.B64Url | QuantumShield/auth_server/token_service.py:10-11 | the definition: URL-safe base64 with the trailing `=` stripped. B64UrlShape states its properties |
| TokenService.CreateIdToken | QuantumShield/auth_server/token_service.py:13-35 | the definition: the compact token over the header and the payload with iat = int(first reading) and exp = int(second reading) + 600. TokenLayout, ExpiryWindow and TokenParsesBack state its properties |
| TokenService.Trunc | QuantumShield/auth_server/token_service.py:23-24 | the definition: `int()` of a clock reading, truncating toward zero for negative readings too. ExpiryWindow states its property |
| TokenService.HeaderFields | QuantumShield/auth_server/token_service.py:14-17 | the definition: the header dict `alg: Dilithium3`, `typ: JWT` in that order. HeaderIsConstant and TokenParsesBack state its properties |
| TokenService.PayloadFields | QuantumShield/auth_server/token_service.py:19-25 | the definition: the claims iss = `auth`, sub, aud, iat, exp in the dict's order. ExpiryWindow and TokenParsesBack state its properties |
| TokenService.JsonBytes | QuantumShield/auth_server/token_service.py:27-28 | the definition: `json.dumps(obj).encode()`, one byte per character because the serialization is printable ASCII (Json.SerializeObjectPrintable). SegmentsAreDigits and TokenParsesBack state its properties |
| TokenService.SigningInput | QuantumShield/auth_server/token_service.py:30 | the definition: the ASCII bytes of `h`, a dot and `p`. CompactLayout states its properties |
| TokenService.Compact | QuantumShield/auth_server/token_service.py:27-35 | the definition: `h.p.s` with `h`, `p` the base64url header and payload and `s` the base64url signature over the signing input. CompactLayout, CompactSegments, CompactDecodes and CompactVerifies state its properties |
| TokenService.B64UrlShape | QuantumShield/auth_server/token_service.py:10-11 | `_b64url` is the unpadded base64url, ⌈4n/3⌉ URL-safe digits, and decodes back to its input |
| TokenService.DigitsAreAscii | QuantumShield/auth_server/token_service.py:30 | base64url segments are ASCII and contain no `.` |
| TokenService.SegmentsAreDigits | QuantumShield/auth_server/token_service.py:27-28 | header and payload segments are base64url digits |
| TokenService.CompactLayout | QuantumShield/auth_server/token_service.py:30-35 | `h.p.s` starts with the signing input and a dot, has exactly two dots and splits into `[h, p, s]`; the signing input is the bytes of `h`, 46 (`.`) and the bytes of `p` |
| TokenService.TokenLayout | QuantumShield/auth_server/token_service.py:13-35 | the token is the header segment, the payload segment and the base64url signature over `h + b"." + p`, with exactly two dots |
| TokenService.HeaderIsConstant | QuantumShield/auth_server/token_service.py:14-17 | the first segment is the same for every subject, audience and time |
| TokenService.ExpiryWindow | QuantumShield/auth_server/token_service.py:23-24 | exp is the second truncated reading plus 600 seconds; exactly iat + 600 when the two readings are equal, and at least iat + 600 under the lemma's hypothesis that the first reading is not later than the second, which `time.time()` does not guarantee |
| TokenService.CompactSegments | QuantumShield/auth_server/token_service.py:27-35 | a compact token splits into the two encoded segments and the encoded signature over them |
| TokenService.CompactDecodes | QuantumShield/auth_server/token_service.py:27-35 | the three segments decode to the header bytes, the payload bytes and the signature over the ASCII bytes of `h.p` |
| TokenService.CompactVerifies | QuantumShield/auth_server/token_service.py:30-35 | the third segment verifies under the signer's public key over the bytes of `h.p` |
| TokenService.TokenParsesBack | QuantumShield/auth_server/token_service.py:13-35 | a token read back gives the header JSON and the payload JSON with iat, exp = iat-clock + 600, and a signature that verifies under the JWKS public key |
| PolicyLoader.LoadPolicyFile | QuantumShield/policy/policy_loader.py:23-29 | the definition: the parsed object, or `{}` when reading or parsing failed. MissingFileGivesDefaults states what that gives |
| PolicyLoader.GetCryptoPolicy | QuantumShield/policy/policy_loader.py:32-45 | the loop's result is the merged policy of the loaded file (`{}` when loading failed) |
| PolicyLoader.MergedPrefixAt | QuantumShield/policy/policy_loader.py:41-43 | after visiting i keys, a key holds the file's string iff it was visited and the file has a string for it |
| PolicyLoader.MergedPrefixComplete | QuantumShield/policy/policy_loader.py:41-45 | visiting all default keys gives the merged policy |
| PolicyLoader.GetKem | QuantumShield/policy/policy_loader.py:48-50 | the `kem` entry of the active policy |
| PolicyLoader.GetSignature | QuantumShield/policy/policy_loader.py:53-55 | the `signature` entry of the active policy |
| PolicyLoader.GetHash | QuantumShield/policy/policy_loader.py:58-60 | the `hash` entry of the active policy |
| PolicyLoader.PolicyKeys | QuantumShield/policy/policy_loader.py:5-9 | the policy has exactly the keys kem, signature and hash |
| PolicyLoader.MissingFileGivesDefaults | QuantumShield/policy/policy_loader.py:23-29 | a missing or invalid file gives Kyber768, Dilithium3 and SHAKE256 |
| PolicyLoader.FileValueWins | QuantumShield/policy/policy_loader.py:41-43 | for a default key the file's value is taken when present and a string, the default is kept otherwise |
| PolicyLoader.UnknownKeysIgnored | QuantumShield/policy/policy_loader.py:41 | adding or removing a file entry outside the default keys changes nothing |
| Risk.CalculateRisk | QuantumShield/dashboard/risk.js:1-41 | the step-by-step score equals 50·transport + 25·KEM + 20·signature + 5·hash, lies in [0, 100] and is unchanged by the cap; the details are one line per check in order |
| Risk.ScoreBounds | QuantumShield/dashboard/risk.js:38 | the sum of weights is at most 100, and 100 only when every check passes |
| Risk.DetailsLength | QuantumShield/dashboard/risk.js:3-35 | three explanation lines without a hash, four with one |
| Risk.RiskLabel | QuantumShield/dashboard/risk.js:43-47 | the definition: 85 and above "Quantum-Safe", 60 and above "Transitional Security", lower "High Quantum Risk". LabelMonotone, QuantumSafeIff and TransitionalIff state its properties |
| Risk.LabelMonotone | QuantumShield/dashboard/risk.js:43-47 | a higher score never gets a worse label |
| Risk.QuantumSafeIff | QuantumShield/dashboard/risk.js:6-47 | "Quantum-Safe" iff KEMTLS transport, a Kyber KEM and a Dilithium or Falcon signature; the hash does not matter |
| Risk.TransitionalIff | QuantumShield/dashboard/risk.js:6-47 | "Transitional Security" iff KEMTLS transport and exactly one of the KEM and signature checks passes |
| Risk.NoKemtlsIsHighRisk | QuantumShield/dashboard/risk.js:6-47 | without KEMTLS transport the label is "High Quantum Risk" |
| Risk.TestsIgnoreCase | QuantumShield/dashboard/risk.js:14-24 | the KEM and signature tests give the same answer for names equal up to case |
| Scenarios.PingOverKemtls | QuantumShield/kemtls/kemtls_server.py:10-36 | hello, initiate, complete, finalize, encrypt any message and receive: the server recovers exactly that message |
| Scenarios.PingOverAuthServer | QuantumShield/auth_server/kemtls_server.py:13-26 | get the public key, encapsulate, complete the handshake, and the server's decrypt on the session id recovers exactly the message the client encrypted |
| Scenarios.TokenAndHandshakeKeys | QuantumShield/auth_server/jwks.py:8-11 | with the JWKS keypair and the handshake keypair made from separate coins, the token verifies under the JWKS key and the hello publishes the handshake key |
| Scenarios.KeyDerivationsDiffer | QuantumShield/crypto/symmetric.py:7 | for a 32-byte secret the symmetric key is the secret and the KEMTLS key its SHA-256; they agree iff the secret is a fixed point of SHA-256 |
| Scenarios.AuthSessionRoundTrip | QuantumShield/auth_server/kemtls_server.py:22-26 | `decrypt(sid, encrypt(sid, m)) == m` for every message on a known session id; an unknown id gives SessionNotFound |
| Scenarios.KemtlsSessionRoundTrip | QuantumShield/kemtls/kemtls_server.py:32-36 | `receive(sid, send(sid, m)) == m` for every message on a known session id; an unknown id gives SessionNotFound |

## Left out

- Cryptographic primitives: the internals of liboqs Kyber768 and Dilithium3, AES-GCM and SHA-256 are foreign library calls. They are function parameters constrained only by correctness predicates. Constant-time behaviour and side channels are not expressible.
- Tampering: a changed bit making decryption fail cannot be derived from an abstract AEAD with correctness only, so no integrity lemma is stated.
- `os.urandom`, `time.time()` and `id()` are parameters. The clock is read as an unbounded `real`, not an IEEE double.
- Base64.Decode: `binascii.Error` and the ValueError raised for a non-ASCII `str` are both MalformedBase64; the model does not tell them apart.
- Channel.Decrypt and Symmetric.Decrypt: a frame, or decoded text, shorter than 8 bytes gives a nonce that AESGCM.decrypt refuses with ValueError rather than InvalidTag. The model passes the short nonce to the abstract `open` and reports AuthenticationFailure for both.
- Text.Lower: JavaScript `toLowerCase` is modelled for ASCII letters only; other characters are unchanged.
- PolicyLoader.GetCryptoPolicy: the file read and `json.load` are abstracted to an optional object. A file that parses to any non-object JSON value is not modelled. For a number, `true` or `null`, the test `key in file_policy` at policy/policy_loader.py:42 raises TypeError. For a list or a string, it raises only when the value contains the key; otherwise the defaults are returned.
- `DEFAULT_POLICY` is never changed by the merge: Dafny maps are values, so this holds by construction and has no lemma.
- Risk.CalculateRisk: state fields are optional strings. A non-string field value and JavaScript's loose truthiness of other types are not modelled.
- Concurrency: no locking, parallel handshakes or racing dictionary updates. Every operation is a single atomic step.
- Token verification and expiry checking: the code never performs them, so no lemma claims that a token is checked. TokenService.TokenParsesBack states only that the signature would verify under the JWKS key pair that made it.
- The Flask endpoints (auth_server/auth_server.py), the HTTP client (client/kemtls_client.py, used only as the client side of Scenarios.PingOverAuthServer), auditing, metrics, dashboards and the web demo are not part of this model.
- Removal and expiry of sessions: the code offers none.
