/**
 * The record layer of crypto/symmetric.py: a SymmetricChannel keyed by the first 32 bytes of
 * the shared secret (truncated, not hashed). A frame is `nonce(12) ‖ AES-GCM output`, carried
 * as padded standard base64 (section 4 of RFC 4648). The nonce is a parameter.
 */
module Symmetric {
  import opened Common
  import opened Primitives
  import Base64

  const NonceLength: nat := 12

  datatype SymmetricChannel = SymmetricChannel(key: Bytes)

  /** AESGCM accepts 128-, 192- and 256-bit keys only. */
  predicate ValidAesKeyLength(n: nat)
  {
    n == 16 || n == 24 || n == 32
  }

  /**
   * SymmetricChannel(key): keeps `key[:32]`; constructing AESGCM over it raises ValueError
   * unless that slice is 16, 24 or 32 bytes long.
   */
  function NewSymmetricChannel(key: Bytes): (r: Result<SymmetricChannel>)
    ensures r.Ok? <==> ValidAesKeyLength(Min(32, |key|))
    ensures r.Ok? ==> r.value.key == key[..Min(32, |key|)]
    ensures r.Err? ==> r.error == InvalidKeyLength
  {
    var k := key[..Min(32, |key|)];
    if ValidAesKeyLength(|k|) then Ok(SymmetricChannel(k)) else Err(InvalidKeyLength)
  }

  /** encrypt: base64 of the nonce followed by the AEAD output, without associated data. */
  function Encrypt(aead: Aead, ch: SymmetricChannel, nonce: Nonce, plaintext: Bytes): string
  {
    Base64.Encode(Base64.Standard, nonce + aead.seal(ch.key, nonce, plaintext, None))
  }

  /** decrypt: base64-decode, then the first 12 bytes are the nonce and the rest the ciphertext. */
  function Decrypt(aead: Aead, ch: SymmetricChannel, text: string): Result<Bytes>
  {
    match Base64.Decode(text)
    case None => Err(MalformedBase64)
    case Some(raw) =>
      var cut := Min(NonceLength, |raw|);
      match aead.open(ch.key, raw[..cut], raw[cut..], None)
      case None => Err(AuthenticationFailure)
      case Some(p) => Ok(p)
  }

  /** A 32-byte secret (a Kyber768 shared secret) is used as the key unchanged; a longer one is cut to 32 bytes. */
  lemma KeyIsTruncatedSecret(secret: Bytes)
    requires |secret| >= 32
    ensures NewSymmetricChannel(secret) == Ok(SymmetricChannel(secret[..32]))
    ensures |secret| == 32 ==> NewSymmetricChannel(secret) == Ok(SymmetricChannel(secret))
  {
    assert |secret| == 32 ==> secret[..32] == secret;
  }

  /** The output is padded base64: only `A-Z a-z 0-9 + / =`, a multiple of 4 long, 4·⌈n/3⌉ for an n-byte frame. */
  lemma EncryptIsBase64(aead: Aead, ch: SymmetricChannel, nonce: Nonce, plaintext: Bytes)
    ensures var text := Encrypt(aead, ch, nonce, plaintext);
      var n := NonceLength + |aead.seal(ch.key, nonce, plaintext, None)|;
      && |text| % 4 == 0
      && |text| == 4 * ((n + 2) / 3)
      && forall j :: 0 <= j < |text| ==> Base64.IsDigit(Base64.Standard, text[j]) || text[j] == '='
  {
    var frame := nonce + aead.seal(ch.key, nonce, plaintext, None);
    Base64.EncodeLength(Base64.Standard, frame);
    Base64.EncodeAlphabet(Base64.Standard, frame);
  }

  /** With the 16-byte AES-GCM tag the text is 4·⌈(|p| + 28)/3⌉ characters. */
  lemma EncryptLength(aead: Aead, ch: SymmetricChannel, nonce: Nonce, plaintext: Bytes)
    requires AeadTagLength(aead, 16)
    ensures |Encrypt(aead, ch, nonce, plaintext)| == 4 * ((|plaintext| + 28 + 2) / 3)
  {
    EncryptIsBase64(aead, ch, nonce, plaintext);
  }

  /** Decrypt undoes the base64 and the concatenation: nonce and ciphertext reach the AEAD unchanged. */
  lemma DecryptSplitsFrame(aead: Aead, ch: SymmetricChannel, nonce: Nonce, ct: Bytes)
    ensures Decrypt(aead, ch, Base64.Encode(Base64.Standard, nonce + ct))
      == (match aead.open(ch.key, nonce, ct, None) case None => Err(AuthenticationFailure) case Some(p) => Ok(p))
  {
    Base64.DecodeEncode(nonce + ct);
    assert (nonce + ct)[..NonceLength] == nonce;
    assert (nonce + ct)[NonceLength..] == ct;
  }

  /** decrypt(encrypt(p)) == p for every nonce, by base64 round trip and AEAD correctness. */
  lemma DecryptEncrypt(aead: Aead, ch: SymmetricChannel, nonce: Nonce, plaintext: Bytes)
    requires AeadCorrect(aead)
    ensures Decrypt(aead, ch, Encrypt(aead, ch, nonce, plaintext)) == Ok(plaintext)
  {
    DecryptSplitsFrame(aead, ch, nonce, aead.seal(ch.key, nonce, plaintext, None));
  }

  /** b64decode skips `=` beyond the padding, so a frame followed by surplus `=` still decrypts. */
  lemma DecryptSkipsSurplusPadding(aead: Aead, ch: SymmetricChannel, nonce: Nonce, plaintext: Bytes, pad: string)
    requires AeadCorrect(aead)
    requires forall j :: 0 <= j < |pad| ==> pad[j] == '='
    ensures Decrypt(aead, ch, Encrypt(aead, ch, nonce, plaintext) + pad) == Ok(plaintext)
  {
    var ct := aead.seal(ch.key, nonce, plaintext, None);
    Base64.DecodeSkipsSurplusPadding(nonce + ct, pad);
    assert (nonce + ct)[..NonceLength] == nonce;
    assert (nonce + ct)[NonceLength..] == ct;
  }

  /**
   * b64decode stops at the padding: when the frame length is not a multiple of 3, any ASCII text
   * appended to its base64 is ignored.
   */
  lemma DecryptStopsAtPadding(aead: Aead, ch: SymmetricChannel, nonce: Nonce, plaintext: Bytes, t: string)
    requires AeadCorrect(aead)
    requires (NonceLength + |aead.seal(ch.key, nonce, plaintext, None)|) % 3 != 0
    requires Base64.IsAsciiText(t)
    ensures Decrypt(aead, ch, Encrypt(aead, ch, nonce, plaintext) + t) == Ok(plaintext)
  {
    var ct := aead.seal(ch.key, nonce, plaintext, None);
    Base64.DecodeStopsAtPadding(nonce + ct, t);
    assert (nonce + ct)[..NonceLength] == nonce;
    assert (nonce + ct)[NonceLength..] == ct;
  }

  /** b64decode discards an ASCII character outside the alphabet, such as a line break, wherever it stands. */
  lemma DecryptIgnoresForeign(aead: Aead, ch: SymmetricChannel, x: string, c: char, y: string)
    requires c as int < 128 && c != '=' && !Base64.IsDigit(Base64.Standard, c)
    ensures Decrypt(aead, ch, x + [c] + y) == Decrypt(aead, ch, x + y)
  {
    Base64.DecodeSkipsForeign(x, c, y);
  }
}
