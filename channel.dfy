/**
 * The record layer of kemtls/channel.py: a SecureChannel keyed by SHA-256 of the KEM shared
 * secret. A frame is the 12-byte nonce followed by the AES-GCM output (ciphertext and tag);
 * no associated data is passed. The nonce, drawn by os.urandom(12) in the source, is a parameter.
 */
module Channel {
  import opened Common
  import opened Primitives

  const NonceLength: nat := 12

  datatype SecureChannel = SecureChannel(key: Bytes)

  /** SecureChannel(shared_secret): the key is the SHA-256 digest of the secret. */
  function NewSecureChannel(sha256: Hash, sharedSecret: Bytes): (ch: SecureChannel)
    requires Sha256Length(sha256)
    ensures |ch.key| == 32
  {
    SecureChannel(sha256(sharedSecret))
  }

  /** encrypt: the frame starts with the nonce of this call and continues with the AEAD output. */
  function Encrypt(aead: Aead, ch: SecureChannel, nonce: Nonce, plaintext: Bytes): (frame: Bytes)
    ensures |frame| >= NonceLength && frame[..NonceLength] == nonce
    ensures frame[NonceLength..] == aead.seal(ch.key, nonce, plaintext, None)
  {
    nonce + aead.seal(ch.key, nonce, plaintext, None)
  }

  /**
   * decrypt: `data[:12]` is the nonce and `data[12:]` the ciphertext (Python slicing, so a
   * frame shorter than 12 bytes gives a short nonce and an empty ciphertext).
   */
  function Decrypt(aead: Aead, ch: SecureChannel, frame: Bytes): Result<Bytes>
  {
    var cut := Min(NonceLength, |frame|);
    match aead.open(ch.key, frame[..cut], frame[cut..], None)
    case None => Err(AuthenticationFailure)
    case Some(p) => Ok(p)
  }

  /** Equal secrets give equal channels; the key is 32 bytes. */
  lemma KeyDerivation(sha256: Hash, s1: Bytes, s2: Bytes)
    requires Sha256Length(sha256)
    ensures |NewSecureChannel(sha256, s1).key| == 32
    ensures NewSecureChannel(sha256, s1) == NewSecureChannel(sha256, s2) <== s1 == s2
    ensures NewSecureChannel(sha256, s1).key == sha256(s1)
  {
  }

  /** Decrypt splits a frame exactly where Encrypt joined it: nonce and ciphertext go to the AEAD unchanged. */
  lemma DecryptSplitsFrame(aead: Aead, ch: SecureChannel, nonce: Nonce, ct: Bytes)
    ensures Decrypt(aead, ch, nonce + ct)
      == (match aead.open(ch.key, nonce, ct, None) case None => Err(AuthenticationFailure) case Some(p) => Ok(p))
  {
    assert (nonce + ct)[..NonceLength] == nonce;
    assert (nonce + ct)[NonceLength..] == ct;
  }

  /** decrypt(encrypt(p)) == p for every nonce, by AEAD correctness. */
  lemma DecryptEncrypt(aead: Aead, ch: SecureChannel, nonce: Nonce, plaintext: Bytes)
    requires AeadCorrect(aead)
    ensures Decrypt(aead, ch, Encrypt(aead, ch, nonce, plaintext)) == Ok(plaintext)
  {
    DecryptSplitsFrame(aead, ch, nonce, aead.seal(ch.key, nonce, plaintext, None));
  }

  /** With a 16-byte tag the frame is 12 + |p| + 16 bytes long. */
  lemma EncryptLength(aead: Aead, ch: SecureChannel, nonce: Nonce, plaintext: Bytes)
    requires AeadTagLength(aead, 16)
    ensures |Encrypt(aead, ch, nonce, plaintext)| == NonceLength + |plaintext| + 16
  {
  }
}
