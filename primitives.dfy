/**
 * The cryptographic capabilities the core calls into (liboqs Kyber768 and Dilithium3,
 * AES-GCM and SHA-256 from Python's libraries). Their internals are not modelled: each is a
 * record of functions, and the only facts the model uses about them are the correctness
 * properties below, which lemmas take as hypotheses.
 */
module Primitives {
  import opened Common

  /** A public key and the secret part that the library object keeps inside itself. */
  datatype Keypair = Keypair(pk: Bytes, sk: Bytes)

  /** The digest function (hashlib.sha256(x).digest()). */
  type Hash = Bytes -> Bytes

  /** A 96-bit AES-GCM nonce, as drawn by os.urandom(12). */
  type Nonce = s: Bytes | |s| == 12 witness [0, 0, 0, 0, 0, 0, 0, 0, 0, 0, 0, 0]

  /**
   * AES-GCM: `seal(key, nonce, plaintext, aad)` returns ciphertext with its tag appended;
   * `open(key, nonce, data, aad)` returns None where the library raises InvalidTag.
   */
  datatype Aead = Aead(
    seal: (Bytes, Bytes, Bytes, Option<Bytes>) -> Bytes,
    open: (Bytes, Bytes, Bytes, Option<Bytes>) -> Option<Bytes>)

  /**
   * A KEM: `keygen(coins)` as generate_keypair, `encaps(pk, coins)` returns (ciphertext, secret)
   * as encap_secret, `decaps(sk, ct)` returns None where decap_secret fails.
   */
  datatype Kem = Kem(
    keygen: Bytes -> Keypair,
    encaps: (Bytes, Bytes) -> (Bytes, Bytes),
    decaps: (Bytes, Bytes) -> Option<Bytes>)

  /** A signature scheme: `sign(sk, message)` and `verify(pk, message, signature)`. */
  datatype SigScheme = SigScheme(
    keygen: Bytes -> Keypair,
    sign: (Bytes, Bytes) -> Bytes,
    verify: (Bytes, Bytes, Bytes) -> bool)

  /** SHA-256 digests are 32 bytes long. */
  ghost predicate Sha256Length(h: Hash)
  {
    forall x :: |h(x)| == 32
  }

  /** AEAD correctness: opening what was sealed under the same key, nonce and aad gives the plaintext. */
  ghost predicate AeadCorrect(a: Aead)
  {
    forall k, n, p, ad :: a.open(k, n, a.seal(k, n, p, ad), ad) == Some(p)
  }

  /** The AEAD output is the plaintext length plus a `t`-byte tag (16 for AES-GCM, NIST SP 800-38D). */
  ghost predicate AeadTagLength(a: Aead, t: nat)
  {
    forall k, n, p, ad :: |a.seal(k, n, p, ad)| == |p| + t
  }

  /** KEM correctness: decapsulating with the secret key recovers the encapsulated secret. */
  ghost predicate KemCorrect(kem: Kem)
  {
    forall seed, coins ::
      kem.decaps(kem.keygen(seed).sk, kem.encaps(kem.keygen(seed).pk, coins).0)
        == Some(kem.encaps(kem.keygen(seed).pk, coins).1)
  }

  /** Signature correctness: a signature made with a generated secret key verifies under its public key. */
  ghost predicate SigCorrect(s: SigScheme)
  {
    forall seed, m :: s.verify(s.keygen(seed).pk, m, s.sign(s.keygen(seed).sk, m))
  }
}
