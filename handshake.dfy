/**
 * kemtls/handshake.py: the server's long-term KEM and signature keypairs, generated once in the
 * constructor, the server hello that publishes the public halves, client encapsulation,
 * server decapsulation, and transcript authentication by a signature over SHA-256 of the
 * transcript. The coins consumed by key generation are parameters.
 */
module Handshake {
  import opened Common
  import opened Primitives

  /** The dictionary `{"kem_pk": ..., "sig_pk": ...}` returned by server_hello. */
  datatype Hello = Hello(kemPk: Bytes, sigPk: Bytes)

  class KemtlsHandshake {
    const kem: Kem
    const sig: SigScheme
    const sha256: Hash
    const serverPk: Bytes
    /** The KEM secret key, which the liboqs object keeps internally. */
    const kemSk: Bytes
    const sigPk: Bytes
    /** The signature secret key, kept inside the liboqs Signature object. */
    const sigSk: Bytes
    ghost const kemCoins: Bytes
    ghost const sigCoins: Bytes

    /** Both keypairs are the ones their generators produced. */
    ghost predicate Valid()
    {
      && Keypair(serverPk, kemSk) == kem.keygen(kemCoins)
      && Keypair(sigPk, sigSk) == sig.keygen(sigCoins)
    }

    /** __init__: each keypair is generated exactly once, and the fields are never reassigned (const). */
    constructor (kem: Kem, sig: SigScheme, sha256: Hash, kemCoins: Bytes, sigCoins: Bytes)
      ensures Valid()
      ensures this.kem == kem && this.sig == sig && this.sha256 == sha256
      ensures this.kemCoins == kemCoins && this.sigCoins == sigCoins
      ensures serverPk == kem.keygen(kemCoins).pk && sigPk == sig.keygen(sigCoins).pk
    {
      this.kem := kem;
      this.sig := sig;
      this.sha256 := sha256;
      this.kemCoins := kemCoins;
      this.sigCoins := sigCoins;
      var kemKeys := kem.keygen(kemCoins);
      this.serverPk := kemKeys.pk;
      this.kemSk := kemKeys.sk;
      var sigKeys := sig.keygen(sigCoins);
      this.sigPk := sigKeys.pk;
      this.sigSk := sigKeys.sk;
    }

    /** server_hello: a read of the two public keys; it changes nothing. */
    function ServerHello(): (hello: Hello)
      requires Valid()
      ensures hello.kemPk == kem.keygen(kemCoins).pk && hello.sigPk == sig.keygen(sigCoins).pk
    {
      Hello(serverPk, sigPk)
    }

    /** client_encapsulate: a fresh KEM object encapsulates against the given key; no server secret is used. */
    static function ClientEncapsulate(kem: Kem, serverKemPk: Bytes, coins: Bytes): (Bytes, Bytes)
    {
      kem.encaps(serverKemPk, coins)
    }

    /** server_decapsulate: None where decap_secret fails. */
    function ServerDecapsulate(ciphertext: Bytes): Option<Bytes>
    {
      kem.decaps(kemSk, ciphertext)
    }

    /** authenticate_server: signs the SHA-256 digest of the transcript. */
    function AuthenticateServer(transcript: Bytes): Bytes
    {
      sig.sign(sigSk, sha256(transcript))
    }

    /** verify_server (static): verifies the signature over SHA-256 of the transcript. */
    static function VerifyServer(sig: SigScheme, sha256: Hash, sigPk: Bytes, signature: Bytes, transcript: Bytes): bool
    {
      sig.verify(sigPk, sha256(transcript), signature)
    }
  }

  /** Decapsulating the ciphertext of an encapsulation against server_pk returns that encapsulation's secret. */
  lemma DecapsulateRecoversSecret(h: KemtlsHandshake, coins: Bytes)
    requires h.Valid() && KemCorrect(h.kem)
    ensures var (ct, ss) := KemtlsHandshake.ClientEncapsulate(h.kem, h.ServerHello().kemPk, coins);
      h.ServerDecapsulate(ct) == Some(ss)
  {
    var keys := h.kem.keygen(h.kemCoins);
    assert h.kem.decaps(keys.sk, h.kem.encaps(keys.pk, coins).0) == Some(h.kem.encaps(keys.pk, coins).1);
  }

  /** verify_server(sig_pk, authenticate_server(t), t) holds for this instance's sig_pk. */
  lemma AuthenticationVerifies(h: KemtlsHandshake, transcript: Bytes)
    requires h.Valid() && SigCorrect(h.sig)
    ensures KemtlsHandshake.VerifyServer(h.sig, h.sha256, h.ServerHello().sigPk, h.AuthenticateServer(transcript), transcript)
  {
    var keys := h.sig.keygen(h.sigCoins);
    var digest := h.sha256(transcript);
    assert h.sig.verify(keys.pk, digest, h.sig.sign(keys.sk, digest));
  }

  /** The signature depends on the transcript only through its digest: the digest is signed, not the raw bytes. */
  lemma SignatureDependsOnDigest(h: KemtlsHandshake, t1: Bytes, t2: Bytes)
    requires h.sha256(t1) == h.sha256(t2)
    ensures h.AuthenticateServer(t1) == h.AuthenticateServer(t2)
    ensures KemtlsHandshake.VerifyServer(h.sig, h.sha256, h.sigPk, h.AuthenticateServer(t1), t2)
         == KemtlsHandshake.VerifyServer(h.sig, h.sha256, h.sigPk, h.AuthenticateServer(t1), t1)
  {
  }
}
