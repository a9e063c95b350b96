/**
 * kemtls/kemtls_client.py: a client that owns a KemtlsHandshake of its own (its keypairs are
 * never used), encapsulates against the server hello's KEM key and, once `finalize` is called,
 * holds a SecureChannel. The client never calls verify_server: the signature the server returns
 * is not an input to anything here, so a hello from any party is accepted.
 */
module KemtlsClient {
  import opened Common
  import opened Primitives
  import opened Channel
  import opened Handshake

  /** The tuple `(ct, shared_secret, transcript, server_sig_pk)` returned by initiate_handshake. */
  datatype ClientHandshake = ClientHandshake(ct: Bytes, sharedSecret: Bytes, transcript: Bytes, serverSigPk: Bytes)

  class Client {
    const handshake: KemtlsHandshake
    const aead: Aead
    /** None until finalize is called. */
    var channel: Option<SecureChannel>

    constructor (kem: Kem, sig: SigScheme, sha256: Hash, aead: Aead, kemCoins: Bytes, sigCoins: Bytes)
      ensures handshake.Valid() && handshake.kem == kem && handshake.sig == sig && handshake.sha256 == sha256
      ensures this.aead == aead
      ensures channel == None
    {
      handshake := new KemtlsHandshake(kem, sig, sha256, kemCoins, sigCoins);
      this.aead := aead;
      channel := None;
    }

    /**
     * initiate_handshake: encapsulates against `server_hello["kem_pk"]`; the transcript is the
     * ciphertext and the signature key is passed back unchanged. It reads no mutable state, so
     * `channel` stays as it was.
     */
    function InitiateHandshake(hello: Hello, coins: Bytes): (r: ClientHandshake)
      ensures (r.ct, r.sharedSecret) == handshake.kem.encaps(hello.kemPk, coins)
      ensures r.transcript == r.ct
      ensures r.serverSigPk == hello.sigPk
    {
      var (ct, sharedSecret) := KemtlsHandshake.ClientEncapsulate(handshake.kem, hello.kemPk, coins);
      var transcript := ct;
      ClientHandshake(ct, sharedSecret, transcript, hello.sigPk)
    }

    /** finalize: the only operation that sets the channel. */
    method Finalize(sharedSecret: Bytes)
      requires Sha256Length(handshake.sha256)
      modifies this
      ensures channel == Some(NewSecureChannel(handshake.sha256, sharedSecret))
    {
      channel := Some(NewSecureChannel(handshake.sha256, sharedSecret));
    }

    /** encrypt: delegates to the channel; before finalize `self.channel` is None and the call raises. */
    method Encrypt(nonce: Nonce, plaintext: Bytes) returns (r: Result<Bytes>)
      ensures channel.None? ==> r == Err(ChannelNotEstablished)
      ensures channel.Some? ==> r == Ok(Channel.Encrypt(aead, channel.value, nonce, plaintext))
    {
      if channel.None? {
        return Err(ChannelNotEstablished);
      }
      r := Ok(Channel.Encrypt(aead, channel.value, nonce, plaintext));
    }

    /** decrypt: delegates to the channel; before finalize the call raises. */
    method Decrypt(frame: Bytes) returns (r: Result<Bytes>)
      ensures channel.None? ==> r == Err(ChannelNotEstablished)
      ensures channel.Some? ==> r == Channel.Decrypt(aead, channel.value, frame)
    {
      if channel.None? {
        return Err(ChannelNotEstablished);
      }
      r := Channel.Decrypt(aead, channel.value, frame);
    }
  }

  /**
   * With a server's hello, that server decapsulates the client's ciphertext to the client's
   * secret, so the channel the client finalizes has the key of the channel the server stores.
   * `server` is any handshake instance: since the client checks no signature, the same holds
   * for a party that answers with a hello of its own.
   */
  lemma ClientAndServerAgree(c: Client, server: KemtlsHandshake, coins: Bytes)
    requires server.Valid() && KemCorrect(server.kem) && c.handshake.kem == server.kem
    requires Sha256Length(server.sha256) && c.handshake.sha256 == server.sha256
    ensures var hs := c.InitiateHandshake(server.ServerHello(), coins);
      && server.ServerDecapsulate(hs.ct) == Some(hs.sharedSecret)
      && NewSecureChannel(c.handshake.sha256, hs.sharedSecret)
         == NewSecureChannel(server.sha256, server.ServerDecapsulate(hs.ct).value)
  {
    DecapsulateRecoversSecret(server, coins);
  }

  /**
   * The server's channel, built from the secret it decapsulates, decrypts every frame the client
   * encrypts on the channel built from its encapsulated secret.
   */
  lemma PeerDecrypts(c: Client, server: KemtlsHandshake, coins: Bytes, aead: Aead, nonce: Nonce, plaintext: Bytes)
    requires server.Valid() && KemCorrect(server.kem) && c.handshake.kem == server.kem
    requires Sha256Length(server.sha256) && c.handshake.sha256 == server.sha256 && AeadCorrect(aead)
    ensures var hs := c.InitiateHandshake(server.ServerHello(), coins);
      && server.ServerDecapsulate(hs.ct).Some?
      && Decrypt(aead, NewSecureChannel(server.sha256, server.ServerDecapsulate(hs.ct).value),
                 Encrypt(aead, NewSecureChannel(c.handshake.sha256, hs.sharedSecret), nonce, plaintext))
         == Ok(plaintext)
  {
    ClientAndServerAgree(c, server, coins);
    var hs := c.InitiateHandshake(server.ServerHello(), coins);
    DecryptEncrypt(aead, NewSecureChannel(c.handshake.sha256, hs.sharedSecret), nonce, plaintext);
  }
}
