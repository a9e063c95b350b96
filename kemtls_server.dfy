/**
 * kemtls/kemtls_server.py: a server holding one KemtlsHandshake and a `sessions` dictionary
 * from session id to SecureChannel. The session id is `id(channel)`, the address CPython gives
 * the freshly built channel object; it is supplied as the parameter `channelId`. Because every
 * stored channel is still referenced by the dictionary, CPython never hands a new object the
 * id of a stored one, which is what the precondition of CompleteHandshake states.
 */
module KemtlsServer {
  import opened Common
  import opened Primitives
  import opened Channel
  import opened Handshake

  class Server {
    const handshake: KemtlsHandshake
    /** AESGCM, the AEAD every SecureChannel of this server uses. */
    const aead: Aead
    var sessions: map<int, SecureChannel>

    constructor (kem: Kem, sig: SigScheme, sha256: Hash, aead: Aead, kemCoins: Bytes, sigCoins: Bytes)
      ensures handshake.Valid() && handshake.kem == kem && handshake.sig == sig && handshake.sha256 == sha256
      ensures handshake.kemCoins == kemCoins && handshake.sigCoins == sigCoins
      ensures this.aead == aead
      ensures sessions == map[]
    {
      handshake := new KemtlsHandshake(kem, sig, sha256, kemCoins, sigCoins);
      this.aead := aead;
      sessions := map[];
    }

    /** start_handshake: exactly the handshake's server hello, the long-term public keys; sessions is not read or written. */
    function StartHandshake(): (hello: Hello)
      requires handshake.Valid()
      ensures hello == Hello(handshake.serverPk, handshake.sigPk)
      ensures hello.kemPk == handshake.kem.keygen(handshake.kemCoins).pk
    {
      handshake.ServerHello()
    }

    /**
     * complete_handshake: decapsulate first; on failure nothing is stored. On success the
     * transcript is the ciphertext itself, it is signed, and exactly one session, keyed by the
     * new channel's id, is added while every earlier session keeps its channel.
     */
    method CompleteHandshake(clientCt: Bytes, channelId: int) returns (r: Result<(int, Bytes)>)
      requires Sha256Length(handshake.sha256)
      requires channelId !in sessions
      modifies this
      ensures handshake.ServerDecapsulate(clientCt).None? ==>
        r == Err(DecapsulationError) && sessions == old(sessions)
      ensures handshake.ServerDecapsulate(clientCt).Some? ==>
        var secret := handshake.ServerDecapsulate(clientCt).value;
        && r == Ok((channelId, handshake.AuthenticateServer(clientCt)))
        && sessions == old(sessions)[channelId := NewSecureChannel(handshake.sha256, secret)]
        && sessions.Keys == old(sessions).Keys + {channelId}
        && |sessions| == |old(sessions)| + 1
        && (forall id :: id in old(sessions) ==> sessions[id] == old(sessions)[id])
    {
      var decapsulated := handshake.ServerDecapsulate(clientCt);
      if decapsulated.None? {
        return Err(DecapsulationError);
      }
      var sharedSecret := decapsulated.value;
      var transcript := clientCt;
      var signature := handshake.AuthenticateServer(transcript);
      var channel := NewSecureChannel(handshake.sha256, sharedSecret);
      var sessionId := channelId;
      sessions := sessions[sessionId := channel];
      r := Ok((sessionId, signature));
    }

    /** send: encrypt on the session's channel; an unknown id raises KeyError. */
    method Send(sessionId: int, nonce: Nonce, plaintext: Bytes) returns (r: Result<Bytes>)
      ensures sessionId !in sessions ==> r == Err(SessionNotFound)
      ensures sessionId in sessions ==> r == Ok(Encrypt(aead, sessions[sessionId], nonce, plaintext))
    {
      if sessionId !in sessions {
        return Err(SessionNotFound);
      }
      r := Ok(Encrypt(aead, sessions[sessionId], nonce, plaintext));
    }

    /** receive: decrypt on the session's channel; an unknown id raises KeyError. */
    method Receive(sessionId: int, frame: Bytes) returns (r: Result<Bytes>)
      ensures sessionId !in sessions ==> r == Err(SessionNotFound)
      ensures sessionId in sessions ==> r == Decrypt(aead, sessions[sessionId], frame)
    {
      if sessionId !in sessions {
        return Err(SessionNotFound);
      }
      r := Decrypt(aead, sessions[sessionId], frame);
    }
  }
}
