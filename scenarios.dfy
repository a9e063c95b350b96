/**
 * The end-to-end exchange the two servers are built for: the client obtains the server's public
 * key, encapsulates, sends the ciphertext, the server decapsulates and returns a session id, the
 * client sends a message encrypted on its channel, and the server decrypts exactly that message.
 * The coins, nonces, session-id bytes and `id()` are parameters.
 */
module Scenarios {
  import opened Common
  import opened Primitives
  import Channel
  import Symmetric
  import opened Handshake
  import KemtlsServer
  import KemtlsClient
  import AuthKemtlsServer
  import TokenService
  import Base64
  import opened Text

  /**
   * kemtls/: server and client each build a KEMTLSHandshake; the client initiates with the
   * server's hello, the server completes on the ciphertext, the client finalizes on its secret,
   * and the server receives what the client encrypted.
   */
  method PingOverKemtls(kem: Kem, sig: SigScheme, sha256: Hash, aead: Aead,
                        serverCoins: (Bytes, Bytes), clientCoins: (Bytes, Bytes),
                        encapsCoins: Bytes, channelId: int, nonce: Nonce, message: Bytes)
    returns (received: Result<Bytes>)
    requires KemCorrect(kem) && Sha256Length(sha256) && AeadCorrect(aead)
    ensures received == Ok(message)
  {
    var server := new KemtlsServer.Server(kem, sig, sha256, aead, serverCoins.0, serverCoins.1);
    var client := new KemtlsClient.Client(kem, sig, sha256, aead, clientCoins.0, clientCoins.1);
    var hello := server.StartHandshake();
    var hs := client.InitiateHandshake(hello, encapsCoins);
    KemtlsClient.ClientAndServerAgree(client, server.handshake, encapsCoins);
    var completed := server.CompleteHandshake(hs.ct, channelId);
    assert completed.Ok?;
    var sessionId := completed.value.0;
    client.Finalize(hs.sharedSecret);
    var frame := client.Encrypt(nonce, message);
    Channel.DecryptEncrypt(aead, client.channel.value, nonce, message);
    received := server.Receive(sessionId, frame.value);
  }

  /**
   * auth_server/: the client side (client/kemtls_client.py) encapsulates against get_server_pk
   * and keeps a SymmetricChannel over its secret; complete_handshake gives the session id, and
   * the server's decrypt on that id recovers the client's message. A Kyber768 secret is 32 bytes.
   */
  method PingOverAuthServer(kem: Kem, aead: Aead, serverCoins: Bytes, encapsCoins: Bytes,
                            random: AuthKemtlsServer.SessionBytes, nonce: Nonce, message: Bytes)
    returns (received: Result<Bytes>)
    requires KemCorrect(kem) && AeadCorrect(aead)
    requires |kem.encaps(kem.keygen(serverCoins).pk, encapsCoins).1| == 32
    ensures received == Ok(message)
  {
    var server := new AuthKemtlsServer.Server(kem, aead, serverCoins);
    var serverPk := server.GetServerPk();
    var (ciphertext, sharedSecret) := kem.encaps(serverPk, encapsCoins);
    Symmetric.KeyIsTruncatedSecret(sharedSecret);
    var clientChannel := Symmetric.NewSymmetricChannel(sharedSecret).value;
    var sid := server.CompleteHandshake(ciphertext, random);
    assert sid.Ok?;
    var text := Symmetric.Encrypt(aead, clientChannel, nonce, message);
    Symmetric.DecryptEncrypt(aead, clientChannel, nonce, message);
    received := server.Decrypt(sid.value, text);
  }

  /**
   * The two record layers derive their keys differently from the same 32-byte secret:
   * kemtls/channel.py hashes it, crypto/symmetric.py uses it as it is. The keys agree only if
   * the secret is a fixed point of SHA-256.
   */
  lemma KeyDerivationsDiffer(sha256: Hash, secret: Bytes)
    requires Sha256Length(sha256) && |secret| == 32
    ensures Symmetric.NewSymmetricChannel(secret) == Ok(Symmetric.SymmetricChannel(secret))
    ensures Channel.NewSecureChannel(sha256, secret).key == sha256(secret)
    ensures Channel.NewSecureChannel(sha256, secret).key == Symmetric.NewSymmetricChannel(secret).value.key
            <==> sha256(secret) == secret
  {
    Symmetric.KeyIsTruncatedSecret(secret);
    Channel.KeyDerivation(sha256, secret, secret);
  }

  /**
   * Two Dilithium3 keypairs, generated independently: auth_server/jwks.py makes the one that signs
   * ID tokens, and each KEMTLSHandshake makes its own for the transcript signature. Built from
   * separate coins, the token verifies under the JWKS key and the hello publishes the handshake's
   * key; nothing relates the two.
   */
  method TokenAndHandshakeKeys(kem: Kem, sig: SigScheme, sha256: Hash, kemCoins: Bytes, sigCoins: Bytes,
                               jwksCoins: Bytes, subject: string, audience: string, iatClock: real, expClock: real)
    returns (token: string, tokenPk: Bytes, hello: Hello)
    requires SigCorrect(sig)
    ensures tokenPk == sig.keygen(jwksCoins).pk && hello.sigPk == sig.keygen(sigCoins).pk
    ensures var parts := Split(token, '.');
      && |parts| == 3
      && Base64.DecodeUnpadded(Base64.UrlSafe, parts[2]).Some?
      && IsAscii(parts[0] + "." + parts[1])
      && sig.verify(tokenPk, AsciiBytes(parts[0] + "." + parts[1]), Base64.DecodeUnpadded(Base64.UrlSafe, parts[2]).value)
  {
    var ts := TokenService.NewTokenService(sig, sig.keygen(jwksCoins));
    var handshake := new KemtlsHandshake(kem, sig, sha256, kemCoins, sigCoins);
    token := TokenService.CreateIdToken(ts, subject, audience, iatClock, expClock);
    TokenService.TokenParsesBack(ts, jwksCoins, subject, audience, iatClock, expClock);
    tokenPk := ts.pk;
    hello := handshake.ServerHello();
  }

  /**
   * auth_server/kemtls_server.py encrypt then decrypt on one session id: every message comes back,
   * and an unknown id fails both ways with SessionNotFound.
   */
  method AuthSessionRoundTrip(server: AuthKemtlsServer.Server, sid: string, nonce: Nonce, message: Bytes)
    returns (received: Result<Bytes>)
    requires AeadCorrect(server.aead)
    ensures sid in server.sessions ==> received == Ok(message)
    ensures sid !in server.sessions ==> received == Err(SessionNotFound)
  {
    var text := server.Encrypt(sid, nonce, message);
    if text.Err? {
      return Err(text.error);
    }
    Symmetric.DecryptEncrypt(server.aead, server.sessions[sid], nonce, message);
    received := server.Decrypt(sid, text.value);
  }

  /**
   * kemtls/kemtls_server.py send then receive on one session id: every message comes back, and an
   * unknown id fails both ways with SessionNotFound.
   */
  method KemtlsSessionRoundTrip(server: KemtlsServer.Server, sessionId: int, nonce: Nonce, message: Bytes)
    returns (received: Result<Bytes>)
    requires AeadCorrect(server.aead)
    ensures sessionId in server.sessions ==> received == Ok(message)
    ensures sessionId !in server.sessions ==> received == Err(SessionNotFound)
  {
    var frame := server.Send(sessionId, nonce, message);
    if frame.Err? {
      return Err(frame.error);
    }
    Channel.DecryptEncrypt(server.aead, server.sessions[sessionId], nonce, message);
    received := server.Receive(sessionId, frame.value);
  }
}
