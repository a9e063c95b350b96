/**
 * auth_server/kemtls_server.py: a KEM-only server (no signature) whose `sessions` dictionary maps
 * a session id of 16 lower-case hex characters, `os.urandom(8).hex()`, to a SymmetricChannel over
 * the raw shared secret. The eight random bytes and the nonces are parameters.
 */
module AuthKemtlsServer {
  import opened Common
  import opened Primitives
  import opened Symmetric
  import Hex

  /** What os.urandom(8) returns. */
  type SessionBytes = s: Bytes | |s| == 8 witness [0, 0, 0, 0, 0, 0, 0, 0]

  class Server {
    const kem: Kem
    const aead: Aead
    const serverPk: Bytes
    /** The KEM secret key, kept inside the liboqs object. */
    const kemSk: Bytes
    ghost const kemCoins: Bytes
    var sessions: map<string, SymmetricChannel>

    ghost predicate Valid()
    {
      Keypair(serverPk, kemSk) == kem.keygen(kemCoins)
    }

    constructor (kem: Kem, aead: Aead, kemCoins: Bytes)
      ensures Valid() && this.kem == kem && this.aead == aead && this.kemCoins == kemCoins
      ensures sessions == map[]
    {
      this.kem := kem;
      this.aead := aead;
      this.kemCoins := kemCoins;
      var keys := kem.keygen(kemCoins);
      serverPk := keys.pk;
      kemSk := keys.sk;
      sessions := map[];
    }

    /** get_server_pk: the public key generated at construction, the same on every call. */
    function GetServerPk(): (pk: Bytes)
      requires Valid()
      ensures pk == kem.keygen(kemCoins).pk
    {
      serverPk
    }

    /**
     * complete_handshake: decapsulate first; a failed decapsulation, or a secret AESGCM rejects as
     * a key, leaves sessions unchanged. Otherwise the id is the hex of the random bytes and the
     * assignment `sessions[sid] = channel` overwrites an entry with the same id. Only the id is returned.
     */
    method CompleteHandshake(ciphertext: Bytes, random: SessionBytes) returns (r: Result<string>)
      modifies this
      ensures kem.decaps(kemSk, ciphertext).None? ==>
        r == Err(DecapsulationError) && sessions == old(sessions)
      ensures kem.decaps(kemSk, ciphertext).Some? && NewSymmetricChannel(kem.decaps(kemSk, ciphertext).value).Err? ==>
        r == Err(InvalidKeyLength) && sessions == old(sessions)
      ensures kem.decaps(kemSk, ciphertext).Some? && NewSymmetricChannel(kem.decaps(kemSk, ciphertext).value).Ok? ==>
        var channel := NewSymmetricChannel(kem.decaps(kemSk, ciphertext).value).value;
        && r == Ok(Hex.ToHex(random))
        && sessions == old(sessions)[r.value := channel]
        && channel.key == kem.decaps(kemSk, ciphertext).value[..Min(32, |kem.decaps(kemSk, ciphertext).value|)]
        && (forall id :: id in old(sessions) && id != r.value ==> id in sessions && sessions[id] == old(sessions)[id])
      ensures r.Ok? ==> |r.value| == 16 && forall j :: 0 <= j < 16 ==> Hex.IsLowerHex(r.value[j])
    {
      var decapsulated := kem.decaps(kemSk, ciphertext);
      if decapsulated.None? {
        return Err(DecapsulationError);
      }
      var sharedSecret := decapsulated.value;
      var sessionId := Hex.ToHex(random);
      Hex.HexShape(random);
      var channel := NewSymmetricChannel(sharedSecret);
      if channel.Err? {
        return Err(channel.error);
      }
      sessions := sessions[sessionId := channel.value];
      r := Ok(sessionId);
    }

    /** encrypt: base64 frame on the session's channel; an unknown id raises KeyError. */
    method Encrypt(sid: string, nonce: Nonce, data: Bytes) returns (r: Result<string>)
      ensures sid !in sessions ==> r == Err(SessionNotFound)
      ensures sid in sessions ==> r == Ok(Symmetric.Encrypt(aead, sessions[sid], nonce, data))
    {
      if sid !in sessions {
        return Err(SessionNotFound);
      }
      r := Ok(Symmetric.Encrypt(aead, sessions[sid], nonce, data));
    }

    /** decrypt: decode and open on the session's channel; an unknown id raises KeyError. */
    method Decrypt(sid: string, data: string) returns (r: Result<Bytes>)
      ensures sid !in sessions ==> r == Err(SessionNotFound)
      ensures sid in sessions ==> r == Symmetric.Decrypt(aead, sessions[sid], data)
    {
      if sid !in sessions {
        return Err(SessionNotFound);
      }
      r := Symmetric.Decrypt(aead, sessions[sid], data);
    }
  }
}
