/** Byte strings, optional values and the error outcomes shared by every component. */
module Common {

  /** An octet, as Python's `bytes` holds them. */
  type byte = x: int | 0 <= x < 256

  type Bytes = seq<byte>

  /** The failures the core's operations can raise; each names the Python exception it models. */
  datatype Error =
    | DecapsulationError      // liboqs `decap_secret` rejects the ciphertext
    | AuthenticationFailure   // AESGCM.decrypt raises InvalidTag, or ValueError for a nonce under 8 bytes
    | SessionNotFound         // `self.sessions[sid]` raises KeyError
    | ChannelNotEstablished   // `self.channel` is still None (AttributeError)
    | MalformedBase64         // base64.b64decode raises binascii.Error
    | InvalidKeyLength        // AESGCM(key) raises ValueError for a key not 16, 24 or 32 bytes long
    | ServerAuthenticationError // the transcript signature does not verify

  datatype Option<+T> = None | Some(value: T)

  datatype Result<+T> = Ok(value: T) | Err(error: Error)

  function Min(a: int, b: int): int
  {
    if a <= b then a else b
  }
}
