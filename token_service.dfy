/**
 * auth_server/token_service.py: an ID token in JWS compact serialization (section 7.1 of
 * RFC 7515, a JWT per RFC 7519), `b64url(header) . b64url(payload) . b64url(signature)` with
 * unpadded base64url (section 5 of RFC 4648). The signer is the keypair of auth_server/jwks.py,
 * bound at construction; the two `time.time()` readings are parameters.
 */
module TokenService {
  import opened Common
  import opened Primitives
  import opened Text
  import Base64
  import Json

  const ValiditySeconds: int := 600

  /** The service binds the JWKS module's public key and signer (`get_signing_keypair()`). */
  datatype TokenService = TokenService(scheme: SigScheme, pk: Bytes, sk: Bytes)

  function NewTokenService(scheme: SigScheme, jwks: Keypair): TokenService
  {
    TokenService(scheme, jwks.pk, jwks.sk)
  }

  /** _b64url: URL-safe base64 with the trailing `=` stripped. */
  function B64Url(data: Bytes): string
  {
    Base64.RStripPad(Base64.Encode(Base64.UrlSafe, data))
  }

  /** _b64url yields ⌈4n/3⌉ characters, all from `A-Z a-z 0-9 - _`, and decodes back to its input. */
  lemma B64UrlShape(data: Bytes)
    ensures B64Url(data) == Base64.Unpadded(Base64.UrlSafe, data)
    ensures |B64Url(data)| == (4 * |data| + 2) / 3
    ensures Base64.AllDigits(Base64.UrlSafe, B64Url(data))
    ensures Base64.DecodeUnpadded(Base64.UrlSafe, B64Url(data)) == Some(data)
  {
    Base64.StripPadding(Base64.UrlSafe, data);
    Base64.UnpaddedDigits(Base64.UrlSafe, data);
    Base64.UnpaddedRoundTrip(Base64.UrlSafe, data);
  }

  /** `int(t)` of a non-integral clock reading: truncation toward zero. */
  function Trunc(t: real): int
  {
    if t >= 0.0 then t.Floor else -((-t).Floor)
  }

  function HeaderFields(): seq<(string, Json.Value)>
  {
    [("alg", Json.Str("Dilithium3")), ("typ", Json.Str("JWT"))]
  }

  /** The claims in dict order: iss, sub, aud, iat, exp. */
  function PayloadFields(subject: string, audience: string, iat: int, exp: int): seq<(string, Json.Value)>
  {
    [("iss", Json.Str("auth")), ("sub", Json.Str(subject)), ("aud", Json.Str(audience)),
     ("iat", Json.Int(iat)), ("exp", Json.Int(exp))]
  }

  /** `json.dumps(obj).encode()`: the serialization is printable ASCII, one byte per character. */
  function JsonBytes(fields: seq<(string, Json.Value)>): Bytes
  {
    Json.SerializeObjectPrintable(fields);
    AsciiBytes(Json.SerializeObject(fields))
  }

  /** The header segment, the same for every token. */
  function HeaderSegment(): string
  {
    B64Url(JsonBytes(HeaderFields()))
  }

  function PayloadSegment(subject: string, audience: string, iatClock: real, expClock: real): string
  {
    B64Url(JsonBytes(PayloadFields(subject, audience, Trunc(iatClock), Trunc(expClock) + ValiditySeconds)))
  }

  lemma DigitsAreAscii(s: string)
    requires Base64.AllDigits(Base64.UrlSafe, s)
    ensures IsAscii(s) && '.' !in s
  {
  }

  /** The bytes that are signed: `h + b"." + p`. */
  function SigningInput(h: string, p: string): Bytes
    requires Base64.AllDigits(Base64.UrlSafe, h) && Base64.AllDigits(Base64.UrlSafe, p)
  {
    DigitsAreAscii(h);
    DigitsAreAscii(p);
    AsciiBytesConcat(h, ".");
    AsciiBytesConcat(h + ".", p);
    AsciiBytes(h + "." + p)
  }

  lemma SegmentsAreDigits(subject: string, audience: string, iatClock: real, expClock: real)
    ensures Base64.AllDigits(Base64.UrlSafe, HeaderSegment())
    ensures Base64.AllDigits(Base64.UrlSafe, PayloadSegment(subject, audience, iatClock, expClock))
  {
    B64UrlShape(JsonBytes(HeaderFields()));
    B64UrlShape(JsonBytes(PayloadFields(subject, audience, Trunc(iatClock), Trunc(expClock) + ValiditySeconds)));
  }

  /**
   * The compact serialization of header bytes `hb` and payload bytes `pb`: both base64url-encoded,
   * the signing input `h.p` signed, and the signature appended as a third segment.
   */
  function Compact(ts: TokenService, hb: Bytes, pb: Bytes): string
  {
    var h := B64Url(hb);
    var p := B64Url(pb);
    B64UrlShape(hb);
    B64UrlShape(pb);
    h + "." + p + "." + B64Url(ts.scheme.sign(ts.sk, SigningInput(h, p)))
  }

  /**
   * create_id_token: `iat` is the first clock reading and `exp` the second plus 600 seconds,
   * and the header and payload are serialized as JSON and signed in compact form.
   */
  function CreateIdToken(ts: TokenService, subject: string, audience: string, iatClock: real, expClock: real): string
  {
    Compact(ts, JsonBytes(HeaderFields()),
            JsonBytes(PayloadFields(subject, audience, Trunc(iatClock), Trunc(expClock) + ValiditySeconds)))
  }

  /** Three base64url segments joined by dots: the layout and the split of a compact JWS. */
  lemma CompactLayout(h: string, p: string, s: string)
    requires Base64.AllDigits(Base64.UrlSafe, h) && Base64.AllDigits(Base64.UrlSafe, p)
    requires Base64.AllDigits(Base64.UrlSafe, s)
    ensures var token := h + "." + p + "." + s;
      && IsAscii(h) && IsAscii(p)
      && SigningInput(h, p) == AsciiBytes(h) + [46] + AsciiBytes(p)
      && h + "." + p + "." <= token
      && Count(token, '.') == 2
      && Split(token, '.') == [h, p, s]
  {
    DigitsAreAscii(h);
    DigitsAreAscii(p);
    var token := h + "." + p + "." + s;
    assert token == h + ['.'] + (p + ['.'] + s);
    SplitAtFirstSeparator(h, '.', p + ['.'] + s);
    SplitAtFirstSeparator(p, '.', s);
    SplitWithoutSeparator(s, '.');
    SplitCountsSeparators(token, '.');
  }

  /**
   * The token is `h.p.s` with exactly two dots: the header segment, the payload segment and the
   * base64url signature over the bytes `h + b"." + p`; it starts with the signing input and `.`.
   */
  lemma TokenLayout(ts: TokenService, subject: string, audience: string, iatClock: real, expClock: real)
    ensures Base64.AllDigits(Base64.UrlSafe, HeaderSegment())
    ensures Base64.AllDigits(Base64.UrlSafe, PayloadSegment(subject, audience, iatClock, expClock))
    ensures var h := HeaderSegment();
      var p := PayloadSegment(subject, audience, iatClock, expClock);
      var token := CreateIdToken(ts, subject, audience, iatClock, expClock);
      && IsAscii(h) && IsAscii(p)
      && SigningInput(h, p) == AsciiBytes(h) + [46] + AsciiBytes(p)
      && h + "." + p + "." <= token
      && Count(token, '.') == 2
      && Split(token, '.') == [h, p, B64Url(ts.scheme.sign(ts.sk, SigningInput(h, p)))]
  {
    var h := HeaderSegment();
    var p := PayloadSegment(subject, audience, iatClock, expClock);
    SegmentsAreDigits(subject, audience, iatClock, expClock);
    B64UrlShape(ts.scheme.sign(ts.sk, SigningInput(h, p)));
    CompactLayout(h, p, B64Url(ts.scheme.sign(ts.sk, SigningInput(h, p))));
  }

  /** The header segment does not depend on the subject, the audience or the clock. */
  lemma HeaderIsConstant(ts: TokenService, subject: string, audience: string, iatClock: real, expClock: real)
    ensures var token := CreateIdToken(ts, subject, audience, iatClock, expClock);
      Split(token, '.')[0] == HeaderSegment() == B64Url(JsonBytes(HeaderFields()))
  {
    TokenLayout(ts, subject, audience, iatClock, expClock);
  }

  /** One clock reading gives exp == iat + 600; with two readings in order, exp >= iat + 600. */
  lemma ExpiryWindow(iatClock: real, expClock: real)
    requires iatClock <= expClock
    ensures Trunc(expClock) + ValiditySeconds >= Trunc(iatClock) + ValiditySeconds
    ensures iatClock == expClock ==> Trunc(expClock) + ValiditySeconds == Trunc(iatClock) + 600
  {
  }

  /** A compact token splits at its two dots into the header, payload and signature segments. */
  lemma CompactSegments(ts: TokenService, hb: Bytes, pb: Bytes)
    ensures Base64.AllDigits(Base64.UrlSafe, B64Url(hb)) && Base64.AllDigits(Base64.UrlSafe, B64Url(pb))
    ensures Split(Compact(ts, hb, pb), '.')
            == [B64Url(hb), B64Url(pb), B64Url(ts.scheme.sign(ts.sk, SigningInput(B64Url(hb), B64Url(pb))))]
  {
    var h, p := B64Url(hb), B64Url(pb);
    B64UrlShape(hb);
    B64UrlShape(pb);
    var sb := ts.scheme.sign(ts.sk, SigningInput(h, p));
    B64UrlShape(sb);
    CompactLayout(h, p, B64Url(sb));
  }

  /**
   * A compact token splits into its three segments: the header and payload decode back, the
   * third decodes to the signature over the bytes of the first two joined by `.`.
   */
  lemma CompactDecodes(ts: TokenService, hb: Bytes, pb: Bytes)
    ensures Base64.AllDigits(Base64.UrlSafe, B64Url(hb)) && Base64.AllDigits(Base64.UrlSafe, B64Url(pb))
    ensures var parts := Split(Compact(ts, hb, pb), '.');
      && |parts| == 3
      && parts[0] == B64Url(hb) && parts[1] == B64Url(pb)
      && Base64.DecodeUnpadded(Base64.UrlSafe, parts[0]) == Some(hb)
      && Base64.DecodeUnpadded(Base64.UrlSafe, parts[1]) == Some(pb)
      && IsAscii(parts[0] + "." + parts[1])
      && AsciiBytes(parts[0] + "." + parts[1]) == SigningInput(B64Url(hb), B64Url(pb))
      && Base64.DecodeUnpadded(Base64.UrlSafe, parts[2])
         == Some(ts.scheme.sign(ts.sk, SigningInput(B64Url(hb), B64Url(pb))))
  {
    CompactSegments(ts, hb, pb);
    var h, p := B64Url(hb), B64Url(pb);
    var sb := ts.scheme.sign(ts.sk, SigningInput(h, p));
    B64UrlShape(hb);
    B64UrlShape(pb);
    B64UrlShape(sb);
    DigitsAreAscii(h);
    DigitsAreAscii(p);
    AsciiBytesConcat(h, ".");
    AsciiBytesConcat(h + ".", p);
  }

  /**
   * The third segment of a compact token decodes to a signature that verifies under the signer's
   * public key over the bytes of `h.p`.
   */
  lemma CompactVerifies(ts: TokenService, jwksCoins: Bytes, hb: Bytes, pb: Bytes)
    requires SigCorrect(ts.scheme) && Keypair(ts.pk, ts.sk) == ts.scheme.keygen(jwksCoins)
    ensures var parts := Split(Compact(ts, hb, pb), '.');
      && |parts| == 3
      && Base64.DecodeUnpadded(Base64.UrlSafe, parts[2]).Some?
      && IsAscii(parts[0] + "." + parts[1])
      && ts.scheme.verify(ts.pk, AsciiBytes(parts[0] + "." + parts[1]), Base64.DecodeUnpadded(Base64.UrlSafe, parts[2]).value)
  {
    CompactDecodes(ts, hb, pb);
    var m := SigningInput(B64Url(hb), B64Url(pb));
    assert ts.scheme.verify(ts.scheme.keygen(jwksCoins).pk, m, ts.scheme.sign(ts.scheme.keygen(jwksCoins).sk, m));
  }

  /**
   * Read back as JWS compact serialization, the token gives the header JSON, the payload JSON with
   * its claims, and a signature that verifies under the JWKS public key over `h.p`.
   */
  lemma TokenParsesBack(ts: TokenService, jwksCoins: Bytes, subject: string, audience: string, iatClock: real, expClock: real)
    requires SigCorrect(ts.scheme) && Keypair(ts.pk, ts.sk) == ts.scheme.keygen(jwksCoins)
    ensures var parts := Split(CreateIdToken(ts, subject, audience, iatClock, expClock), '.');
      && |parts| == 3
      && Base64.DecodeUnpadded(Base64.UrlSafe, parts[0]) == Some(JsonBytes(HeaderFields()))
      && Base64.DecodeUnpadded(Base64.UrlSafe, parts[1])
         == Some(JsonBytes(PayloadFields(subject, audience, Trunc(iatClock), Trunc(expClock) + ValiditySeconds)))
      && Base64.DecodeUnpadded(Base64.UrlSafe, parts[2]).Some?
      && IsAscii(parts[0] + "." + parts[1])
      && ts.scheme.verify(ts.pk, AsciiBytes(parts[0] + "." + parts[1]), Base64.DecodeUnpadded(Base64.UrlSafe, parts[2]).value)
  {
    var hb := JsonBytes(HeaderFields());
    var pb := JsonBytes(PayloadFields(subject, audience, Trunc(iatClock), Trunc(expClock) + ValiditySeconds));
    CompactDecodes(ts, hb, pb);
    CompactVerifies(ts, jwksCoins, hb, pb);
  }
}
