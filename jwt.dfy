/**
 * A symbolic model of the JSON Web Token codec (RFC 7519) as the authentication
 * code uses it: encoding a claims set under a key and algorithm, and decoding a
 * token under a key and a list of accepted algorithms.
 *
 * A token is a structured value rather than a compact string. Its signature is the
 * symbolic term `Mac(key, alg, payload)`. Nothing can build that term without the
 * key, and it commits to the whole payload. So a token decodes under a key exactly
 * when it was encoded with that key and has not been altered since. Byte-level
 * serialisation, base64url and the HMAC function itself are not modelled.
 */
module Jwt {
  import opened Wrappers

  /** A claim value: the JSON scalars a claim may carry. */
  datatype Value = Str(s: string) | Num(n: int) | Bool(b: bool) | Null

  /** A claims set: claim name to value, as the Python dict it is in the source. */
  type Claims = map<string, Value>

  /**
   * Whether a token whose `exp` equals the current second is still accepted.
   * That comparison happens inside the JWT library and is not visible in the
   * code modelled here, so the model keeps both choices open.
   */
  datatype ExpiryBoundary = ExpiredAtExp | ValidAtExp

  /** The "exp" test of section 4.1.4 of RFC 7519 at second `now`. */
  predicate Unexpired(boundary: ExpiryBoundary, exp: int, now: int) {
    match boundary
    case ExpiredAtExp => now < exp
    case ValidAtExp => now <= exp
  }

  /** Symbolic message authentication code over the header's algorithm and the payload. */
  datatype Signature = Mac(key: string, alg: string, payload: Claims)

  /** A token as a client presents it: a signed compact token, or any other text. */
  datatype Token =
    | Compact(alg: string, payload: Claims, signature: Signature)
    | Malformed(text: string)

  function Sign(key: string, alg: string, payload: Claims): Signature {
    Mac(key, alg, payload)
  }

  /**
   * Signs a claims set with `key` under algorithm `alg`. The token decodes to those
   * claims under the same key and algorithm whenever their expiry is accepted, and
   * under no other key at any time.
   */
  function Encode(claims: Claims, key: string, alg: string): (token: Token)
    ensures forall boundary, now :: ExpiryAccepts(claims, boundary, now) ==> Decode(token, key, [alg], boundary, now) == Some(claims)
    ensures forall otherKey, algorithms, boundary, now :: otherKey != key ==> Decode(token, otherKey, algorithms, boundary, now) == None
  {
    Compact(alg, claims, Sign(key, alg, claims))
  }

  /**
   * The registered "exp" claim is optional (section 4.1.4 of RFC 7519). When it is
   * present it must be a number that has not yet passed.
   */
  predicate ExpiryAccepts(payload: Claims, boundary: ExpiryBoundary, now: int) {
    "exp" in payload ==> payload["exp"].Num? && Unexpired(boundary, payload["exp"].n, now)
  }

  /**
   * Checks and opens a token under `key`, accepting only `algorithms`. `None` stands for every
   * `JWTError` the library raises: malformed text, an algorithm outside the allowed
   * list, a signature that does not match, or an expired token.
   */
  function Decode(token: Token, key: string, algorithms: seq<string>, boundary: ExpiryBoundary, now: int): (r: Option<Claims>)
    ensures r.Some? ==> token.Compact? && r.value == token.payload
    ensures r.Some? ==> token.alg in algorithms && token.signature == Sign(key, token.alg, token.payload)
    ensures r.Some? ==> ExpiryAccepts(token.payload, boundary, now)
  {
    match token
    case Malformed(_) => None
    case Compact(alg, payload, signature) =>
      if alg in algorithms && signature == Sign(key, alg, payload) && ExpiryAccepts(payload, boundary, now)
      then Some(payload)
      else None
  }

  /** Round trip: a token decodes to the claims it was encoded from, for as long as they are unexpired. */
  lemma DecodeEncode(claims: Claims, key: string, alg: string, boundary: ExpiryBoundary, now: int)
    ensures Decode(Encode(claims, key, alg), key, [alg], boundary, now)
         == if ExpiryAccepts(claims, boundary, now) then Some(claims) else None
  {
  }

  /** A token decodes under a key only if it is exactly the encoding of its payload with that key. */
  lemma DecodedTokensAreGenuine(token: Token, key: string, alg: string, boundary: ExpiryBoundary, now: int)
    requires Decode(token, key, [alg], boundary, now).Some?
    ensures token == Encode(Decode(token, key, [alg], boundary, now).value, key, alg)
  {
  }

  /** A token signed with any other key is rejected. */
  lemma DecodeRejectsOtherKey(claims: Claims, signingKey: string, key: string, alg: string, algorithms: seq<string>, boundary: ExpiryBoundary, now: int)
    requires signingKey != key
    ensures Decode(Encode(claims, signingKey, alg), key, algorithms, boundary, now) == None
  {
  }

  /** Changing the header or the payload of a token, while keeping its signature, makes it undecodable. */
  lemma DecodeRejectsTampered(claims: Claims, key: string, alg: string, forgedAlg: string, forged: Claims, algorithms: seq<string>, boundary: ExpiryBoundary, now: int)
    requires forgedAlg != alg || forged != claims
    ensures Decode(Compact(forgedAlg, forged, Encode(claims, key, alg).signature), key, algorithms, boundary, now) == None
  {
  }

  /**
   * Whatever the boundary, a claims set is accepted strictly before its expiry and
   * rejected strictly after it; only the second `now == exp` depends on the boundary.
   */
  lemma ExpiryBoundaryOnlyMattersAtExp(claims: Claims, exp: int, boundary: ExpiryBoundary, now: int)
    requires "exp" in claims && claims["exp"] == Num(exp)
    ensures now < exp ==> ExpiryAccepts(claims, boundary, now)
    ensures now > exp ==> !ExpiryAccepts(claims, boundary, now)
    ensures now == exp ==> (ExpiryAccepts(claims, boundary, now) <==> boundary == ValidAtExp)
  {
  }
}
