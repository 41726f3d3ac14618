/** The JSON Web Token library, reduced to what the core sees of it. Signing and
    signature checking are cryptography and stay outside: a token string reaches
    the core only through what the library reports about it. */
module Jwt {
  import opened Wrappers
  import opened Json

  /** The family of the algorithm a token header names; `HMAC` covers HS256, HS384
      and HS512 (section 3.2 of RFC 7518). */
  datatype SigningMethod = HMAC(bits: nat) | RSA(bits: nat) | RSAPSS(bits: nat) | ECDSA(bits: nat) | EdDSA | Unsecured

  /** The claim set of a token: a decoded JSON object (`MapClaims`) or some other claims type. */
  datatype Claims = MapClaims(fields: Object) | OtherClaims

  /** What the library finds in a token string with the configured secret:
      either it cannot decode the string at all, or it has the header's method,
      the claims, whether the signature matches under the secret, and whether
      the registered time claims (`exp` of section 4.1.4 of RFC 7519, and the like)
      hold at the moment of the check. */
  datatype Inspection =
    | Malformed
    | Decoded(alg: SigningMethod, claims: Claims, signatureMatches: bool, claimsValid: bool)

  /** Why `jwt.Parse` fails. */
  datatype ParseError = MalformedToken | KeyRejected | SignatureInvalid | ClaimsInvalid

  /** `jwt.Parse(tokenString, keyFunc)`: decode, ask the key function whether it
      will give a key for the header's method, check the signature, then validate
      the claims; the first failure is the error, and a token with no error is valid. */
  function Parse(inspection: Inspection, keyFunc: SigningMethod -> bool): (r: Result<Claims, ParseError>)
    ensures r.Ok? <==> inspection.Decoded? && keyFunc(inspection.alg)
                       && inspection.signatureMatches && inspection.claimsValid
    ensures r.Ok? ==> r.value == inspection.claims
    ensures r == Err(KeyRejected) <==> inspection.Decoded? && !keyFunc(inspection.alg)
  {
    match inspection
    case Malformed => Err(MalformedToken)
    case Decoded(alg, claims, signatureMatches, claimsValid) =>
      if !keyFunc(alg) then Err(KeyRejected)
      else if !signatureMatches then Err(SignatureInvalid)
      else if !claimsValid then Err(ClaimsInvalid)
      else Ok(claims)
  }
}
