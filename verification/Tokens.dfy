// Symbolic session tokens: the strings that auth.ts builds, hashes and compares.
// SHA-256, HMAC-SHA-256, base64url JSON and random hex are free constructors, so they are injective and never collide.

module Tokens {
  import opened Options

  datatype Text =
    | Plain(chars: string)
    | RandomHex(nonce: nat)                       // randomBytes(32).toString("hex")
    | Sha256(of: Text)                            // createHash("sha256")...digest("hex")
    | Hmac(secret: string, message: Text)         // createHmac("sha256", secret)...digest("base64url")
    | Encoded(payload: Payload)                   // base64url of the payload's JSON
    | Dotted(parts: seq<Text>)                    // parts joined by "."
    | CsrfOfToken(token: Token)                   // `csrf:${token}`
    | CsrfOfSession(userId: string, issuedAt: int) // `csrf:v2:${id}:${iat}`

  // A token string, already split at its dots.
  datatype Token = Token(segments: seq<Text>)

  // `sliding` is `v === 2`. Times are whole seconds.
  datatype Payload = Payload(userId: string, exp: int, iat: Option<int>, sliding: bool,
                             lc: Option<Text>, sid: Option<Text>, app: Option<string>)

  predicate IsEmpty(t: Text) {
    t == Plain("")
  }

  predicate IsBlank(token: Token) {
    token.segments == [Plain("")] || token.segments == []
  }

  predicate IsHexDigit(c: char) {
    '0' <= c <= '9' || 'a' <= c <= 'f'
  }

  // The pattern /^[0-9a-f]{64}$/.
  predicate IsHex64(t: Text) {
    match t
    case RandomHex(_) => true
    case Sha256(_) => true
    case Plain(s) => |s| == 64 && forall i :: 0 <= i < |s| ==> IsHexDigit(s[i])
    case _ => false
  }

  // Revocation keys on the segment verifySession checks; any other shape is hashed whole.
  function TokenSignatureHash(token: Token): Text {
    if |token.segments| == 2 && !IsEmpty(token.segments[1]) then Sha256(token.segments[1])
    else Sha256(Dotted(token.segments))
  }

  // The session id a token carries in its (unverified) first segment.
  function SessionIdOf(token: Token): Option<Text> {
    if token.segments != [] && token.segments[0].Encoded? then
      var sid := token.segments[0].payload.sid;
      if sid.Some? && IsHex64(sid.value) then sid else None
    else None
  }

  function SessionIdHash(sid: Text): Text {
    Sha256(sid)
  }
}
