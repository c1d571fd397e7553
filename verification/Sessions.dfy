// Signing, renewing and verifying session cookies, and the CSRF tokens bound to them (apps/api/src/auth.ts).

module Sessions {
  import opened Options
  import opened Tokens
  import opened Revocation

  const PERSISTENT_TTL_SECONDS: int := 60 * 60 * 24 * 30
  const RENEW_BELOW_SECONDS: int := PERSISTENT_TTL_SECONDS / 2
  const EPHEMERAL_LIFETIME_SECONDS: int := 60 * 60 * 12
  const PROOF_OPERATOR := "user:operator-proof"

  function Seconds(nowMs: nat): int {
    nowMs / 1000
  }

  function Sealed(payload: Payload, secret: string): Token {
    Token([Encoded(payload), Hmac(secret, Encoded(payload))])
  }

  // None: the call throws.
  function SignSession(userId: string, secret: string, nowMs: nat, iat: Option<int>, lc: Option<Text>,
                       sid: Option<Text>, app: Option<string>, nonce: nat): Option<Token>
  {
    if userId == PROOF_OPERATOR || |secret| < 16 then None
    else
      Some(Sealed(Payload(
        userId,
        Seconds(nowMs) + PERSISTENT_TTL_SECONDS,
        Some(if iat.Some? then iat.value else Seconds(nowMs)),
        true,
        if lc.Some? && !IsEmpty(lc.value) then lc else None,
        Some(if sid.Some? then sid.value else RandomHex(nonce)),
        if app.Some? && app.value != "" then app else None), secret))
  }

  // The payload of a token whose signature checks out.
  function SignedSessionPayload(token: Token, secret: string): Option<Payload> {
    if |token.segments| == 2 && |secret| >= 16
       && token.segments[1] == Hmac(secret, token.segments[0]) && token.segments[0].Encoded?
    then Some(token.segments[0].payload)
    else None
  }

  function LegacyCsrfToken(token: Token, secret: string): Text {
    Hmac(secret, CsrfOfToken(token))
  }

  function RenewSessionIfDue(token: Token, secret: string, nowMs: nat, nonce: nat): Option<Token> {
    match SignedSessionPayload(token, secret)
    case None => None
    case Some(p) =>
      var now := Seconds(nowMs);
      if p.exp <= now || p.userId == PROOF_OPERATOR || (p.app.Some? && p.app.value != "") then None
      else if p.sliding then
        if p.exp - now >= RENEW_BELOW_SECONDS then None
        else SignSession(p.userId, secret, nowMs, p.iat, p.lc, p.sid, None, nonce)
      else if p.iat.Some? && p.exp - p.iat.value <= EPHEMERAL_LIFETIME_SECONDS then None
      else
        SignSession(p.userId, secret, nowMs, p.iat, Some(LegacyCsrfToken(token, secret)),
                    Some(TokenSignatureHash(token)), None, nonce)
  }

  function VerifySession(token: Token, secret: string, mem: Memory, nowMs: nat): Option<string> {
    if IsBlank(token) || |secret| < 16 || |token.segments| != 2 || mem.IsRevoked(token, nowMs, None, None) then None
    else
      match SignedSessionPayload(token, secret)
      case None => None
      case Some(p) =>
        if p.exp <= Seconds(nowMs) then None
        else
          var iatMs := if p.iat.Some? then Some(p.iat.value * 1000) else None;
          if mem.IsRevoked(token, nowMs, Some(p.userId), iatMs) then None else Some(p.userId)
  }

  function CreateCsrfToken(token: Token, secret: string): Option<Text> {
    if IsBlank(token) || |secret| < 16 then None
    else
      match SignedSessionPayload(token, secret)
      case Some(p) =>
        if p.sliding && p.iat.Some? then Some(Hmac(secret, CsrfOfSession(p.userId, p.iat.value)))
        else Some(LegacyCsrfToken(token, secret))
      case None => Some(LegacyCsrfToken(token, secret))
  }

  predicate VerifyCsrfToken(token: Token, submitted: Text, secret: string) {
    var expected := CreateCsrfToken(token, secret);
    && expected.Some?
    && (|| submitted == expected.value
        || submitted == LegacyCsrfToken(token, secret)
        || (var p := SignedSessionPayload(token, secret); p.Some? && p.value.lc == Some(submitted)))
  }

  // ---------------------------------------------------------------- one renewal

  // A cookie whose renewals share a revocation key with it: an older one, or a sliding one with a session id.
  predicate Linked(p: Payload) {
    p.sliding ==> p.sid.Some? && IsHex64(p.sid.value)
  }

  // The revocation key that a cookie and all its renewals share.
  function FamilyKey(token: Token, p: Payload): Text
    requires p.sliding ==> p.sid.Some?
  {
    if p.sliding then p.sid.value else TokenSignatureHash(token)
  }

  ghost predicate InFamily(token: Token, secret: string, key: Text) {
    var p := SignedSessionPayload(token, secret);
    p.Some? && Linked(p.value) && FamilyKey(token, p.value) == key
  }

  lemma FamilyKeysMeet(token: Token, secret: string, key: Text)
    requires InFamily(token, secret, key)
    ensures key in RevocationKeys(token) && key in LookupKeys(token)
  {}

  // A renewal is a later sliding copy of the same family.
  lemma RenewalStaysInFamily(token: Token, secret: string, nowMs: nat, nonce: nat, key: Text)
    requires InFamily(token, secret, key) && RenewSessionIfDue(token, secret, nowMs, nonce).Some?
    ensures var renewed := RenewSessionIfDue(token, secret, nowMs, nonce).value;
      && InFamily(renewed, secret, key)
      && renewed.segments[0].payload.sliding
      && renewed.segments[0].payload.exp == Seconds(nowMs) + PERSISTENT_TTL_SECONDS
      && renewed.segments[0].payload.userId == token.segments[0].payload.userId
  {}

  // Exactly the linked cookies can be logged out through their renewal.
  lemma RenewalRevokesOriginalIff(token: Token, secret: string, nowMs: nat, nonce: nat)
    requires RenewSessionIfDue(token, secret, nowMs, nonce).Some?
    ensures Linked(SignedSessionPayload(token, secret).value) <==>
            exists k ::
              k in RevocationKeys(RenewSessionIfDue(token, secret, nowMs, nonce).value) && k in LookupKeys(token)
  {
    var p := SignedSessionPayload(token, secret).value;
    var renewed := RenewSessionIfDue(token, secret, nowMs, nonce).value;
    if Linked(p) {
      RenewalStaysInFamily(token, secret, nowMs, nonce, FamilyKey(token, p));
      FamilyKeysMeet(token, secret, FamilyKey(token, p));
      FamilyKeysMeet(renewed, secret, FamilyKey(token, p));
    } else {
      var q := renewed.segments[0].payload;
      assert q.exp > p.exp;
      assert renewed.segments[1] != token.segments[1];
      assert SessionIdOf(token).None?;
    }
  }

  // ---------------------------------------------------------------- chains of renewals

  datatype Renewal = Renewal(nowMs: nat, nonce: nat)

  // copies[i + 1] renews copies[i].
  ghost predicate IsChain(copies: seq<Token>, renewals: seq<Renewal>, secret: string) {
    && |copies| == |renewals| + 1
    && forall i :: 0 <= i < |renewals| ==>
         RenewSessionIfDue(copies[i], secret, renewals[i].nowMs, renewals[i].nonce) == Some(copies[i + 1])
  }

  lemma {:induction false} ChainIsFamily(copies: seq<Token>, renewals: seq<Renewal>, secret: string, i: nat, key: Text)
    requires IsChain(copies, renewals, secret) && i < |copies| && InFamily(copies[0], secret, key)
    ensures InFamily(copies[i], secret, key)
  {
    if i > 0 {
      ChainIsFamily(copies, renewals, secret, i - 1, key);
      assert RenewSessionIfDue(copies[i - 1], secret, renewals[i - 1].nowMs, renewals[i - 1].nonce) == Some(copies[i]);
      RenewalStaysInFamily(copies[i - 1], secret, renewals[i - 1].nowMs, renewals[i - 1].nonce, key);
    }
  }

  // Main result: over any chain of renewals, revoking any one copy refuses every earlier and later copy, through the
  // revocation's expiry.
  lemma RevokingOneCopyRefusesAll(copies: seq<Token>, renewals: seq<Renewal>, secret: string, i: nat, j: nat,
                                  mem: Memory, until: nat, now: nat)
    requires IsChain(copies, renewals, secret) && i < |copies| && j < |copies|
    requires SignedSessionPayload(copies[0], secret).Some? && Linked(SignedSessionPayload(copies[0], secret).value)
    requires now <= until
    ensures VerifySession(copies[j], secret, mem.Revoke(copies[i], until), now) == None
  {
    var key := FamilyKey(copies[0], SignedSessionPayload(copies[0], secret).value);
    ChainIsFamily(copies, renewals, secret, i, key);
    ChainIsFamily(copies, renewals, secret, j, key);
    FamilyKeysMeet(copies[i], secret, key);
    FamilyKeysMeet(copies[j], secret, key);
    assert mem.Revoke(copies[i], until).Holds(key, now);
  }

  // ---------------------------------------------------------------- CSRF tokens survive renewals

  // The CSRF token names the session by its issue time, or the cookie is an older one.
  predicate CsrfStable(p: Payload) {
    p.sliding ==> p.iat.Some?
  }

  // What a later copy must carry for a CSRF token made from an earlier one.
  ghost predicate Accepts(token: Token, secret: string, csrf: Text) {
    var p := SignedSessionPayload(token, secret);
    p.Some? && p.value.sliding && p.value.iat.Some?
    && (csrf == Hmac(secret, CsrfOfSession(p.value.userId, p.value.iat.value)) || p.value.lc == Some(csrf))
  }

  lemma {:induction false} ChainAccepts(copies: seq<Token>, renewals: seq<Renewal>, secret: string, i: nat, j: nat,
                                        csrf: Text)
    requires IsChain(copies, renewals, secret) && i <= j < |copies|
    requires Accepts(copies[i], secret, csrf)
    requires csrf.Hmac?
    ensures Accepts(copies[j], secret, csrf)
  {
    if i < j {
      ChainAccepts(copies, renewals, secret, i, j - 1, csrf);
      assert RenewSessionIfDue(copies[j - 1], secret, renewals[j - 1].nowMs, renewals[j - 1].nonce) == Some(copies[j]);
    }
  }

  // A CSRF token made from any copy is accepted with every later copy.
  lemma CsrfSurvivesRenewals(copies: seq<Token>, renewals: seq<Renewal>, secret: string, i: nat, j: nat)
    requires IsChain(copies, renewals, secret) && i <= j < |copies|
    requires SignedSessionPayload(copies[i], secret).Some? && CsrfStable(SignedSessionPayload(copies[i], secret).value)
    ensures CreateCsrfToken(copies[i], secret).Some?
    ensures VerifyCsrfToken(copies[j], CreateCsrfToken(copies[i], secret).value, secret)
  {
    var csrf := CreateCsrfToken(copies[i], secret).value;
    if i < j {
      assert RenewSessionIfDue(copies[i], secret, renewals[i].nowMs, renewals[i].nonce) == Some(copies[i + 1]);
      assert Accepts(copies[i + 1], secret, csrf);
      ChainAccepts(copies, renewals, secret, i + 1, j, csrf);
    }
  }

  // A cookie cannot carry a token made from itself.
  lemma CarriesNoOwnToken(token: Token, p: Payload, secret: string)
    requires token.segments != [] && token.segments[0] == Encoded(p)
    ensures p.lc != Some(LegacyCsrfToken(token, secret))
  {
    assert p < token.segments[0] && token.segments[0] < token;
    assert token < CsrfOfToken(token) && CsrfOfToken(token) < LegacyCsrfToken(token, secret);
    if p.lc.Some? { assert p.lc.value < p.lc && p.lc < p; }
  }

  // Exactly then for one renewal.
  lemma CsrfSurvivesRenewalIff(token: Token, secret: string, nowMs: nat, nonce: nat)
    requires RenewSessionIfDue(token, secret, nowMs, nonce).Some?
    ensures VerifyCsrfToken(RenewSessionIfDue(token, secret, nowMs, nonce).value,
                            CreateCsrfToken(token, secret).value, secret)
            <==> CsrfStable(SignedSessionPayload(token, secret).value)
  {
    var p := SignedSessionPayload(token, secret).value;
    var renewed := RenewSessionIfDue(token, secret, nowMs, nonce).value;
    if !CsrfStable(p) {
      CarriesNoOwnToken(token, p, secret);
      assert renewed.segments[0].payload.exp > p.exp;
    }
  }
}
