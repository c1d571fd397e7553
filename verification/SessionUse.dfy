// Whom a session cookie is accepted for and how long: the exact condition of verifySession, and a session that is used
// from login on (apps/api/src/auth.ts).

module SessionUse {
  import opened Options
  import opened Tokens
  import opened Revocation
  import opened Sessions

  // ---------------------------------------------------------------- acceptance

  predicate IsRefusedKey(mem: Memory, key: Text, nowMs: nat) {
    key in mem.revoked && nowMs <= mem.revoked[key]
  }

  // A revocation of this very cookie, of its session id, or of the hash of that id.
  predicate IsLoggedOut(p: Payload, secret: string, mem: Memory, nowMs: nat) {
    || IsRefusedKey(mem, Sha256(Hmac(secret, Encoded(p))), nowMs)
    || (p.sid.Some? && IsHex64(p.sid.value)
        && (IsRefusedKey(mem, p.sid.value, nowMs) || IsRefusedKey(mem, Sha256(p.sid.value), nowMs)))
  }

  // All sessions of the user that were issued before some time, or at an unknown one, have been ended.
  predicate IsCutOff(p: Payload, mem: Memory) {
    p.userId != "" && p.userId in mem.epochs && (p.iat.None? || p.iat.value * 1000 < mem.epochs[p.userId])
  }

  // Main result: exactly a cookie signed with the secret is accepted, as its own user, while it has not expired, the
  // revocations are loaded and none of them is its own, its session's or its user's.
  lemma AcceptedIff(token: Token, secret: string, mem: Memory, nowMs: nat, userId: string)
    ensures VerifySession(token, secret, mem, nowMs) == Some(userId) <==>
              exists p: Payload ::
                && token == Sealed(p, secret) && p.userId == userId && |secret| >= 16 && p.exp > nowMs / 1000
                && mem.loaded && !IsLoggedOut(p, secret, mem, nowMs) && !IsCutOff(p, mem)
  {
    if VerifySession(token, secret, mem, nowMs) == Some(userId) {
      var p := SignedSessionPayload(token, secret).value;
      assert token == Sealed(p, secret);
      KeysOf(p, secret, mem, nowMs);
    }
    forall p: Payload | token == Sealed(p, secret) { KeysOf(p, secret, mem, nowMs); }
  }

  // The keys that the store looks up are those of the cookie.
  lemma KeysOf(p: Payload, secret: string, mem: Memory, nowMs: nat)
    ensures (exists key :: key in LookupKeys(Sealed(p, secret)) && mem.Holds(key, nowMs)) <==>
              IsLoggedOut(p, secret, mem, nowMs)
  {
    var token := Sealed(p, secret);
    assert Sha256(Hmac(secret, Encoded(p))) in LookupKeys(token);
    if p.sid.Some? && IsHex64(p.sid.value) {
      assert p.sid.value in LookupKeys(token) && Sha256(p.sid.value) in LookupKeys(token);
    }
  }

  // Ending all sessions of a user, or one by the hash of its id, acts at once, with a database or without.
  lemma RevocationActsAtOnce(p: Payload, secret: string, mem: Memory, nowMs: nat, epoch: nat, until: nat)
    ensures p.userId != "" && (p.iat.None? || p.iat.value * 1000 < epoch) ==>
              VerifySession(Sealed(p, secret), secret, mem.RevokeUser(p.userId, epoch), nowMs) == None
    ensures p.sid.Some? && IsHex64(p.sid.value) && nowMs <= until ==>
              VerifySession(Sealed(p, secret), secret, mem.RevokeHash(Sha256(p.sid.value), until), nowMs) == None
  {
    hide VerifySession;
    AcceptedMeans(p, secret, mem.RevokeUser(p.userId, epoch), nowMs);
    if p.sid.Some? { AcceptedMeans(p, secret, mem.RevokeHash(Sha256(p.sid.value), until), nowMs); }
  }

  // It brings no session back.
  lemma RevocationReadmitsNone(p: Payload, secret: string, mem: Memory, nowMs: nat, userId: string, epoch: nat,
                               key: Text, until: nat)
    requires VerifySession(Sealed(p, secret), secret, mem, nowMs) == None
    ensures VerifySession(Sealed(p, secret), secret, mem.RevokeUser(userId, epoch), nowMs) == None
    ensures VerifySession(Sealed(p, secret), secret, mem.RevokeHash(key, until), nowMs) == None
  {
    hide VerifySession;
    AcceptedMeans(p, secret, mem, nowMs);
    AcceptedMeans(p, secret, mem.RevokeUser(userId, epoch), nowMs);
    AcceptedMeans(p, secret, mem.RevokeHash(key, until), nowMs);
  }

  lemma AcceptedMeans(p: Payload, secret: string, mem: Memory, nowMs: nat)
    ensures VerifySession(Sealed(p, secret), secret, mem, nowMs)
         == if |secret| >= 16 && p.exp > nowMs / 1000 && mem.loaded && !IsLoggedOut(p, secret, mem, nowMs)
               && !IsCutOff(p, mem)
            then Some(p.userId) else None
  {
    KeysOf(p, secret, mem, nowMs);
  }

  // ---------------------------------------------------------------- a session in use

  // What the client holds after a request: the renewed cookie, or the one it sent.
  function Carried(token: Token, secret: string, use: Renewal): Token {
    match RenewSessionIfDue(token, secret, use.nowMs, use.nonce)
    case Some(renewed) => renewed
    case None => token
  }

  function Held(token: Token, secret: string, uses: seq<Renewal>): Token {
    if uses == [] then token else Carried(Held(token, secret, uses[..|uses| - 1]), secret, uses[|uses| - 1])
  }

  function LastUse(loginMs: nat, uses: seq<Renewal>): nat {
    if uses == [] then loginMs else uses[|uses| - 1].nowMs
  }

  // Each use follows the one before within 15 days.
  ghost predicate IsUsed(loginMs: nat, uses: seq<Renewal>) {
    forall i :: 0 <= i < |uses| ==>
      var last := LastUse(loginMs, uses[..i]);
      last <= uses[i].nowMs && uses[i].nowMs / 1000 - last / 1000 < 15 * 24 * 60 * 60
  }

  // A cookie of the session that `userId` opened at `loginMs`, with 15 to 30 days left at `atMs`.
  ghost predicate IsFresh(p: Payload, userId: string, loginMs: nat, nonce: nat, atMs: nat) {
    && p.userId == userId && p.iat == Some(loginMs / 1000) && p.sid == Some(RandomHex(nonce)) && p.lc == None
    && p.sliding && p.app == None && 15 * 24 * 60 * 60 <= p.exp - atMs / 1000 <= 30 * 24 * 60 * 60
  }

  lemma {:induction false} UsedStaysFresh(userId: string, secret: string, loginMs: nat, nonce: nat,
                                          uses: seq<Renewal>) returns (p: Payload)
    requires userId != PROOF_OPERATOR && |secret| >= 16 && IsUsed(loginMs, uses)
    ensures var login := SignSession(userId, secret, loginMs, None, None, None, None, nonce);
      login.Some? && Held(login.value, secret, uses) == Sealed(p, secret)
    ensures IsFresh(p, userId, loginMs, nonce, LastUse(loginMs, uses))
    decreases |uses|
  {
    hide SignSession, Carried, IsFresh;
    p := LoginIsFresh(userId, secret, loginMs, nonce);
    if uses != [] {
      var n := |uses| - 1;
      forall i | 0 <= i < n ensures uses[..n][..i] == uses[..i] {}
      var q := UsedStaysFresh(userId, secret, loginMs, nonce, uses[..n]);
      p := UseStaysFresh(q, userId, secret, loginMs, nonce, LastUse(loginMs, uses[..n]), uses[n]);
    }
  }

  lemma LoginIsFresh(userId: string, secret: string, loginMs: nat, nonce: nat) returns (p: Payload)
    requires userId != PROOF_OPERATOR && |secret| >= 16
    ensures SignSession(userId, secret, loginMs, None, None, None, None, nonce) == Some(Sealed(p, secret))
    ensures IsFresh(p, userId, loginMs, nonce, loginMs)
  {
    p := SignSession(userId, secret, loginMs, None, None, None, None, nonce).value.segments[0].payload;
  }

  lemma UseStaysFresh(q: Payload, userId: string, secret: string, loginMs: nat, nonce: nat, lastMs: nat, use: Renewal)
    returns (p: Payload)
    requires userId != PROOF_OPERATOR && |secret| >= 16 && IsFresh(q, userId, loginMs, nonce, lastMs)
    requires lastMs <= use.nowMs && use.nowMs / 1000 - lastMs / 1000 < 15 * 24 * 60 * 60
    ensures Carried(Sealed(q, secret), secret, use) == Sealed(p, secret)
    ensures IsFresh(p, userId, loginMs, nonce, use.nowMs)
  {
    p := Carried(Sealed(q, secret), secret, use).segments[0].payload;
  }

  // Main result: a session that is used within every 15 days is accepted as the user who logged in, for ever, unless a
  // revocation of its cookie, its id or its user since the login ends it. Left unused for 30 days it has ended.
  lemma UsedSessionLives(userId: string, secret: string, loginMs: nat, nonce: nat, uses: seq<Renewal>, mem: Memory,
                         nowMs: nat)
    requires userId != PROOF_OPERATOR && |secret| >= 16 && IsUsed(loginMs, uses)
    requires LastUse(loginMs, uses) <= nowMs
    ensures var login := SignSession(userId, secret, loginMs, None, None, None, None, nonce);
      login.Some? &&
      var held := Held(login.value, secret, uses);
      var idle := nowMs / 1000 - LastUse(loginMs, uses) / 1000;
      && |held.segments| == 2
      && (idle < 15 * 24 * 60 * 60 ==>
            (VerifySession(held, secret, mem, nowMs) == Some(userId) <==>
               && mem.loaded
               && (forall key <- {Sha256(held.segments[1]), RandomHex(nonce), Sha256(RandomHex(nonce))} ::
                     key in mem.revoked ==> mem.revoked[key] < nowMs)
               && (userId != "" && userId in mem.epochs ==> mem.epochs[userId] <= loginMs / 1000 * 1000)))
      && (idle >= 30 * 24 * 60 * 60 ==> VerifySession(held, secret, mem, nowMs) == None)
  {
    hide SignSession, VerifySession, Held;
    var login := SignSession(userId, secret, loginMs, None, None, None, None, nonce);
    var p := UsedStaysFresh(userId, secret, loginMs, nonce, uses);
    var held := Held(login.value, secret, uses);
    assert held.segments[1] == Hmac(secret, Encoded(p));
    AcceptedIff(held, secret, mem, nowMs, userId);
    AcceptedAsOwner(p, secret, mem, nowMs);
  }

  // Another user's name or an expired cookie is never what is answered.
  lemma AcceptedAsOwner(p: Payload, secret: string, mem: Memory, nowMs: nat)
    ensures VerifySession(Sealed(p, secret), secret, mem, nowMs) in {None, Some(p.userId)}
    ensures p.exp <= nowMs / 1000 ==> VerifySession(Sealed(p, secret), secret, mem, nowMs) == None
  {}

  // Any accepted copy is accepted as the user of the first.
  lemma {:induction false} CopiesAreOneUser(copies: seq<Token>, renewals: seq<Renewal>, secret: string, i: nat,
                                            mem: Memory, nowMs: nat)
    requires IsChain(copies, renewals, secret) && i < |copies| && SignedSessionPayload(copies[0], secret).Some?
    ensures SignedSessionPayload(copies[i], secret).Some?
    ensures VerifySession(copies[i], secret, mem, nowMs)
            in {None, Some(SignedSessionPayload(copies[0], secret).value.userId)}
    ensures SignedSessionPayload(copies[i], secret).value.userId
            == SignedSessionPayload(copies[0], secret).value.userId
  {
    if i > 0 {
      CopiesAreOneUser(copies, renewals, secret, i - 1, mem, nowMs);
      assert RenewSessionIfDue(copies[i - 1], secret, renewals[i - 1].nowMs, renewals[i - 1].nonce) == Some(copies[i]);
    }
  }

  // ---------------------------------------------------------------- sessions that are not stretched, and older ones

  // A device session, one of at most 12 hours, or a proof operator's.
  predicate IsFixed(p: Payload) {
    || (p.app.Some? && p.app.value != "")
    || (!p.sliding && p.iat.Some? && p.exp - p.iat.value <= 12 * 60 * 60)
    || p.userId == "user:operator-proof"
  }

  // However it is used, such a session keeps its cookie and ends when that expires.
  lemma {:induction false} FixedSessionEnds(p: Payload, secret: string, uses: seq<Renewal>, mem: Memory, nowMs: nat)
    requires IsFixed(p)
    ensures Held(Sealed(p, secret), secret, uses) == Sealed(p, secret)
    ensures p.exp <= nowMs / 1000 ==> VerifySession(Held(Sealed(p, secret), secret, uses), secret, mem, nowMs) == None
    decreases |uses|
  {
    if uses != [] { FixedSessionEnds(p, secret, uses[..|uses| - 1], mem, nowMs); }
  }

  // An older cookie that is neither moves to the sliding 30 days at its next use, under its own revocation key.
  lemma OlderCookieMoves(p: Payload, secret: string, use: Renewal)
    requires !p.sliding && !IsFixed(p) && |secret| >= 16 && p.exp > use.nowMs / 1000
    ensures exists q: Payload ::
              && Carried(Sealed(p, secret), secret, use) == Sealed(q, secret)
              && q.sliding && q.exp == use.nowMs / 1000 + 30 * 24 * 60 * 60 && q.userId == p.userId && q.app == None
              && q.iat == (if p.iat.Some? then p.iat else Some(use.nowMs / 1000))
              && q.sid == Some(Sha256(Hmac(secret, Encoded(p))))
              && q.lc == Some(Hmac(secret, CsrfOfToken(Sealed(p, secret))))
  {
    var q := Carried(Sealed(p, secret), secret, use).segments[0].payload;
    assert Carried(Sealed(p, secret), secret, use) == Sealed(q, secret);
  }

  // Exactly these cookies are due: sliding ones with less than 15 of their 30 days left, and older ones that are
  // neither a device's nor short.
  lemma RenewedIff(p: Payload, secret: string, use: Renewal)
    ensures RenewSessionIfDue(Sealed(p, secret), secret, use.nowMs, use.nonce).Some? <==>
              && |secret| >= 16 && !IsFixed(p) && p.exp > use.nowMs / 1000
              && (p.sliding ==> p.exp < use.nowMs / 1000 + 15 * 24 * 60 * 60)
  {}

  // ---------------------------------------------------------------- CSRF tokens are bound to their session

  // Main result: a cookie accepts the CSRF token made from a cookie exactly when that is the same one, or one of the
  // same user's sliding session, or its own carries that token; no other session's.
  lemma CsrfAcceptedIff(p: Payload, q: Payload, secret: string)
    requires |secret| >= 16
    ensures var csrf := CreateCsrfToken(Sealed(p, secret), secret);
      && csrf.Some?
      && (VerifyCsrfToken(Sealed(q, secret), csrf.value, secret) <==>
            || p == q || q.lc == csrf
            || (p.sliding && q.sliding && p.userId == q.userId && p.iat.Some? && p.iat == q.iat))
  {}

  // The token that older versions made from the cookie itself is accepted with that cookie and where it is carried.
  lemma OlderCsrfAcceptedIff(p: Payload, q: Payload, secret: string)
    requires |secret| >= 16
    ensures var csrf := Hmac(secret, CsrfOfToken(Sealed(p, secret)));
      VerifyCsrfToken(Sealed(q, secret), csrf, secret) <==> p == q || q.lc == Some(csrf)
  {}

  lemma NoCsrfWithoutSecret(token: Token, secret: string, submitted: Text)
    requires |secret| < 16 || IsBlank(token)
    ensures !VerifyCsrfToken(token, submitted, secret)
  {}
}
