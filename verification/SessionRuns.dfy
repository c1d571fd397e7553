// A session's cookies inside the revocation protocol: logging out one copy ends the session for good.

module SessionRuns {
  import opened Options
  import opened Tokens
  import opened Revocation
  import opened RevocationProtocol
  import opened RevocationRefusal
  import opened Sessions

  // All copies of one session's cookie that were ever issued.
  datatype World = World(sys: System, copies: set<Token>)

  datatype SessionEvent =
    | Protocol(event: Event)
    | Renew(copy: Token, nonce: nat)
    | Restart  // the process crashes; the server attaches persistence before it serves again

  // A cookie is renewed only when it was just accepted.
  ghost predicate CanHappen(w: World, secret: string, e: SessionEvent) {
    match e
    case Protocol(event) => Enabled(w.sys, event) && !event.Crash?
    case Renew(copy, nonce) =>
      && copy in w.copies
      && VerifySession(copy, secret, w.sys.mem, w.sys.now).Some?
      && RenewSessionIfDue(copy, secret, w.sys.now, nonce).Some?
    case Restart => true
  }

  ghost predicate Possible(w: World, secret: string, e: SessionEvent) {
    CanHappen(w, secret, e) && (e.Protocol? ==> Raising(w.sys, e.event))
  }

  function After(w: World, secret: string, e: SessionEvent): World
    requires CanHappen(w, secret, e)
  {
    match e
    case Protocol(event) => w.(sys := Next(w.sys, event))
    case Renew(copy, nonce) => w.(copies := w.copies + {RenewSessionIfDue(copy, secret, w.sys.now, nonce).value})
    case Restart => w.(sys := Next(Next(w.sys, Crash), Attach))
  }

  ghost predicate IsSessionRun(from: World, secret: string, events: seq<SessionEvent>, to: World)
    decreases |events|
  {
    if events == [] then from == to
    else Possible(from, secret, events[0]) && IsSessionRun(After(from, secret, events[0]), secret, events[1..], to)
  }

  function LogIn(s: System, userId: string, secret: string, nonce: nat): Option<Token> {
    SignSession(userId, secret, s.now, None, None, None, None, nonce)
  }

  // Every copy shares `key` and expires within the sliding lifetime.
  ghost predicate SlidingFamily(w: World, secret: string, key: Text) {
    forall c <- w.copies ::
      InFamily(c, secret, key) && c.segments[0].payload.exp <= Seconds(w.sys.now) + PERSISTENT_TTL_SECONDS
  }

  lemma TimePasses(w: World, secret: string, e: SessionEvent)
    requires CanHappen(w, secret, e)
    ensures Seconds(w.sys.now) <= Seconds(After(w, secret, e).sys.now)
  {
    hide VerifySession, RenewSessionIfDue;
  }

  lemma {:induction false} RunKeepsSlidingFamily(from: World, secret: string, events: seq<SessionEvent>, to: World,
                                                 key: Text)
    requires SlidingFamily(from, secret, key) && IsSessionRun(from, secret, events, to)
    ensures SlidingFamily(to, secret, key)
    decreases |events|
  {
    hide InFamily, VerifySession, RenewSessionIfDue, Raising, Next, Enabled, Seconds;
    if events != [] {
      var e := events[0];
      if e.Renew? { RenewalStaysInFamily(e.copy, secret, from.sys.now, e.nonce, key); }
      TimePasses(from, secret, e);
      RunKeepsSlidingFamily(After(from, secret, e), secret, events[1..], to, key);
    }
  }

  // A family that a revocation of `key` through `until` has ended: no copy outlives the revocation.
  ghost predicate Outlived(w: World, secret: string, key: Text, until: nat) {
    forall c <- w.copies :: InFamily(c, secret, key) && c.segments[0].payload.exp * 1000 <= until
  }

  lemma OutlivedIsRefused(w: World, secret: string, key: Text, until: nat, c: Token)
    requires Outlived(w, secret, key, until) && c in w.copies
    requires w.sys.now < until ==> Backs(w.sys.mem.revoked, Entry(key, until)) || !w.sys.mem.loaded
    ensures VerifySession(c, secret, w.sys.mem, w.sys.now) == None
  {
    if w.sys.now < until {
      FamilyKeysMeet(c, secret, key);
      assert w.sys.mem.loaded ==> w.sys.mem.Holds(key, w.sys.now);
    }
  }

  // ---------------------------------------------------------------- within one process

  lemma StepKeepsBacking(s: System, e: Event, r: Entry<Text>)
    requires Enabled(s, e) && Raising(s, e) && !e.Crash?
    requires s.now < r.until ==> Backs(s.mem.revoked, r)
    ensures Next(s, e).now < r.until ==> Backs(Next(s, e).mem.revoked, r)
  {
    hide RevocationKeys, Memory.Revoke, AskAndIssue, ExpiryOrDefault, RaiseAll;
    if s.now < r.until {
      if e.RevokeToken? { RevokeSets(s.mem, e.token, ExpiryOrDefault(e.expiry, s.now)); }
      if e.LoadDone? { RaiseAllBacks(s.mem.revoked, s.loads[e.load].signatures, r); }
    }
  }

  lemma {:induction false} EndedStaysEnded(from: World, secret: string, events: seq<SessionEvent>, to: World,
                                           key: Text, until: nat)
    requires IsSessionRun(from, secret, events, to) && Restart !in events
    requires Outlived(from, secret, key, until)
    requires from.sys.now < until ==> Backs(from.sys.mem.revoked, Entry(key, until))
    ensures forall c <- to.copies :: VerifySession(c, secret, to.sys.mem, to.sys.now) == None
    ensures to.copies == from.copies
    decreases |events|
  {
    if events == [] {
      forall c | c in to.copies { OutlivedIsRefused(to, secret, key, until, c); }
    } else {
      var e := events[0];
      assert e in events;
      if e.Renew? { OutlivedIsRefused(from, secret, key, until, e.copy); }
      StepKeepsBacking(from.sys, e.event, Entry(key, until));
      EndedStaysEnded(After(from, secret, e), secret, events[1..], to, key, until);
    }
  }

  // Main result: log in, renew any copies any number of times, log out with any one copy (the default revocation). In
  // every later state of the process no copy is accepted, and no further copy is ever issued.
  lemma LogoutEndsEveryCopy(s: System, userId: string, secret: string, nonce: nat, before: seq<SessionEvent>,
                            used: World, copy: Token, after: seq<SessionEvent>, later: World)
    requires LogIn(s, userId, secret, nonce).Some?
    requires IsSessionRun(World(s, {LogIn(s, userId, secret, nonce).value}), secret, before, used)
    requires copy in used.copies
    requires IsSessionRun(used.(sys := Next(used.sys, Event.RevokeToken(copy, None))), secret, after, later)
    requires Restart !in after
    ensures later.copies == used.copies
    ensures forall c <- later.copies :: VerifySession(c, secret, later.sys.mem, later.sys.now) == None
  {
    var root := LogIn(s, userId, secret, nonce).value;
    var key := RandomHex(nonce);
    assert InFamily(root, secret, key);
    RunKeepsSlidingFamily(World(s, {root}), secret, before, used, key);
    var ended := used.(sys := Next(used.sys, Event.RevokeToken(copy, None)));
    FamilyKeysMeet(copy, secret, key);
    EndedStaysEnded(ended, secret, after, later, key, used.sys.now + DEFAULT_REVOCATION_MS);
  }

  // ---------------------------------------------------------------- across restarts

  ghost predicate Serving(w: World, r: Entry<Text>) {
    Inv(w.sys) && MemoryInv(w.sys) && w.sys.mem.attached && r in w.sys.sigs.resolved
  }

  lemma ServingRefuses(w: World, secret: string, key: Text, until: nat, c: Token)
    requires Serving(w, Entry(key, until)) && Outlived(w, secret, key, until) && c in w.copies
    ensures VerifySession(c, secret, w.sys.mem, w.sys.now) == None
  {
    assert w.sys.mem.loaded && w.sys.now < until ==> Backs(w.sys.mem.revoked, Entry(key, until));
    OutlivedIsRefused(w, secret, key, until, c);
  }

  lemma ServingKept(w: World, secret: string, e: SessionEvent, r: Entry<Text>)
    requires Serving(w, r) && Possible(w, secret, e) && e != Protocol(Detach)
    ensures Serving(After(w, secret, e), r)
  {
    match e
    case Protocol(event) =>
      StepKeepsInv(w.sys, event);
      InvStoresInherited(w.sys);
      StepKeepsMemory(w.sys, event);
      ResolvedGrows(w.sys, event);
    case Renew(_, _) =>
    case Restart =>
      var crashed := Next(w.sys, Crash);
      StepKeepsInv(w.sys, Crash);
      InvStoresInherited(w.sys);
      StepKeepsMemory(w.sys, Crash);
      StepKeepsInv(crashed, Attach);
      InvStoresInherited(crashed);
      StepKeepsMemory(crashed, Attach);
  }

  lemma ResolvedGrows(s: System, e: Event)
    requires Enabled(s, e)
    ensures s.sigs.resolved <= Next(s, e).sigs.resolved
    ensures !e.Detach? && !e.Crash? && s.mem.attached ==> Next(s, e).mem.attached
  {}

  // Main result: once the logout's promise has resolved, no copy is accepted again in any later state, through any
  // number of crashes and reloads, and none is issued.
  lemma {:induction false} SavedLogoutSurvivesRestarts(from: World, secret: string, events: seq<SessionEvent>,
                                                       to: World, key: Text, until: nat)
    requires IsSessionRun(from, secret, events, to) && Protocol(Detach) !in events
    requires Serving(from, Entry(key, until)) && Outlived(from, secret, key, until)
    ensures to.copies == from.copies
    ensures forall c <- to.copies :: VerifySession(c, secret, to.sys.mem, to.sys.now) == None
    decreases |events|
  {
    if events == [] {
      forall c | c in to.copies { ServingRefuses(to, secret, key, until, c); }
    } else {
      var e := events[0];
      assert e in events;
      if e.Renew? { ServingRefuses(from, secret, key, until, e.copy); }
      ServingKept(from, secret, e, Entry(key, until));
      SavedLogoutSurvivesRestarts(After(from, secret, e), secret, events[1..], to, key, until);
    }
  }

  // ---------------------------------------------------------------- from login to logout and on

  // What holds along runs with default expiries.
  ghost predicate DefaultInv(s: System) {
    && Inv(s) && MemoryInv(s) && Sourced(s)
    && (forall e <- s.sigs.asked :: e.until <= s.now + DEFAULT_REVOCATION_MS)
  }

  lemma DefaultInvStep(s: System, e: Event)
    requires DefaultInv(s) && Enabled(s, e) && DefaultExpiries(s, e)
    ensures DefaultInv(Next(s, e)) && Raising(s, e)
  {
    hide Inv, MemoryInv, Sourced, Enabled, Next, Raising, DefaultExpiries, InheritedStored;
    DefaultStep(s, e);
    StepKeepsInv(s, e);
    InvStoresInherited(s);
    StepKeepsMemory(s, e);
    StepKeepsSourced(s, e);
  }

  lemma DefaultInvReached(events: seq<Event>, s: System)
    requires IsRun(INITIAL, events, s) && AllDefault(INITIAL, events)
    ensures DefaultInv(s)
  {
    DefaultRunsRaise(INITIAL, events, s);
    RunKeepsInv(INITIAL, events, s);
    RunKeepsMemory(INITIAL, events, s);
    RunKeepsSourced(INITIAL, events, s);
  }

  ghost predicate Usual(w: World, secret: string, e: SessionEvent) {
    CanHappen(w, secret, e) && (e.Protocol? ==> DefaultExpiries(w.sys, e.event))
  }

  // A session run with default expiries, which does not ask that no expiry is lowered.
  ghost predicate IsUsualRun(from: World, secret: string, events: seq<SessionEvent>, to: World)
    decreases |events|
  {
    if events == [] then from == to
    else Usual(from, secret, events[0]) && IsUsualRun(After(from, secret, events[0]), secret, events[1..], to)
  }

  lemma UsualStep(w: World, secret: string, e: SessionEvent)
    requires DefaultInv(w.sys) && Usual(w, secret, e)
    ensures Possible(w, secret, e) && DefaultInv(After(w, secret, e).sys)
  {
    hide DefaultInv, Raising, Next, DefaultExpiries;
    match e
    case Protocol(event) => DefaultInvStep(w.sys, event);
    case Renew(_, _) =>
    case Restart =>
      CrashAndAttach(w.sys);
      DefaultInvStep(w.sys, Crash);
      DefaultInvStep(Next(w.sys, Crash), Attach);
  }

  lemma CrashAndAttach(s: System)
    ensures Enabled(s, Crash) && DefaultExpiries(s, Crash)
    ensures Enabled(Next(s, Crash), Attach) && DefaultExpiries(Next(s, Crash), Attach)
  {}

  lemma {:induction false} UsualIsSessionRun(from: World, secret: string, events: seq<SessionEvent>, to: World)
    requires DefaultInv(from.sys) && IsUsualRun(from, secret, events, to)
    ensures IsSessionRun(from, secret, events, to) && DefaultInv(to.sys)
    decreases |events|
  {
    hide DefaultInv, CanHappen, DefaultExpiries, Raising, After;
    if events != [] {
      UsualStep(from, secret, events[0]);
      UsualIsSessionRun(After(from, secret, events[0]), secret, events[1..], to);
    }
  }

  function LoggedOut(w: World, copy: Token): World {
    w.(sys := Next(w.sys, Event.RevokeToken(copy, None)))
  }

  lemma LoggedOutKeepsInv(w: World, copy: Token)
    requires DefaultInv(w.sys)
    ensures DefaultInv(LoggedOut(w, copy).sys)
  {
    hide DefaultInv, Next;
    LogoutIsDefault(w.sys, copy);
    DefaultInvStep(w.sys, Event.RevokeToken(copy, None));
  }

  lemma LogoutIsDefault(s: System, copy: Token)
    ensures Enabled(s, Event.RevokeToken(copy, None)) && DefaultExpiries(s, Event.RevokeToken(copy, None))
  {}

  lemma LoginIsFamily(s: System, userId: string, secret: string, nonce: nat)
    requires LogIn(s, userId, secret, nonce).Some?
    ensures SlidingFamily(World(s, {LogIn(s, userId, secret, nonce).value}), secret, RandomHex(nonce))
  {}

  lemma FamilyIsOutlived(w: World, secret: string, key: Text, copy: Token)
    requires SlidingFamily(w, secret, key)
    ensures Outlived(LoggedOut(w, copy), secret, key, w.sys.now + DEFAULT_REVOCATION_MS)
  {}

  lemma LogoutHolds(w: World, copy: Token, key: Text)
    requires key in RevocationKeys(copy)
    ensures Backs(LoggedOut(w, copy).sys.mem.revoked, Entry(key, w.sys.now + DEFAULT_REVOCATION_MS))
    ensures LoggedOut(w, copy).copies == w.copies
  {
    hide RevocationKeys, Memory.Revoke;
    RevokeAsks(w.sys, Event.RevokeToken(copy, None));
    RevokeSets(w.sys.mem, copy, w.sys.now + DEFAULT_REVOCATION_MS);
  }

  lemma SavedServes(w: World, key: Text, until: nat)
    requires DefaultInv(w.sys) && w.sys.mem.attached && Entry(key, until) in w.sys.sigs.resolved
    ensures Serving(w, Entry(key, until))
  {}

  // Main result: on a server whose callers use default expiries, log in, renew any copies any number of times through
  // any restarts, and log out with any one copy. From the logout on no copy is accepted and none is issued in that
  // process, and once the logout's promise has resolved there, in any later state, through any crashes and reloads.
  lemma LogoutIsFinal(opening: seq<Event>, s: System, userId: string, secret: string, nonce: nat,
                      before: seq<SessionEvent>, used: World, copy: Token,
                      between: seq<SessionEvent>, saved: World, after: seq<SessionEvent>, to: World)
    requires IsRun(INITIAL, opening, s) && AllDefault(INITIAL, opening)
    requires LogIn(s, userId, secret, nonce).Some?
    requires IsUsualRun(World(s, {LogIn(s, userId, secret, nonce).value}), secret, before, used) && copy in used.copies
    requires IsUsualRun(LoggedOut(used, copy), secret, between, saved) && Restart !in between
    requires IsUsualRun(saved, secret, after, to) && Protocol(Detach) !in after
    requires saved.sys.mem.attached
    requires forall k <- RevocationKeys(copy) ::
               Entry(k, used.sys.now + DEFAULT_REVOCATION_MS) in saved.sys.sigs.resolved
    ensures saved.copies == used.copies && to.copies == used.copies
    ensures forall c <- saved.copies :: VerifySession(c, secret, saved.sys.mem, saved.sys.now) == None
    ensures forall c <- to.copies :: VerifySession(c, secret, to.sys.mem, to.sys.now) == None
  {
    hide SignSession, DefaultInv, IsUsualRun, IsSessionRun, SlidingFamily, Outlived, VerifySession, LoggedOut, Backs;
    hide Serving;
    hide LookupKeys, RevocationKeys, InFamily;
    var start := World(s, {LogIn(s, userId, secret, nonce).value});
    var key, until := RandomHex(nonce), used.sys.now + DEFAULT_REVOCATION_MS;
    DefaultInvReached(opening, s);
    UsualIsSessionRun(start, secret, before, used);
    LoginIsFamily(s, userId, secret, nonce);
    RunKeepsSlidingFamily(start, secret, before, used, key);
    LoggedOutKeepsInv(used, copy);
    UsualIsSessionRun(LoggedOut(used, copy), secret, between, saved);
    FamilyIsOutlived(used, secret, key, copy);
    CopyInFamily(used, secret, key, copy);
    FamilyKeysMeet(copy, secret, key);
    LogoutHolds(used, copy, key);
    EndedStaysEnded(LoggedOut(used, copy), secret, between, saved, key, until);
    OutlivedByCopies(LoggedOut(used, copy), saved, secret, key, until);
    SavedServes(saved, key, until);
    UsualIsSessionRun(saved, secret, after, to);
    SavedLogoutSurvivesRestarts(saved, secret, after, to, key, until);
  }

  lemma CopyInFamily(w: World, secret: string, key: Text, copy: Token)
    requires SlidingFamily(w, secret, key) && copy in w.copies
    ensures InFamily(copy, secret, key)
  {}

  lemma OutlivedByCopies(a: World, b: World, secret: string, key: Text, until: nat)
    requires Outlived(a, secret, key, until) && a.copies == b.copies
    ensures Outlived(b, secret, key, until)
  {}
}
