// What the revocation protocol refuses: every resolved revocation again after a reload, everything while a load is
// pending, and nothing that was never revoked.

module RevocationRefusal {
  import opened Options
  import opened Tokens
  import opened Revocation
  import opened RevocationProtocol

  ghost predicate Backs<K(!new)>(m: map<K, nat>, e: Entry<K>) {
    e.key in m && e.until <= m[e.key]
  }

  ghost predicate Listed<K(!new)>(rows: seq<Entry<K>>, e: Entry<K>) {
    exists r :: r in rows && r.key == e.key && e.until <= r.until
  }

  // revokeToken overwrites the stored expiry of its keys, so a standing one must not be larger.
  ghost predicate NoLowering(m: Memory, token: Token, until: nat, now: nat) {
    forall k <- RevocationKeys(token) :: k in m.revoked && now <= m.revoked[k] ==> m.revoked[k] <= until
  }

  // Exactly then does revokeToken keep every refusal that stands.
  lemma RevokeKeepsRefusalsIff(m: Memory, token: Token, until: nat, now: nat)
    ensures NoLowering(m, token, until, now) <==>
            forall k, t: nat :: now <= t && m.Holds(k, t) ==> m.Revoke(token, until).Holds(k, t)
  {
    if !NoLowering(m, token, until, now) {
      var k :| k in RevocationKeys(token) && k in m.revoked && now <= m.revoked[k] && until < m.revoked[k];
      assert m.Holds(k, m.revoked[k]) && !m.Revoke(token, until).Holds(k, m.revoked[k]);
    } else {
      forall k, t: nat | now <= t && m.Holds(k, t)
        ensures m.Revoke(token, until).Holds(k, t)
      {
        if k in RevocationKeys(token) { assert m.revoked[k] <= until; }
      }
    }
  }

  ghost predicate Raising(s: System, e: Event) {
    e.RevokeToken? ==> NoLowering(s.mem, e.token, ExpiryOrDefault(e.expiry, s.now), s.now)
  }

  ghost predicate AllRaising(from: System, events: seq<Event>)
    decreases |events|
  {
    events != [] && Enabled(from, events[0]) ==>
      Raising(from, events[0]) && AllRaising(Next(from, events[0]), events[1..])
  }

  lemma {:induction false} RaiseAllKeeps<K(!new)>(m: map<K, nat>, rows: seq<Entry<K>>)
    ensures forall k <- m :: Backs(RaiseAll(m, rows), Entry(k, m[k]))
    ensures forall e <- rows :: Backs(RaiseAll(m, rows), e)
    ensures forall k <- RaiseAll(m, rows) ::
              (k in m && RaiseAll(m, rows)[k] == m[k]) || Entry(k, RaiseAll(m, rows)[k]) in rows
              || (RaiseAll(m, rows)[k] == 0 && Listed(rows, Entry(k, 0)))
  {
    if rows != [] {
      var front, last := rows[..|rows| - 1], rows[|rows| - 1];
      RaiseAllKeeps(m, front);
      var mid := RaiseAll(m, front);
      assert RaiseAll(m, rows) == Raise(mid, last.key, last.until);
      forall e | e in rows ensures Backs(RaiseAll(m, rows), e) {
        assert e in front || e == last;
      }
      forall k | k in RaiseAll(m, rows)
        ensures (k in m && RaiseAll(m, rows)[k] == m[k]) || Entry(k, RaiseAll(m, rows)[k]) in rows
                || (RaiseAll(m, rows)[k] == 0 && Listed(rows, Entry(k, 0)))
      {
        if k == last.key { assert last in rows; }
      }
    }
  }

  // ---------------------------------------------------------------- refusals are kept

  ghost predicate MemoryInv(s: System) {
    && (forall e <- s.sigs.requested :: s.now < e.until ==> Backs(s.mem.revoked, e))
    && (forall l <- s.loads :: l.Read? ==> forall e <- s.sigs.inherited :: s.now < e.until ==> Listed(l.signatures, e))
    && (forall l <- s.loads :: l.Pending? ==> l.since <= s.now)
    && (s.mem.attached && s.mem.loaded ==> forall e <- s.sigs.inherited :: s.now < e.until ==> Backs(s.mem.revoked, e))
  }

  ghost predicate UserMemoryInv(s: System) {
    && (forall e <- s.users.requested :: Backs(s.mem.epochs, e))
    && (forall l <- s.loads :: l.Read? ==> forall e <- s.users.inherited :: Listed(l.userEpochs, e))
    && (s.mem.attached && s.mem.loaded ==> forall e <- s.users.inherited :: Backs(s.mem.epochs, e))
  }

  lemma RevokeSets(m: Memory, token: Token, until: nat)
    ensures var keys, next := RevocationKeys(token), m.Revoke(token, until);
      && next == m.(revoked := next.revoked)
      && (forall k :: k in next.revoked <==> k in m.revoked || k in keys)
      && forall k <- next.revoked :: next.revoked[k] == if k in keys then until else m.revoked[k]
  {
    hide SessionIdOf, IsBlank, TokenSignatureHash;
  }

  lemma RevokeAsks(s: System, e: Event)
    requires e.RevokeToken?
    ensures var until, next := ExpiryOrDefault(e.expiry, s.now), Next(s, e);
      && next.mem == s.mem.Revoke(e.token, until) && next.loads == s.loads && next.now == s.now
      && next.sigs.inherited == s.sigs.inherited
      && forall r <- next.sigs.requested ::
           r in s.sigs.requested || (r.key in RevocationKeys(e.token) && r.until == until)
  {
    hide RevocationKeys, Memory.Revoke, ExpiryOrDefault;
  }

  lemma RevokeTokenKeepsMemory(s: System, e: Event)
    requires MemoryInv(s) && e.RevokeToken? && Raising(s, e)
    ensures MemoryInv(Next(s, e))
  {
    hide Next, RevocationKeys, Memory.Revoke, ExpiryOrDefault;
    var until := ExpiryOrDefault(e.expiry, s.now);
    var next := Next(s, e);
    RevokeAsks(s, e);
    RevokeSets(s.mem, e.token, until);
    forall k, v: nat | s.now < v && Backs(s.mem.revoked, Entry(k, v)) ensures Backs(next.mem.revoked, Entry(k, v)) {
      if k in RevocationKeys(e.token) { assert s.mem.revoked[k] <= until; }
    }
  }

  // What the journal invariant says of the rows a load will read.
  ghost predicate InheritedStored(s: System) {
    && (forall e <- s.sigs.inherited :: s.now < e.until ==> s.sigs.Stored(e))
    && (forall e <- s.users.inherited :: s.users.Stored(e))
  }

  lemma InvStoresInherited(s: System)
    requires Inv(s)
    ensures InheritedStored(s)
  {}

  lemma LoadReadKeepsMemory(s: System, e: Event)
    requires MemoryInv(s) && InheritedStored(s) && e.LoadRead? && Enabled(s, e)
    ensures MemoryInv(Next(s, e))
  {
    assert s.loads[e.load] in s.loads;
    forall r | r in s.sigs.inherited && s.now < r.until
      ensures Listed(e.signatures, r)
    {
      assert s.sigs.Stored(r);
      assert Entry(r.key, s.sigs.durable[r.key]) in e.signatures;
    }
    forall l | l in Next(s, e).loads ensures l in s.loads || l == Read(e.signatures, e.userEpochs) {}
  }

  lemma LoadReadKeepsUserMemory(s: System, e: Event)
    requires UserMemoryInv(s) && InheritedStored(s) && e.LoadRead? && Enabled(s, e)
    ensures UserMemoryInv(Next(s, e))
  {
    forall r | r in s.users.inherited
      ensures Listed(e.userEpochs, r)
    {
      assert s.users.Stored(r);
      assert Entry(r.key, s.users.durable[r.key]) in e.userEpochs;
    }
    forall l | l in Next(s, e).loads ensures l in s.loads || l == Read(e.signatures, e.userEpochs) {}
  }

  lemma RaiseAllBacks<K(!new)>(m: map<K, nat>, rows: seq<Entry<K>>, e: Entry<K>)
    requires Backs(m, e) || Listed(rows, e)
    ensures Backs(RaiseAll(m, rows), e)
  {
    RaiseAllKeeps(m, rows);
    if Backs(m, e) { assert Backs(RaiseAll(m, rows), Entry(e.key, m[e.key])); }
  }

  lemma LoadDoneKeepsMemory(s: System, e: Event)
    requires MemoryInv(s) && e.LoadDone? && Enabled(s, e)
    ensures MemoryInv(Next(s, e))
  {
    var l := s.loads[e.load];
    assert l in s.loads;
    forall r: Entry<Text> | Backs(s.mem.revoked, r) || Listed(l.signatures, r)
      ensures Backs(Next(s, e).mem.revoked, r)
    {
      RaiseAllBacks(s.mem.revoked, l.signatures, r);
    }
    forall other | other in Next(s, e).loads ensures other in s.loads {}
  }

  lemma LoadDoneKeepsUserMemory(s: System, e: Event)
    requires UserMemoryInv(s) && e.LoadDone? && Enabled(s, e)
    ensures UserMemoryInv(Next(s, e))
  {
    var l := s.loads[e.load];
    assert l in s.loads;
    forall r: Entry<string> | Backs(s.mem.epochs, r) || Listed(l.userEpochs, r)
      ensures Backs(Next(s, e).mem.epochs, r)
    {
      RaiseAllBacks(s.mem.epochs, l.userEpochs, r);
    }
    forall other | other in Next(s, e).loads ensures other in s.loads {}
  }

  // Writes in flight change neither what is refused nor what was requested.
  lemma WriteChangesNoMemory(s: System, e: Event)
    requires Enabled(s, e) && (IsSignatureWrite(e) || IsUserWrite(e))
    ensures var next := Next(s, e);
      && next.mem.revoked == s.mem.revoked && next.mem.epochs == s.mem.epochs
      && next.mem.attached == s.mem.attached && next.mem.loaded == s.mem.loaded
      && next.loads == s.loads && next.now == s.now
      && next.sigs.requested == s.sigs.requested && next.sigs.inherited == s.sigs.inherited
      && next.sigs.asked == s.sigs.asked
      && next.users.requested == s.users.requested && next.users.inherited == s.users.inherited
      && next.users.asked == s.users.asked
  {}

  lemma WriteKeepsMemory(s: System, e: Event)
    requires Enabled(s, e) && (IsSignatureWrite(e) || IsUserWrite(e))
    ensures MemoryInv(s) ==> MemoryInv(Next(s, e))
    ensures UserMemoryInv(s) ==> UserMemoryInv(Next(s, e))
  {
    hide Next, Enabled, IsSignatureWrite, IsUserWrite;
    WriteChangesNoMemory(s, e);
  }

  // Neither a write nor a load nor the revocation of a token.
  predicate IsPlain(e: Event) {
    !IsSignatureWrite(e) && !IsUserWrite(e) && !e.RevokeToken? && !e.LoadRead? && !e.LoadDone?
  }

  lemma PlainKeepsMemory(s: System, e: Event)
    requires MemoryInv(s) && Enabled(s, e) && IsPlain(e)
    ensures MemoryInv(Next(s, e))
  {
    forall l | l in Next(s, e).loads ensures l in s.loads || l == Pending(s.now) {}
  }

  lemma PlainKeepsUserMemory(s: System, e: Event)
    requires UserMemoryInv(s) && Enabled(s, e) && (IsPlain(e) || e.RevokeToken?)
    ensures UserMemoryInv(Next(s, e))
  {
    hide EntriesFor, Memory.Revoke;
    if e.RevokeToken? { RevokeSets(s.mem, e.token, ExpiryOrDefault(e.expiry, s.now)); }
    forall l | l in Next(s, e).loads ensures l in s.loads || l == Pending(s.now) {}
  }

  lemma StepKeepsMemory(s: System, e: Event)
    requires MemoryInv(s) && InheritedStored(s) && Enabled(s, e) && Raising(s, e)
    ensures MemoryInv(Next(s, e))
  {
    hide InheritedStored, Raising, RowsOf, MemoryInv, Next, Enabled;
    if IsSignatureWrite(e) || IsUserWrite(e) {
      WriteKeepsMemory(s, e);
    } else if e.RevokeToken? {
      RevokeTokenKeepsMemory(s, e);
    } else if e.LoadRead? {
      LoadReadKeepsMemory(s, e);
    } else if e.LoadDone? {
      LoadDoneKeepsMemory(s, e);
    } else {
      PlainKeepsMemory(s, e);
    }
  }

  lemma StepKeepsUserMemory(s: System, e: Event)
    requires UserMemoryInv(s) && InheritedStored(s) && Enabled(s, e)
    ensures UserMemoryInv(Next(s, e))
  {
    hide InheritedStored, UserMemoryInv, Next, Enabled;
    if IsSignatureWrite(e) || IsUserWrite(e) {
      WriteKeepsMemory(s, e);
    } else if e.LoadRead? {
      LoadReadKeepsUserMemory(s, e);
    } else if e.LoadDone? {
      LoadDoneKeepsUserMemory(s, e);
    } else {
      PlainKeepsUserMemory(s, e);
    }
  }

  lemma {:induction false} RunKeepsMemory(from: System, events: seq<Event>, to: System)
    requires MemoryInv(from) && Inv(from) && IsRun(from, events, to) && AllRaising(from, events)
    ensures MemoryInv(to)
    decreases |events|
  {
    if events != [] {
      StepKeepsInv(from, events[0]);
      InvStoresInherited(from);
      StepKeepsMemory(from, events[0]);
      RunKeepsMemory(Next(from, events[0]), events[1..], to);
    }
  }

  lemma {:induction false} RunKeepsUserMemory(from: System, events: seq<Event>, to: System)
    requires UserMemoryInv(from) && Inv(from) && IsRun(from, events, to)
    ensures UserMemoryInv(to)
    decreases |events|
  {
    if events != [] {
      StepKeepsInv(from, events[0]);
      InvStoresInherited(from);
      StepKeepsUserMemory(from, events[0]);
      RunKeepsUserMemory(Next(from, events[0]), events[1..], to);
    }
  }

  // Main result: a revocation whose promise resolved, in this incarnation of the process or any earlier one, is refused
  // whenever persistence is attached and loaded, until it expires.
  lemma ResolvedIsRefused(events: seq<Event>, s: System, e: Entry<Text>, token: Token,
                          userId: Option<string>, issuedAtMs: Option<int>)
    requires IsRun(INITIAL, events, s) && AllRaising(INITIAL, events)
    requires s.mem.attached && s.mem.loaded
    requires e in s.sigs.resolved && s.now < e.until && e.key in LookupKeys(token)
    ensures s.mem.IsRevoked(token, s.now, userId, issuedAtMs)
  {
    RunKeepsMemory(INITIAL, events, s);
    RunKeepsInv(INITIAL, events, s);
    assert Backs(s.mem.revoked, e);
    assert s.mem.Holds(e.key, s.now);
  }

  // The same for a user cut off at an epoch; it needs no condition on the run.
  lemma ResolvedEpochIsRefused(events: seq<Event>, s: System, e: Entry<string>, token: Token, issuedAtMs: Option<int>)
    requires IsRun(INITIAL, events, s)
    requires s.mem.attached && s.mem.loaded
    requires e in s.users.resolved && e.key != "" && (issuedAtMs.None? || issuedAtMs.value < e.until)
    ensures s.mem.IsRevoked(token, s.now, Some(e.key), issuedAtMs)
  {
    RunKeepsUserMemory(INITIAL, events, s);
    RunKeepsInv(INITIAL, events, s);
    assert Backs(s.mem.epochs, e);
  }

  // ---------------------------------------------------------------- when no expiry is ever lowered

  // Callers pass no explicit expiry to revokeToken, and session hashes expire no later than a default revocation.
  ghost predicate DefaultExpiries(s: System, e: Event) {
    && (e.RevokeToken? ==> e.expiry.None?)
    && (e.RevokeSessionHash? ==> e.until <= s.now + DEFAULT_REVOCATION_MS)
  }

  ghost predicate AllDefault(from: System, events: seq<Event>)
    decreases |events|
  {
    events != [] && Enabled(from, events[0]) ==>
      DefaultExpiries(from, events[0]) && AllDefault(Next(from, events[0]), events[1..])
  }

  // Every entry anywhere stems from a request.
  ghost predicate Sourced(s: System) {
    && (forall k <- s.mem.revoked :: Entry(k, s.mem.revoked[k]) in s.sigs.asked)
    && (forall k <- s.mem.epochs :: Entry(k, s.mem.epochs[k]) in s.users.asked)
    && (forall l <- s.loads :: l.Read? ==>
          && (forall r <- l.signatures :: r in s.sigs.asked)
          && (forall r <- l.userEpochs :: r in s.users.asked))
  }

  lemma LoadDoneKeepsSourced(s: System, e: Event)
    requires Sourced(s) && e.LoadDone? && Enabled(s, e)
    ensures Sourced(Next(s, e))
  {
    var l := s.loads[e.load];
    assert l in s.loads;
    RaiseAllKeeps(s.mem.revoked, l.signatures);
    RaiseAllKeeps(s.mem.epochs, l.userEpochs);
    var next := Next(s, e);
    forall k | k in next.mem.revoked ensures Entry(k, next.mem.revoked[k]) in s.sigs.asked {
      if next.mem.revoked[k] == 0 && Listed(l.signatures, Entry(k, 0)) {
        var r :| r in l.signatures && r.key == k;
        assert Backs(next.mem.revoked, r);
      }
    }
    forall k | k in next.mem.epochs ensures Entry(k, next.mem.epochs[k]) in s.users.asked {
      if next.mem.epochs[k] == 0 && Listed(l.userEpochs, Entry(k, 0)) {
        var r :| r in l.userEpochs && r.key == k;
        assert Backs(next.mem.epochs, r);
      }
    }
    forall other | other in next.loads ensures other in s.loads {}
  }

  lemma RequestKeepsSourced(s: System, e: Event)
    requires Sourced(s) && IsRequest(e)
    ensures Sourced(Next(s, e))
  {
    if e.RevokeToken? {
      var until := ExpiryOrDefault(e.expiry, s.now);
      var entries, keys := EntriesFor(e.token, until), RevocationKeys(e.token);
      forall i | 0 <= i < |keys|
        ensures Entry(keys[i], until) in Next(s, e).sigs.asked
      {
        assert entries[i] in entries;
      }
      forall k | k in Next(s, e).mem.revoked
        ensures Entry(k, Next(s, e).mem.revoked[k]) in Next(s, e).sigs.asked
      {
        if k in keys { var i :| 0 <= i < |keys| && keys[i] == k; }
      }
    }
  }

  lemma StepKeepsSourced(s: System, e: Event)
    requires Sourced(s) && Inv(s) && Enabled(s, e)
    ensures Sourced(Next(s, e))
  {
    if IsSignatureWrite(e) || IsUserWrite(e) {
      WriteChangesNoMemory(s, e);
    } else if IsRequest(e) {
      RequestKeepsSourced(s, e);
    } else if e.LoadRead? {
      forall l | l in Next(s, e).loads ensures l in s.loads || l == Read(e.signatures, e.userEpochs) {}
    } else if e.LoadDone? {
      LoadDoneKeepsSourced(s, e);
    } else {
      forall l | l in Next(s, e).loads ensures l in s.loads || l == Pending(s.now) {}
    }
  }

  lemma {:induction false} RunKeepsSourced(from: System, events: seq<Event>, to: System)
    requires Sourced(from) && Inv(from) && IsRun(from, events, to)
    ensures Sourced(to)
    decreases |events|
  {
    if events != [] {
      StepKeepsInv(from, events[0]);
      StepKeepsSourced(from, events[0]);
      RunKeepsSourced(Next(from, events[0]), events[1..], to);
    }
  }

  // A loaded store refuses only what was revoked: some request names one of the token's keys and has not expired, or
  // some request cut the user off.
  lemma RefusedOnlyIfRequested(events: seq<Event>, s: System, token: Token, userId: Option<string>,
                               issuedAtMs: Option<int>)
    requires IsRun(INITIAL, events, s)
    requires !IsBlank(token) && s.mem.loaded && s.mem.IsRevoked(token, s.now, userId, issuedAtMs)
    ensures (exists e :: e in s.sigs.asked && e.key in LookupKeys(token) && s.now <= e.until)
         || (userId.Some? && exists e :: e in s.users.asked && e.key == userId.value
                                         && (issuedAtMs.None? || issuedAtMs.value < e.until))
  {
    RunKeepsSourced(INITIAL, events, s);
    if key :| key in LookupKeys(token) && s.mem.Holds(key, s.now) {
      assert Entry(key, s.mem.revoked[key]) in s.sigs.asked;
    } else {
      assert Entry(userId.value, s.mem.epochs[userId.value]) in s.users.asked;
    }
  }

  // With default expiries the stored one is never lowered, so the guarantees above hold without further conditions.
  lemma {:induction false} DefaultRunsRaise(from: System, events: seq<Event>, to: System)
    requires IsRun(from, events, to) && AllDefault(from, events) && Inv(from) && Sourced(from)
    requires forall e <- from.sigs.asked :: e.until <= from.now + DEFAULT_REVOCATION_MS
    ensures AllRaising(from, events)
    ensures forall e <- to.sigs.asked :: e.until <= to.now + DEFAULT_REVOCATION_MS
    decreases |events|
  {
    if events != [] {
      StepKeepsInv(from, events[0]);
      StepKeepsSourced(from, events[0]);
      DefaultStep(from, events[0]);
      DefaultRunsRaise(Next(from, events[0]), events[1..], to);
    }
  }

  lemma DefaultStep(s: System, e: Event)
    requires Enabled(s, e) && DefaultExpiries(s, e) && Sourced(s)
    requires forall r <- s.sigs.asked :: r.until <= s.now + DEFAULT_REVOCATION_MS
    ensures Raising(s, e)
    ensures forall r <- Next(s, e).sigs.asked :: r.until <= Next(s, e).now + DEFAULT_REVOCATION_MS
  {
    if e.RevokeToken? {
      forall k | k in RevocationKeys(e.token) && k in s.mem.revoked
        ensures s.mem.revoked[k] <= s.now + DEFAULT_REVOCATION_MS
      {
        assert Entry(k, s.mem.revoked[k]) in s.sigs.asked;
      }
    }
  }

  // Without that condition the guarantee fails: revoking again with an earlier expiry re-admits the token before a
  // crash although the durable row still refuses it.
  lemma LoweredExpiryReadmits()
    ensures exists events, s, e, token ::
              && IsRun(INITIAL, events, s) && s.mem.attached && s.mem.loaded
              && e in s.sigs.resolved && s.now < e.until && e.key in LookupKeys(token)
              && s.sigs.Stored(e) && !s.mem.IsRevoked(token, s.now, None, None)
  {
    var token := Token([Plain("b"), Plain("s")]);
    var e := Entry(TokenSignatureHash(token), 1000);
    var loading, ready := LoadEmpty();
    var revoking, revoked := RevokeAndSave(ready, token);
    var lowering, lowered := LowerAndWait(revoked, token);
    RunAppend(INITIAL, loading, ready, revoking, revoked);
    RunAppend(INITIAL, loading + revoking, revoked, lowering, lowered);
    assert e in lowered.sigs.resolved && lowered.sigs.Stored(e) && e.key in LookupKeys(token);
  }

  lemma LoadEmpty() returns (events: seq<Event>, s: System)
    ensures IsRun(INITIAL, events, s)
    ensures s == INITIAL.(mem := FRESH_MEMORY.(attached := true))
  {
    var s1 := INITIAL.(mem := FRESH_MEMORY.BeginLoad(), loads := [Pending(0)]);
    var s2 := s1.(loads := [Read([], [])]);
    s := INITIAL.(mem := FRESH_MEMORY.(attached := true));
    assert Next(INITIAL, Attach) == s1;
    assert Next(s1, LoadRead(0, [], [])) == s2;
    assert Next(s2, LoadDone(0)) == s by {
      assert s2.loads[..0] + s2.loads[1..] == [];
      assert EmptyJournal<Text>().Sweep(map[]) == EmptyJournal();
      assert EmptyJournal<string>().Sweep(map[]) == EmptyJournal();
    }
    OneStep(s2, LoadDone(0), [], s);
    OneStep(s1, LoadRead(0, [], []), [LoadDone(0)] + [], s);
    OneStep(INITIAL, Attach, [LoadRead(0, [], [])] + ([LoadDone(0)] + []), s);
    events := [Attach] + ([LoadRead(0, [], [])] + ([LoadDone(0)] + []));
  }

  lemma RevokeAndSave(s: System, token: Token) returns (events: seq<Event>, to: System)
    requires s == INITIAL.(mem := FRESH_MEMORY.(attached := true))
    requires !IsBlank(token) && SessionIdOf(token).None?
    ensures IsRun(s, events, to)
    ensures to.mem == FRESH_MEMORY.(attached := true, revoked := map[TokenSignatureHash(token) := 1000]) && to.now == 0
    ensures to.sigs.durable == map[TokenSignatureHash(token) := 1000]
    ensures Entry(TokenSignatureHash(token), 1000) in to.sigs.resolved
  {
    var hash := TokenSignatureHash(token);
    var first := Event.RevokeToken(token, Some(1000));
    var s1 := Next(s, first);
    assert s1.sigs.writes == [Write(hash, 1000, false)];
    var s2 := Next(s1, Land(0));
    to := Next(s2, Saved(0));
    OneStep(s2, Saved(0), [], to);
    OneStep(s1, Land(0), [Saved(0)] + [], to);
    OneStep(s, first, [Land(0)] + ([Saved(0)] + []), to);
    events := [first] + ([Land(0)] + ([Saved(0)] + []));
  }

  lemma LowerAndWait(s: System, token: Token) returns (events: seq<Event>, to: System)
    requires s.mem == FRESH_MEMORY.(attached := true, revoked := map[TokenSignatureHash(token) := 1000]) && s.now == 0
    requires !IsBlank(token) && SessionIdOf(token).None?
    ensures IsRun(s, events, to)
    ensures to.mem.attached && to.mem.loaded && to.now == 2 && !to.mem.IsRevoked(token, to.now, None, None)
    ensures to.sigs.durable == s.sigs.durable && to.sigs.resolved == s.sigs.resolved
  {
    var second := Event.RevokeToken(token, Some(1));
    var s1 := Next(s, second);
    to := Next(s1, Tick(2));
    assert LookupKeys(token) == {TokenSignatureHash(token)} && s1.mem.revoked == map[TokenSignatureHash(token) := 1];
    OneStep(s1, Tick(2), [], to);
    OneStep(s, second, [Tick(2)] + [], to);
    events := [second] + ([Tick(2)] + []);
  }

  lemma {:induction false} RunAppend(a: System, first: seq<Event>, b: System, second: seq<Event>, c: System)
    requires IsRun(a, first, b) && IsRun(b, second, c)
    ensures IsRun(a, first + second, c)
    decreases |first|
  {
    if first == [] {
      assert first + second == second;
    } else {
      assert (first + second)[1..] == first[1..] + second;
      RunAppend(Next(a, first[0]), first[1..], b, second, c);
    }
  }

  lemma OneStep(s: System, e: Event, rest: seq<Event>, to: System)
    requires Enabled(s, e) && IsRun(Next(s, e), rest, to)
    ensures IsRun(s, [e] + rest, to)
  {
    assert ([e] + rest)[1..] == rest;
  }

  // ---------------------------------------------------------------- fail closed

  // From the start of a load until it succeeds, persistence is detached or the process restarts, every token is
  // refused, also when the load fails.
  lemma RefusedWhileLoading(s: System, events: seq<Event>, to: System, token: Token, userId: Option<string>,
                            issuedAtMs: Option<int>)
    requires Enabled(s, Attach) && IsRun(Next(s, Attach), events, to)
    requires forall e <- events :: !e.LoadDone? && !e.Detach? && !e.Crash?
    ensures to.mem.IsRevoked(token, to.now, userId, issuedAtMs)
  {
    StaysUnloaded(Next(s, Attach), events, to);
  }

  lemma {:induction false} StaysUnloaded(s: System, events: seq<Event>, to: System)
    requires !s.mem.loaded && IsRun(s, events, to)
    requires forall e <- events :: !e.LoadDone? && !e.Detach? && !e.Crash?
    ensures !to.mem.loaded
    decreases |events|
  {
    if events != [] {
      assert events[0] in events;
      StaysUnloaded(Next(s, events[0]), events[1..], to);
    }
  }
}
