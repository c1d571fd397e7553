// The whole revocation protocol of apps/api/src/auth.ts: the store's memory, the durable table behind it, the writes in
// flight between the two, retries, loads and crashes, as a state machine over events. Every await is its own event.

module RevocationProtocol {
  import opened Numbers
  import opened Options
  import opened Tokens
  import opened Revocation

  // A durable write that has been started. `landed`: the database has it, the caller does not know yet.
  datatype Write<+K> = Write(key: K, until: nat, landed: bool)

  // One durable table with its traffic. The last four fields are history:
  //   asked      every revocation requested so far, in any incarnation of the process
  //   requested  those of this incarnation that were requested while persistence was attached
  //   resolved   those whose save promise resolved
  //   inherited  those that had resolved when this incarnation started
  datatype Journal<!K> = Journal(
    durable: map<K, nat>,
    writes: seq<Write<K>>,
    swept: set<Entry<K>>,
    asked: set<Entry<K>>,
    requested: set<Entry<K>>,
    resolved: set<Entry<K>>,
    inherited: set<Entry<K>>)
  {
    predicate Stored(e: Entry<K>) {
      e.key in durable && e.until <= durable[e.key]
    }

    ghost predicate InFlight(e: Entry<K>) {
      exists i :: 0 <= i < |writes| && writes[i].key == e.key && e.until <= writes[i].until
    }

    ghost predicate Covered(unsaved: map<K, nat>, e: Entry<K>) {
      || Stored(e)
      || (e.key in unsaved && e.until <= unsaved[e.key])
      || InFlight(e)
    }

    function Ask(entries: seq<Entry<K>>): Journal<K> {
      this.(asked := asked + set e | e in entries)
    }

    function Issue(entries: seq<Entry<K>>): Journal<K> {
      var started := seq(|entries|, i requires 0 <= i < |entries| => Write(entries[i].key, entries[i].until, false));
      this.(writes := writes + started, requested := requested + set e | e in entries)
    }

    function Reissue(e: Entry<K>): Journal<K> {
      this.(writes := writes + [Write(e.key, e.until, false)])
    }

    // The database upsert keeps the greater expiry.
    function Land(i: nat): Journal<K>
      requires i < |writes|
    {
      var w := writes[i];
      var stored := if w.key in durable then Max(durable[w.key], w.until) else w.until;
      this.(durable := durable[w.key := stored], writes := writes[i := w.(landed := true)])
    }

    function Drop(i: nat): Journal<K>
      requires i < |writes|
    {
      this.(writes := writes[..i] + writes[i + 1..])
    }

    function Acknowledge(i: nat): Journal<K>
      requires i < |writes|
    {
      Drop(i).(resolved := resolved + {Entry(writes[i].key, writes[i].until)})
    }

    function Sweep(unsaved: map<K, nat>): Journal<K> {
      this.(swept := swept + set k | k in unsaved :: Entry(k, unsaved[k]))
    }

    function Prune(at: nat): Journal<K> {
      this.(durable := map k | k in durable && at < durable[k] :: durable[k])
    }

    function Restart(): Journal<K> {
      this.(writes := [], swept := {}, requested := {}, inherited := resolved)
    }
  }

  // What a load read: every row the database had, in some order.
  datatype Load =
    | Pending(since: nat)
    | Read(signatures: seq<Entry<Text>>, userEpochs: seq<Entry<string>>)

  datatype System = System(mem: Memory, sigs: Journal<Text>, users: Journal<string>, loads: seq<Load>, now: nat)

  function EmptyJournal<K>(): Journal<K> {
    Journal(map[], [], {}, {}, {}, {}, {})
  }

  const INITIAL := System(FRESH_MEMORY, EmptyJournal(), EmptyJournal(), [], 0)

  datatype Event =
    | RevokeToken(token: Token, expiry: Option<nat>)
    | RevokeSessionHash(key: Text, until: nat)
    | RevokeUser(userId: string, epoch: nat)
    | Land(i: nat) | Saved(i: nat) | Refused(i: nat) | Retry(entry: Entry<Text>)
    | UserLand(i: nat) | UserSaved(i: nat) | UserRefused(i: nat) | UserRetry(userEntry: Entry<string>)
    | Attach
    | LoadRead(load: nat, signatures: seq<Entry<Text>>, userEpochs: seq<Entry<string>>)
    | LoadDone(load: nat)
    | LoadFailed(load: nat)
    | Detach
    | Cleanup
    | Prune(at: nat)
    | Query(asked: Token)
    | Tick(to: nat)
    | Crash

  // The rows `expires_at > since` of a table, in any order.
  ghost predicate RowsOf<K(!new)>(rows: seq<Entry<K>>, table: map<K, nat>, since: int) {
    && (forall e <- rows :: e.key in table && table[e.key] == e.until && since < e.until)
    && (forall k :: k in table && since < table[k] ==> Entry(k, table[k]) in rows)
  }

  ghost predicate Enabled(s: System, e: Event) {
    match e
    case Land(i) => i < |s.sigs.writes| && !s.sigs.writes[i].landed
    case Saved(i) => i < |s.sigs.writes| && s.sigs.writes[i].landed
    case Refused(i) => i < |s.sigs.writes|
    case Retry(entry) => s.mem.attached && entry in s.sigs.swept
    case UserLand(i) => i < |s.users.writes| && !s.users.writes[i].landed
    case UserSaved(i) => i < |s.users.writes| && s.users.writes[i].landed
    case UserRefused(i) => i < |s.users.writes|
    case UserRetry(entry) => s.mem.attached && entry in s.users.swept
    case LoadRead(i, signatures, userEpochs) =>
      && i < |s.loads| && s.loads[i].Pending?
      && RowsOf(signatures, s.sigs.durable, s.loads[i].since) && RowsOf(userEpochs, s.users.durable, -1)
    case LoadDone(i) => i < |s.loads| && s.loads[i].Read?
    case LoadFailed(i) => i < |s.loads|
    case Prune(at) => s.mem.attached && at <= s.now
    case Tick(to) => s.now <= to
    case _ => true
  }

  function AskAndIssue<K>(j: Journal<K>, entries: seq<Entry<K>>, attached: bool): Journal<K> {
    if attached then j.Ask(entries).Issue(entries) else j.Ask(entries)
  }

  function EntryIf<K>(condition: bool, e: Entry<K>): seq<Entry<K>> {
    if condition then [e] else []
  }

  function Next(s: System, e: Event): System
    requires Enabled(s, e)
  {
    match e
    case RevokeToken(token, expiry) =>
      var until := ExpiryOrDefault(expiry, s.now);
      s.(mem := s.mem.Revoke(token, until), sigs := AskAndIssue(s.sigs, EntriesFor(token, until), s.mem.attached))
    case RevokeSessionHash(key, until) =>
      s.(mem := s.mem.RevokeHash(key, until),
         sigs := AskAndIssue(s.sigs, EntryIf(IsHex64(key), Entry(key, until)), s.mem.attached))
    case RevokeUser(userId, epoch) =>
      s.(mem := s.mem.RevokeUser(userId, epoch),
         users := AskAndIssue(s.users, EntryIf(userId != "", Entry(userId, epoch)), s.mem.attached))
    case Land(i) => s.(sigs := s.sigs.Land(i))
    case Saved(i) =>
      var w := s.sigs.writes[i];
      s.(sigs := s.sigs.Acknowledge(i), mem := s.mem.(unsaved := Settle(s.mem.unsaved, w.key, w.until)))
    case Refused(i) =>
      var w := s.sigs.writes[i];
      s.(sigs := s.sigs.Drop(i), mem := s.mem.(unsaved := Raise(s.mem.unsaved, w.key, w.until)))
    case Retry(entry) => s.(sigs := s.sigs.Reissue(entry))
    case UserLand(i) => s.(users := s.users.Land(i))
    case UserSaved(i) =>
      var w := s.users.writes[i];
      s.(users := s.users.Acknowledge(i), mem := s.mem.(unsavedEpochs := Settle(s.mem.unsavedEpochs, w.key, w.until)))
    case UserRefused(i) =>
      var w := s.users.writes[i];
      s.(users := s.users.Drop(i), mem := s.mem.(unsavedEpochs := Raise(s.mem.unsavedEpochs, w.key, w.until)))
    case UserRetry(entry) => s.(users := s.users.Reissue(entry))
    case Attach => s.(mem := s.mem.BeginLoad(), loads := s.loads + [Pending(s.now)])
    case LoadRead(i, signatures, userEpochs) => s.(loads := s.loads[i := Read(signatures, userEpochs)])
    case LoadDone(i) =>
      s.(mem := s.mem.FinishLoad(s.loads[i].signatures, s.loads[i].userEpochs),
         loads := s.loads[..i] + s.loads[i + 1..],
         sigs := s.sigs.Sweep(s.mem.unsaved), users := s.users.Sweep(s.mem.unsavedEpochs))
    case LoadFailed(i) => s.(loads := s.loads[..i] + s.loads[i + 1..])
    case Detach => s.(mem := s.mem.Detach())
    case Cleanup =>
      var mem := s.mem.Expire(s.now);
      s.(mem := mem, sigs := s.sigs.Sweep(mem.unsaved), users := s.users.Sweep(mem.unsavedEpochs))
    case Prune(at) => s.(sigs := s.sigs.Prune(at))
    case Query(token) => s.(mem := s.mem.AfterQuery(token, s.now))
    case Tick(to) => s.(now := to)
    case Crash => s.(mem := FRESH_MEMORY, sigs := s.sigs.Restart(), users := s.users.Restart(), loads := [])
  }

  ghost predicate IsRun(from: System, events: seq<Event>, to: System)
    decreases |events|
  {
    if events == [] then from == to
    else Enabled(from, events[0]) && IsRun(Next(from, events[0]), events[1..], to)
  }

  // ---------------------------------------------------------------- the journal invariant

  // `cutoff`: entries up to it have expired and need no cover.
  ghost predicate JournalInv<K(!new)>(j: Journal<K>, unsaved: map<K, nat>, cutoff: int) {
    && (forall e <- j.requested :: cutoff < e.until ==> j.Covered(unsaved, e))
    && (forall w <- j.writes :: w.landed && cutoff < w.until ==> j.Stored(Entry(w.key, w.until)))
    && (forall e <- j.resolved :: cutoff < e.until ==> j.Stored(e))
    && (forall w <- j.writes :: Entry(w.key, w.until) in j.requested)
    && (forall e <- j.swept :: e in j.requested)
    && (forall k <- unsaved :: Entry(k, unsaved[k]) in j.requested)
    && j.resolved <= j.requested + j.inherited
    && j.inherited <= j.resolved
    && j.requested <= j.asked && j.resolved <= j.asked
    && (forall k <- j.durable :: Entry(k, j.durable[k]) in j.asked)
  }

  lemma IssueKeeps<K(!new)>(j: Journal<K>, unsaved: map<K, nat>, cutoff: int, entries: seq<Entry<K>>, attached: bool)
    requires JournalInv(j, unsaved, cutoff)
    ensures JournalInv(AskAndIssue(j, entries, attached), unsaved, cutoff)
  {
    if attached {
      var next := j.Ask(entries).Issue(entries);
      forall e | e in next.requested && cutoff < e.until
        ensures next.Covered(unsaved, e)
      {
        if e in entries {
          var i :| 0 <= i < |entries| && entries[i] == e;
          assert next.writes[|j.writes| + i] == Write(e.key, e.until, false);
        } else if j.InFlight(e) {
          var i :| 0 <= i < |j.writes| && j.writes[i].key == e.key && e.until <= j.writes[i].until;
          assert next.writes[i] == j.writes[i];
        }
      }
    }
  }

  lemma ReissueKeeps<K(!new)>(j: Journal<K>, unsaved: map<K, nat>, cutoff: int, entry: Entry<K>)
    requires JournalInv(j, unsaved, cutoff) && entry in j.swept
    ensures JournalInv(j.Reissue(entry), unsaved, cutoff)
  {
    var next := j.Reissue(entry);
    forall e | e in next.requested && cutoff < e.until
      ensures next.Covered(unsaved, e)
    {
      if j.InFlight(e) {
        var i :| 0 <= i < |j.writes| && j.writes[i].key == e.key && e.until <= j.writes[i].until;
        assert next.writes[i] == j.writes[i];
      }
    }
  }

  lemma LandKeeps<K(!new)>(j: Journal<K>, unsaved: map<K, nat>, cutoff: int, i: nat)
    requires JournalInv(j, unsaved, cutoff) && i < |j.writes|
    ensures JournalInv(j.Land(i), unsaved, cutoff)
  {
    var next := j.Land(i);
    assert j.writes[i] in j.writes;
    forall e: Entry<K> | j.Stored(e) ensures next.Stored(e) {}
    forall w | w in next.writes ensures w in j.writes || w == j.writes[i].(landed := true) {}
    forall e | e in next.requested && cutoff < e.until
      ensures next.Covered(unsaved, e)
    {
      if j.InFlight(e) {
        var n :| 0 <= n < |j.writes| && j.writes[n].key == e.key && e.until <= j.writes[n].until;
        assert next.writes[n].key == e.key && next.writes[n].until == j.writes[n].until;
      }
    }
  }

  // A write in flight that is not write `i` stays in flight when `i` is answered.
  lemma DropKeepsOthers<K(!new)>(j: Journal<K>, i: nat, e: Entry<K>)
    requires i < |j.writes| && j.InFlight(e)
    ensures j.Drop(i).InFlight(e) || (j.writes[i].key == e.key && e.until <= j.writes[i].until)
  {
    var n :| 0 <= n < |j.writes| && j.writes[n].key == e.key && e.until <= j.writes[n].until;
    if n < i {
      assert j.Drop(i).writes[n] == j.writes[n];
    } else if n > i {
      assert j.Drop(i).writes[n - 1] == j.writes[n];
    }
  }

  lemma SavedKeeps<K(!new)>(j: Journal<K>, unsaved: map<K, nat>, cutoff: int, i: nat)
    requires JournalInv(j, unsaved, cutoff) && i < |j.writes| && j.writes[i].landed
    ensures JournalInv(j.Acknowledge(i), Settle(unsaved, j.writes[i].key, j.writes[i].until), cutoff)
  {
    var w := j.writes[i];
    var next := j.Acknowledge(i);
    assert w in j.writes;
    forall e | e in next.requested && cutoff < e.until
      ensures next.Covered(Settle(unsaved, w.key, w.until), e)
    {
      assert j.Covered(unsaved, e);
      if j.Stored(e) {
        assert next.Stored(e);
      } else if j.InFlight(e) {
        DropKeepsOthers(j, i, e);
        assert next.writes == j.Drop(i).writes;
        if j.Drop(i).InFlight(e) { assert next.InFlight(e); }
      }
    }
  }

  lemma RefusedKeeps<K(!new)>(j: Journal<K>, unsaved: map<K, nat>, cutoff: int, i: nat)
    requires JournalInv(j, unsaved, cutoff) && i < |j.writes|
    ensures JournalInv(j.Drop(i), Raise(unsaved, j.writes[i].key, j.writes[i].until), cutoff)
  {
    var w := j.writes[i];
    var next := j.Drop(i);
    assert w in j.writes;
    forall e | e in next.requested && cutoff < e.until
      ensures next.Covered(Raise(unsaved, w.key, w.until), e)
    {
      assert j.Covered(unsaved, e);
      if !j.Stored(e) && j.InFlight(e) { DropKeepsOthers(j, i, e); }
    }
  }

  // Time passing, expired retries dropped, expired rows pruned: all only touch entries up to the new cutoff.
  lemma AgeKeeps<K(!new)>(j: Journal<K>, unsaved: map<K, nat>, kept: map<K, nat>, cutoff: int, later: int, at: int)
    requires JournalInv(j, unsaved, cutoff) && cutoff <= later && at <= later
    requires forall k <- kept :: k in unsaved && kept[k] == unsaved[k]
    requires forall k <- unsaved :: k in kept || unsaved[k] <= later
    ensures JournalInv(j, kept, later)
    ensures at >= 0 ==> JournalInv(j.Prune(at), kept, later)
  {
    if at >= 0 {
      var next := j.Prune(at);
      forall e: Entry<K> | later < e.until && j.Stored(e) ensures next.Stored(e) {}
      forall e: Entry<K> | j.InFlight(e) ensures next.InFlight(e) {
        var n :| 0 <= n < |j.writes| && j.writes[n].key == e.key && e.until <= j.writes[n].until;
        assert next.writes[n] == j.writes[n];
      }
    }
  }

  lemma SweepKeeps<K(!new)>(j: Journal<K>, unsaved: map<K, nat>, cutoff: int)
    requires JournalInv(j, unsaved, cutoff)
    ensures JournalInv(j.Sweep(unsaved), unsaved, cutoff)
  {
    var next := j.Sweep(unsaved);
    forall e: Entry<K> | j.Covered(unsaved, e) ensures next.Covered(unsaved, e) {
      if j.InFlight(e) { assert next.writes == j.writes; assert next.InFlight(e); }
    }
  }

  lemma RestartKeeps<K(!new)>(j: Journal<K>, unsaved: map<K, nat>, cutoff: int)
    requires JournalInv(j, unsaved, cutoff)
    ensures JournalInv(j.Restart(), map[], cutoff)
  {}

  ghost predicate Inv(s: System) {
    JournalInv(s.sigs, s.mem.unsaved, s.now) && JournalInv(s.users, s.mem.unsavedEpochs, -1)
  }

  predicate IsRequest(e: Event) {
    e.RevokeToken? || e.RevokeSessionHash? || e.RevokeUser?
  }

  predicate IsSignatureWrite(e: Event) {
    e.Land? || e.Saved? || e.Refused? || e.Retry?
  }

  predicate IsUserWrite(e: Event) {
    e.UserLand? || e.UserSaved? || e.UserRefused? || e.UserRetry?
  }

  lemma RequestKeepsInv(s: System, e: Event)
    requires Inv(s) && Enabled(s, e) && IsRequest(e)
    ensures Inv(Next(s, e))
  {
    hide JournalInv, EntriesFor, EntryIf, IsHex64;
    match e
    case RevokeToken(token, expiry) =>
      IssueKeeps(s.sigs, s.mem.unsaved, s.now, EntriesFor(token, ExpiryOrDefault(expiry, s.now)), s.mem.attached);
    case RevokeSessionHash(key, until) =>
      IssueKeeps(s.sigs, s.mem.unsaved, s.now, EntryIf(IsHex64(key), Entry(key, until)), s.mem.attached);
    case RevokeUser(userId, epoch) =>
      IssueKeeps(s.users, s.mem.unsavedEpochs, -1, EntryIf(userId != "", Entry(userId, epoch)), s.mem.attached);
  }

  lemma SignatureWriteKeepsInv(s: System, e: Event)
    requires Inv(s) && Enabled(s, e) && IsSignatureWrite(e)
    ensures Inv(Next(s, e))
  {
    match e
    case Land(i) => LandKeeps(s.sigs, s.mem.unsaved, s.now, i);
    case Saved(i) => SavedKeeps(s.sigs, s.mem.unsaved, s.now, i);
    case Refused(i) => RefusedKeeps(s.sigs, s.mem.unsaved, s.now, i);
    case Retry(entry) => ReissueKeeps(s.sigs, s.mem.unsaved, s.now, entry);
  }

  lemma UserWriteKeepsInv(s: System, e: Event)
    requires Inv(s) && Enabled(s, e) && IsUserWrite(e)
    ensures Inv(Next(s, e))
  {
    match e
    case UserLand(i) => LandKeeps(s.users, s.mem.unsavedEpochs, -1, i);
    case UserSaved(i) => SavedKeeps(s.users, s.mem.unsavedEpochs, -1, i);
    case UserRefused(i) => RefusedKeeps(s.users, s.mem.unsavedEpochs, -1, i);
    case UserRetry(entry) => ReissueKeeps(s.users, s.mem.unsavedEpochs, -1, entry);
  }

  lemma LifecycleKeepsInv(s: System, e: Event)
    requires Inv(s) && Enabled(s, e) && !IsRequest(e) && !IsSignatureWrite(e) && !IsUserWrite(e)
    ensures Inv(Next(s, e))
  {
    match e
    case LoadDone(_) =>
      SweepKeeps(s.sigs, s.mem.unsaved, s.now);
      SweepKeeps(s.users, s.mem.unsavedEpochs, -1);
    case Cleanup =>
      var mem := s.mem.Expire(s.now);
      AgeKeeps(s.sigs, s.mem.unsaved, mem.unsaved, s.now, s.now, -1);
      SweepKeeps(s.sigs, mem.unsaved, s.now);
      SweepKeeps(s.users, s.mem.unsavedEpochs, -1);
    case Prune(at) => AgeKeeps(s.sigs, s.mem.unsaved, s.mem.unsaved, s.now, s.now, at);
    case Tick(to) => AgeKeeps(s.sigs, s.mem.unsaved, s.mem.unsaved, s.now, to, -1);
    case Crash =>
      RestartKeeps(s.sigs, s.mem.unsaved, s.now);
      RestartKeeps(s.users, s.mem.unsavedEpochs, -1);
    case _ =>
  }

  lemma StepKeepsInv(s: System, e: Event)
    requires Inv(s) && Enabled(s, e)
    ensures Inv(Next(s, e))
  {
    if IsRequest(e) {
      RequestKeepsInv(s, e);
    } else if IsSignatureWrite(e) {
      SignatureWriteKeepsInv(s, e);
    } else if IsUserWrite(e) {
      UserWriteKeepsInv(s, e);
    } else {
      LifecycleKeepsInv(s, e);
    }
  }

  lemma {:induction false} RunKeepsInv(from: System, events: seq<Event>, to: System)
    requires Inv(from) && IsRun(from, events, to)
    ensures Inv(to)
    decreases |events|
  {
    if events != [] {
      StepKeepsInv(from, events[0]);
      RunKeepsInv(Next(from, events[0]), events[1..], to);
    }
  }

  // Main result: after any interleaving, every unexpired revocation requested while persistence was attached is in the
  // durable table, in the retry queue or in a write in flight, each with at least its expiry.
  lemma EveryRequestIsCovered(events: seq<Event>, s: System)
    requires IsRun(INITIAL, events, s)
    ensures forall e <- s.sigs.requested :: s.now < e.until ==> s.sigs.Covered(s.mem.unsaved, e)
    ensures forall e <- s.users.requested :: s.users.Covered(s.mem.unsavedEpochs, e)
  {
    RunKeepsInv(INITIAL, events, s);
  }

  // Main result: once its promise has resolved, a revocation stays in the durable table until it expires, through any
  // number of crashes.
  lemma ResolvedIsDurable(events: seq<Event>, s: System)
    requires IsRun(INITIAL, events, s)
    ensures forall e <- s.sigs.resolved :: s.now < e.until ==> s.sigs.Stored(e)
    ensures forall e <- s.users.resolved :: s.users.Stored(e)
  {
    RunKeepsInv(INITIAL, events, s);
  }
}
