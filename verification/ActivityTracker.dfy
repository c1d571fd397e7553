// What the agents dashboard shows for each session over time (apps/api/src/agents-dashboard.ts).

module ActivityTracker {
  import opened Options

  const SETTLE_MS := 4_000
  const TTL_MS := 6 * 60 * 60_000

  datatype Status = Working | Waiting | Done | Idle

  datatype Source = Native | Screen | Session | Run

  // `rest` stands for the reason, the model and the rule, which pass through.
  datatype Detail = Detail(status: Status, since: Option<int>, source: Source, rest: string)

  datatype Tracked = Tracked(status: Status, since: Option<int>, settleSince: Option<int>, seenAt: int)

  datatype Observation = Observation(at: int, detail: Detail)

  // A screen that shows no busy hint.
  predicate IsQuiet(detail: Detail) {
    detail.source == Screen && detail.status == Idle
  }

  function Else(first: Option<int>, second: Option<int>): Option<int> {
    if first.Some? then first else second
  }

  // One observation of a session: what is remembered and what is shown.
  function Observed(previous: Option<Tracked>, o: Observation): (Tracked, Detail) {
    var (at, detail) := (o.at, o.detail);
    if IsQuiet(detail) && previous.Some? && previous.value.status == Done then
      (previous.value.(seenAt := at), detail.(status := Done, since := previous.value.since))
    else if IsQuiet(detail) && previous.Some? && previous.value.status == Working then
      var settleSince := if previous.value.settleSince.Some? then previous.value.settleSince.value else at;
      if at - settleSince < SETTLE_MS then
        (previous.value.(settleSince := Some(settleSince), seenAt := at),
         detail.(status := Working, since := previous.value.since))
      else (Tracked(Done, Some(settleSince), None, at), detail.(status := Done, since := Some(settleSince)))
    else
      var carried := if previous.Some? && previous.value.status == detail.status then previous.value.since else None;
      var begun := if detail.status == Working || detail.status == Waiting then Some(at) else None;
      var since := Else(Else(detail.since, carried), begun);
      (Tracked(detail.status, since, None, at), detail.(since := since))
  }

  // ---------------------------------------------------------------- the tracker

  type Table = map<string, Tracked>

  function Find(tracked: Table, session: string): Option<Tracked> {
    if session in tracked then Some(tracked[session]) else None
  }

  function Evict(tracked: Table, at: int): Table {
    if |tracked| > 200 then map key | key in tracked && at - tracked[key].seenAt <= TTL_MS :: tracked[key] else tracked
  }

  class Tracker {
    var tracked: Table

    constructor ()
      ensures tracked == map[]
    {
      tracked := map[];
    }

    method Observe(session: string, o: Observation) returns (shown: Detail)
      modifies this
      ensures var (entry, detail) := Observed(Find(Evict(old(tracked), o.at), session), o);
        tracked == Evict(old(tracked), o.at)[session := entry] && shown == detail
    {
      var (at, detail) := (o.at, o.detail);
      if |tracked| > 200 {
        var keys := tracked.Keys;
        while keys != {}
          invariant keys <= tracked.Keys <= old(tracked).Keys
          invariant forall key <- tracked :: tracked[key] == old(tracked)[key]
          invariant forall key <- old(tracked) ::
            key in tracked <==> key in keys || at - old(tracked)[key].seenAt <= TTL_MS
          decreases keys
        {
          var key :| key in keys;
          if at - tracked[key].seenAt > TTL_MS { tracked := tracked - {key}; }
          keys := keys - {key};
        }
      }
      assert tracked == Evict(old(tracked), at);
      var previous := Find(tracked, session);
      if IsQuiet(detail) && previous.Some? && previous.value.status in {Working, Done} {
        if previous.value.status == Done {
          tracked := tracked[session := previous.value.(seenAt := at)];
          return detail.(status := Done, since := previous.value.since);
        }
        var settleSince := if previous.value.settleSince.Some? then previous.value.settleSince.value else at;
        if at - settleSince < SETTLE_MS {
          tracked := tracked[session := previous.value.(settleSince := Some(settleSince), seenAt := at)];
          return detail.(status := Working, since := previous.value.since);
        }
        tracked := tracked[session := Tracked(Done, Some(settleSince), None, at)];
        return detail.(status := Done, since := Some(settleSince));
      }
      var carried := if previous.Some? && previous.value.status == detail.status then previous.value.since else None;
      var begun := if detail.status in {Working, Waiting} then Some(at) else None;
      var since := Else(Else(detail.since, carried), begun);
      tracked := tracked[session := Tracked(detail.status, since, None, at)];
      return detail.(since := since);
    }
  }

  // ---------------------------------------------------------------- one session's history

  // What is remembered of a session that was never forgotten.
  function Remembered(h: seq<Observation>): Option<Tracked> {
    if h == [] then None else Some(Observed(Remembered(h[..|h| - 1]), h[|h| - 1]).0)
  }

  // What its last observation shows.
  function Shown(h: seq<Observation>): Detail
    requires h != []
  {
    Observed(Remembered(h[..|h| - 1]), h[|h| - 1]).1
  }

  ghost predicate IsMonotone(h: seq<Observation>) {
    forall i, j :: 0 <= i <= j < |h| ==> h[i].at <= h[j].at
  }

  // Where the unbroken run of quiet observations at the end begins.
  function QuietStart(h: seq<Observation>): (j: nat)
    ensures j <= |h|
    ensures forall k :: j <= k < |h| ==> IsQuiet(h[k].detail)
    ensures j > 0 ==> !IsQuiet(h[j - 1].detail)
  {
    if h != [] && IsQuiet(h[|h| - 1].detail) then QuietStart(h[..|h| - 1]) else |h|
  }

  lemma {:induction false} QuietStartOfPrefix(h: seq<Observation>, n: nat)
    requires QuietStart(h) <= n <= |h|
    ensures QuietStart(h[..n]) == QuietStart(h)
    decreases |h| - n
  {
    if n < |h| {
      QuietStartOfPrefix(h, n + 1);
      assert h[..n + 1][..n] == h[..n];
    } else {
      assert h[..n] == h;
    }
  }

  // What an observation that is not quiet shows and leaves behind agree.
  lemma SeenAsIs(h: seq<Observation>)
    requires h != [] && !IsQuiet(h[|h| - 1].detail)
    ensures var t, d := Remembered(h).value, Shown(h);
      && t.status == d.status == h[|h| - 1].detail.status && t.since == d.since && t.settleSince == None
      && (h[|h| - 1].detail.since.Some? ==> d.since == h[|h| - 1].detail.since)
  {}

  // What is remembered during a quiet run that began at j.
  ghost predicate QuietMemory(h: seq<Observation>, j: nat)
    requires j < |h|
  {
    var t := Remembered(h).value;
    if j == 0 then t.status == Idle
    else
      var before := h[j - 1].detail.status;
      if before == Working && h[|h| - 1].at - h[j].at < SETTLE_MS then
        t.status == Working && t.since == Shown(h[..j]).since && t.settleSince == Some(h[j].at)
      else if before == Working then t.status == Done && t.since == Some(h[j].at)
      else if before == Done then t.status == Done && t.since == Shown(h[..j]).since
      else t.status == Idle
  }

  lemma {:induction false} QuietRun(h: seq<Observation>, j: nat)
    requires h != [] && IsMonotone(h) && j == QuietStart(h) && j < |h|
    ensures QuietMemory(h, j)
    ensures Shown(h).status == Remembered(h).value.status
    ensures Shown(h).status != Idle ==> Shown(h).since == Remembered(h).value.since
    decreases |h|
  {
    hide QuietStart;
    var n := |h| - 1;
    if j == n {
      if n > 0 { SeenAsIs(h[..n]); }
    } else {
      assert h[..n][..j] == h[..j];
      QuietStartOfPrefix(h, n);
      QuietRun(h[..n], j);
      assert h[..n][|h[..n]| - 1].at <= h[n].at;
    }
  }

  // Main result: what a quiet screen shows depends only on what came before it and how long it has been quiet. It shows
  // Done only after it was seen working or done; after working, only once it was quiet for the settle time, dated from
  // the first quiet observation; until then it shows Working with its original start.
  lemma QuietShows(h: seq<Observation>)
    requires h != [] && IsMonotone(h)
    requires h[|h| - 1].detail.source == Screen && h[|h| - 1].detail.status == Idle
    ensures var j := QuietStart(h);
      && j < |h| && (forall k :: j <= k < |h| ==> h[k].detail.source == Screen && h[k].detail.status == Idle)
      && (j > 0 ==> h[j - 1].detail.source != Screen || h[j - 1].detail.status != Idle)
      && (Shown(h).status == Done <==>
            j > 0 && (h[j - 1].detail.status == Done
                      || (h[j - 1].detail.status == Working && h[|h| - 1].at - h[j].at >= 4000)))
      && (Shown(h).status == Working <==>
            j > 0 && h[j - 1].detail.status == Working && h[|h| - 1].at - h[j].at < 4000)
      && Shown(h).status != Waiting
      && (Shown(h).status == Done ==>
            Shown(h).since == if h[j - 1].detail.status == Working then Some(h[j].at) else Shown(h[..j]).since)
      && (Shown(h).status == Working ==> Shown(h).since == Shown(h[..j]).since)
  {
    hide Shown, Remembered, IsMonotone;
    QuietRun(h, QuietStart(h));
  }

  // ---------------------------------------------------------------- when a status began

  function ShownAt(h: seq<Observation>, i: nat): Detail
    requires i < |h|
  {
    Shown(h[..i + 1])
  }

  lemma ShownOfPrefix(h: seq<Observation>)
    requires h != []
    ensures forall i :: 0 <= i < |h| - 1 ==> ShownAt(h[..|h| - 1], i) == ShownAt(h, i)
  {
    forall i | 0 <= i < |h| - 1 ensures ShownAt(h[..|h| - 1], i) == ShownAt(h, i) {
      assert h[..|h| - 1][..i + 1] == h[..i + 1];
    }
  }

  // The last observation and those before it that show the same status.
  function SpellStart(h: seq<Observation>): (s: nat)
    requires h != []
    ensures s < |h|
    ensures forall i :: s <= i < |h| ==> ShownAt(h, i).status == Shown(h).status
    ensures s > 0 ==> ShownAt(h, s - 1).status != Shown(h).status
  {
    var n := |h| - 1;
    assert ShownAt(h, n) == Shown(h) by { assert h[..n + 1] == h; }
    if n > 0 && Shown(h[..n]).status == Shown(h).status then
      assert forall i :: 0 <= i < n ==> ShownAt(h[..n], i) == ShownAt(h, i) by { ShownOfPrefix(h); }
      SpellStart(h[..n])
    else n
  }

  lemma {:induction false} RememberedIsShown(h: seq<Observation>)
    requires h != []
    ensures Remembered(h).value.status == Shown(h).status && Remembered(h).value.since == Shown(h).since
    ensures Shown(h).status in {Working, Waiting} ==> Shown(h).since.Some?
    decreases |h|
  {
    if |h| > 1 { RememberedIsShown(h[..|h| - 1]); }
  }

  // The CLI dates the status that it reports; a date is of no use to another status, which a quiet screen may show.
  predicate IsDated(o: Observation, status: Status) {
    o.detail.status == status && o.detail.since.Some?
  }

  // When a spell without dates began: a Done that came of a quiet screen began with the quiet.
  function Began(h: seq<Observation>, s: nat): Option<int>
    requires s < |h|
  {
    var status := ShownAt(h, s).status;
    if status in {Working, Waiting} then Some(h[s].at)
    else if status == Done && IsQuiet(h[s].detail) then
      var j := QuietStart(h[..s + 1]);
      if j <= s then Some(h[j].at) else None
    else None
  }

  lemma MonotonePrefix(h: seq<Observation>)
    requires h != [] && IsMonotone(h)
    ensures IsMonotone(h[..|h| - 1])
  {}

  // A screen that turns done was quiet all the while since it was last seen working.
  lemma SettledNow(h: seq<Observation>)
    requires |h| > 1 && IsMonotone(h) && IsQuiet(h[|h| - 1].detail)
    requires Shown(h).status == Done && Shown(h[..|h| - 1]).status != Done
    ensures QuietStart(h) < |h| && Shown(h).since == Some(h[QuietStart(h)].at)
  {
    hide Shown, Remembered, IsMonotone, QuietStart;
    var n, j := |h| - 1, QuietStart(h);
    QuietShows(h);
    if h[j - 1].detail.status == Done {
      SeenAsIs(h[..j]);
      if j < n {
        assert h[..n][..j] == h[..j] && h[..n][j - 1] == h[j - 1];
        QuietStartOfPrefix(h, n);
        MonotonePrefix(h);
        QuietShows(h[..n]);
      }
      assert false;
    }
  }

  lemma FirstDone(h: seq<Observation>)
    requires |h| == 1 && Shown(h).status == Done
    ensures !IsQuiet(h[0].detail)
  {
    assert h[..0] == [];
  }

  // A spell's first observation.
  lemma SpellBegins(h: seq<Observation>)
    requires h != [] && IsMonotone(h) && (|h| > 1 ==> Shown(h[..|h| - 1]).status != Shown(h).status)
    ensures var n := |h| - 1;
      Shown(h).since == if IsDated(h[n], Shown(h).status) then h[n].detail.since else Began(h, n)
  {
    hide IsMonotone, QuietStart;
    var n := |h| - 1;
    assert h[..n + 1] == h;
    if Shown(h).status == Done && IsQuiet(h[n].detail) {
      if n > 0 { SettledNow(h); } else { FirstDone(h); }
    } else if n > 0 {
      RememberedIsShown(h[..n]);
    }
  }

  // Any later one.
  lemma SpellGoesOn(h: seq<Observation>)
    requires |h| > 1 && Shown(h[..|h| - 1]).status == Shown(h).status
    ensures var n := |h| - 1;
      Shown(h).since == if IsDated(h[n], Shown(h).status) then h[n].detail.since else Shown(h[..n]).since
  {
    RememberedIsShown(h[..|h| - 1]);
  }

  // The last date from the CLI in the spell that began at s.
  ghost predicate IsLastDate(h: seq<Observation>, s: nat, status: Status, i: nat) {
    s <= i < |h| && IsDated(h[i], status) && forall k :: i < k < |h| ==> !IsDated(h[k], status)
  }

  // Main result: the status shown is dated by the last date that the CLI gave for it in its unbroken spell, and without
  // one from where the spell began; short quiet spells of a working session do not break it.
  lemma {:induction false} SpellIsDated(h: seq<Observation>)
    requires h != [] && IsMonotone(h)
    ensures var s, shown := SpellStart(h), Shown(h);
      && (forall i: nat :: IsLastDate(h, s, shown.status, i) ==> shown.since == h[i].detail.since)
      && ((forall i :: s <= i < |h| ==> !IsDated(h[i], shown.status)) ==> shown.since == Began(h, s))
    decreases |h|
  {
    hide Shown, Remembered, QuietStart;
    var n, s := |h| - 1, SpellStart(h);
    assert h[..n + 1] == h;
    if n > 0 && Shown(h[..n]).status == Shown(h).status {
      SpellGoesOn(h);
      SpellIsDated(h[..n]);
      assert h[..n][..s + 1] == h[..s + 1];
      forall i: nat | IsLastDate(h, s, Shown(h).status, i) && i < n ensures IsLastDate(h[..n], s, Shown(h).status, i) {}
    } else {
      SpellBegins(h);
    }
  }

  // ---------------------------------------------------------------- all sessions at once

  datatype Event = Event(session: string, observation: Observation)

  function Before(events: seq<Event>, e: Event): Option<Tracked> {
    Find(Evict(After(events), e.observation.at), e.session)
  }

  // The table after a run of observations of any sessions.
  function After(events: seq<Event>): Table {
    if events == [] then map[]
    else
      var n := |events| - 1;
      var e := events[n];
      var kept := Evict(After(events[..n]), e.observation.at);
      kept[e.session := Observed(Find(kept, e.session), e.observation).0]
  }

  // What the last observation of the run shows.
  function LastShown(events: seq<Event>): Detail
    requires events != []
  {
    var n := |events| - 1;
    Observed(Before(events[..n], events[n]), events[n].observation).1
  }

  function HistoryOf(events: seq<Event>, session: string): seq<Observation> {
    if events == [] then []
    else
      var n := |events| - 1;
      HistoryOf(events[..n], session) + if events[n].session == session then [events[n].observation] else []
  }

  ghost predicate IsRun(events: seq<Event>) {
    forall i, j :: 0 <= i <= j < |events| ==> events[i].observation.at <= events[j].observation.at
  }

  // The session's memory at a time is that of its history from k on; what came before was unseen for over six hours.
  ghost predicate RemembersFrom(h: seq<Observation>, entry: Option<Tracked>, k: nat, now: int) {
    && k <= |h| && entry == Remembered(h[k..])
    && (k > 0 ==> (if k < |h| then h[k].at else now) - h[k - 1].at > TTL_MS)
  }

  lemma {:induction false} SeenAtLast(h: seq<Observation>)
    requires h != []
    ensures Remembered(h).value.seenAt == h[|h| - 1].at
  {}

  lemma {:induction false} HistoryTimes(events: seq<Event>, session: string, now: int)
    requires forall e <- events :: e.observation.at <= now
    ensures forall o <- HistoryOf(events, session) :: o.at <= now
  {
    if events != [] {
      assert events[|events| - 1] in events;
      assert forall e <- events[..|events| - 1] :: e in events;
      HistoryTimes(events[..|events| - 1], session, now);
    }
  }

  // Eviction at a time forgets a whole history, and only one that ended over six hours before.
  lemma EvictedFrom(h: seq<Observation>, tracked: Table, session: string, k: nat, before: int, now: int)
    returns (later: nat)
    requires RemembersFrom(h, Find(tracked, session), k, before) && before <= now
    ensures RemembersFrom(h, Find(Evict(tracked, now), session), later, now)
  {
    later := k;
    if session in tracked && session !in Evict(tracked, now) {
      SeenAtLast(h[k..]);
      later := |h|;
      assert h[|h|..] == [];
    }
  }

  lemma RemembersOneMore(h: seq<Observation>, entry: Option<Tracked>, k: nat, o: Observation, now: int)
    requires RemembersFrom(h, entry, k, o.at) && o.at <= now
    ensures RemembersFrom(h + [o], Some(Observed(entry, o).0), k, now)
  {
    hide Observed;
    assert (h + [o])[k..] == h[k..] + [o];
    assert (h + [o])[k..][..|h| - k] == h[k..];
  }

  lemma RemembersLater(h: seq<Observation>, entry: Option<Tracked>, k: nat, at: int, now: int)
    requires RemembersFrom(h, entry, k, at) && at <= now
    ensures RemembersFrom(h, entry, k, now)
  {}

  lemma LastEntry(events: seq<Event>, session: string)
    requires events != []
    ensures var e := events[|events| - 1];
      var kept := Evict(After(events[..|events| - 1]), e.observation.at);
      Find(After(events), session)
      == if e.session == session then Some(Observed(Find(kept, session), e.observation).0) else Find(kept, session)
  {
    hide Evict, Observed;
  }

  lemma {:induction false} Remembers(events: seq<Event>, session: string, now: int) returns (k: nat)
    requires IsRun(events) && forall e <- events :: e.observation.at <= now
    ensures RemembersFrom(HistoryOf(events, session), Find(After(events), session), k, now)
    decreases |events|
  {
    if events == [] {
      k := 0;
    } else {
      hide Remembered, RemembersFrom, Evict, Observed, After;
      var n := |events| - 1;
      var e := events[n];
      assert e in events;
      k := BeforeLast(events, session);
      LastEntry(events, session);
      var h, entry := HistoryOf(events[..n], session), Find(Evict(After(events[..n]), e.observation.at), session);
      if e.session == session {
        RemembersOneMore(h, entry, k, e.observation, now);
      } else {
        assert h + [] == h;
        RemembersLater(h, entry, k, e.observation.at, now);
      }
    }
  }

  // Just before the last observation is taken in.
  lemma {:induction false} BeforeLast(events: seq<Event>, session: string) returns (k: nat)
    requires events != [] && IsRun(events)
    ensures var n := |events| - 1;
      var at := events[n].observation.at;
      RemembersFrom(HistoryOf(events[..n], session), Find(Evict(After(events[..n]), at), session), k, at)
    decreases |events|, 0
  {
    var n := |events| - 1;
    var at := events[n].observation.at;
    forall e | e in events[..n] ensures e.observation.at <= at {
      var i :| 0 <= i < n && events[i] == e;
    }
    k := Remembers(events[..n], session, at);
    k := EvictedFrom(HistoryOf(events[..n], session), After(events[..n]), session, k, at, at);
  }

  // Main result: whatever the other sessions do, what a session shows is what its own history shows, from its start or
  // from after a gap of over six hours.
  lemma ShowsItsOwnHistory(events: seq<Event>) returns (k: nat)
    requires events != [] && IsRun(events)
    ensures var h := HistoryOf(events, events[|events| - 1].session);
      && k < |h| && (k > 0 ==> h[k].at - h[k - 1].at > 6 * 60 * 60 * 1000)
      && LastShown(events) == Shown(h[k..])
  {
    var n := |events| - 1;
    var e := events[n];
    k := BeforeLast(events, e.session);
    var h := HistoryOf(events[..n], e.session);
    assert (h + [e.observation])[k..] == h[k..] + [e.observation];
    assert (h[k..] + [e.observation])[..|h| - k] == h[k..];
  }

  // Main result: eviction never changes what a session shows that is observed at least every six hours.
  lemma EvictionIsInvisible(events: seq<Event>)
    requires events != [] && IsRun(events)
    requires var h := HistoryOf(events, events[|events| - 1].session);
      forall i :: 0 < i < |h| ==> h[i].at - h[i - 1].at <= 6 * 60 * 60 * 1000
    ensures LastShown(events) == Shown(HistoryOf(events, events[|events| - 1].session))
  {
    var k := ShowsItsOwnHistory(events);
    var h := HistoryOf(events, events[|events| - 1].session);
    assert h[0..] == h;
  }

  // ---------------------------------------------------------------- when a session is forgotten

  function SessionsOf(events: seq<Event>): set<string> {
    set e | e in events :: e.session
  }

  lemma SizeAtMost(a: set<string>, b: set<string>)
    requires a <= b
    ensures |a| <= |b|
  {
    assert b == a + (b - a);
  }

  lemma {:induction false} RemembersAll(events: seq<Event>, session: string)
    requires |SessionsOf(events)| <= 200
    ensures After(events).Keys <= SessionsOf(events)
    ensures Find(After(events), session) == Remembered(HistoryOf(events, session))
    decreases |events|
  {
    hide Observed;
    if events != [] {
      var n := |events| - 1;
      var e, h := events[n], HistoryOf(events[..n], session);
      assert events == events[..n] + [e];
      SizeAtMost(SessionsOf(events[..n]), SessionsOf(events));
      RemembersAll(events[..n], session);
      SizeAtMost(After(events[..n]).Keys, SessionsOf(events[..n]));
      assert Evict(After(events[..n]), e.observation.at) == After(events[..n]);
      LastEntry(events, session);
      assert (h + [e.observation])[..|h|] == h && h + [] == h;
    }
  }

  lemma NoneEvicted(events: seq<Event>, at: int)
    requires |SessionsOf(events)| <= 200
    ensures Evict(After(events), at) == After(events)
  {
    RemembersAll(events, "");
    SizeAtMost(After(events).Keys, SessionsOf(events));
  }

  lemma LastSession(events: seq<Event>)
    requires events != [] && |SessionsOf(events)| <= 200
    ensures |SessionsOf(events[..|events| - 1])| <= 200
  {
    SizeAtMost(SessionsOf(events[..|events| - 1]), SessionsOf(events));
  }

  // Main result: while at most 200 sessions have been observed none is forgotten, however long it was not seen.
  lemma FewAreNeverForgotten(events: seq<Event>)
    requires events != [] && |SessionsOf(events)| <= 200
    ensures LastShown(events) == Shown(HistoryOf(events, events[|events| - 1].session))
  {
    hide Observed, SessionsOf, After, Evict, Remembered;
    var n := |events| - 1;
    var e := events[n];
    var h := HistoryOf(events[..n], e.session);
    LastSession(events);
    RemembersAll(events[..n], e.session);
    NoneEvicted(events[..n], e.observation.at);
    assert (h + [e.observation])[..|h|] == h;
  }

  // With more than 200 sessions in the table one that was not seen for over six hours starts anew.
  lemma ForgottenAfterGap(events: seq<Event>)
    requires events != [] && IsRun(events)
    requires var n := |events| - 1;
      var h := HistoryOf(events[..n], events[n].session);
      && |After(events[..n])| > 200
      && (h != [] ==> events[n].observation.at - h[|h| - 1].at > 6 * 60 * 60 * 1000)
    ensures LastShown(events) == Shown([events[|events| - 1].observation])
  {
    hide Observed;
    var n := |events| - 1;
    var e := events[n];
    var h := HistoryOf(events[..n], e.session);
    forall f | f in events[..n] ensures f.observation.at <= e.observation.at {
      var i :| 0 <= i < n && events[i] == f;
    }
    var k := Remembers(events[..n], e.session, e.observation.at);
    if k < |h| { SeenAtLast(h[k..]); }
    assert Find(Evict(After(events[..n]), e.observation.at), e.session) == None;
    assert [e.observation][..0] == [];
  }
}
