// The sliding-window limit on reset redemptions (apps/api/src/admin-toolbar-routes.ts).

module RedemptionLimit {
  const WINDOW_MS := 5 * 60 * 1000
  const LIMIT := 12

  type Table = map<string, seq<int>>

  function Recorded(table: Table, actor: string): seq<int> {
    if actor in table then table[actor] else []
  }

  // The times after the cutoff, in order.
  function Since(times: seq<int>, cutoff: int): (recent: seq<int>)
    ensures forall t <- recent :: t > cutoff && t in times
  {
    if times == [] then []
    else
      var n := |times| - 1;
      Since(times[..n], cutoff) + if times[n] > cutoff then [times[n]] else []
  }

  predicate Accepts(table: Table, actor: string, now: int) {
    |Since(Recorded(table, actor), now - WINDOW_MS)| < LIMIT
  }

  function Consumed(table: Table, actor: string, now: int): Table {
    var recent := Since(Recorded(table, actor), now - WINDOW_MS);
    table[actor := if |recent| < LIMIT then recent + [now] else recent]
  }

  class Limiter {
    var attempts: Table

    constructor ()
      ensures attempts == map[]
    {
      attempts := map[];
    }

    method Consume(actor: string, now: int) returns (accepted: bool)
      modifies this
      ensures accepted == Accepts(old(attempts), actor, now)
      ensures attempts == Consumed(old(attempts), actor, now)
    {
      var times := Recorded(attempts, actor);
      var recent := [];
      for i := 0 to |times|
        invariant recent == Since(times[..i], now - WINDOW_MS) && attempts == old(attempts)
      {
        assert times[..i + 1][..i] == times[..i];
        if times[i] > now - WINDOW_MS { recent := recent + [times[i]]; }
      }
      assert times[..|times|] == times;
      if |recent| >= LIMIT {
        attempts := attempts[actor := recent];
        return false;
      }
      attempts := attempts[actor := recent + [now]];
      return true;
    }
  }

  // ---------------------------------------------------------------- runs

  datatype Attempt = Attempt(actor: string, at: int)

  ghost predicate IsRun(run: seq<Attempt>) {
    forall i, j :: 0 <= i <= j < |run| ==> run[i].at <= run[j].at
  }

  function After(run: seq<Attempt>): Table {
    if run == [] then map[] else Consumed(After(run[..|run| - 1]), run[|run| - 1].actor, run[|run| - 1].at)
  }

  predicate IsAccepted(run: seq<Attempt>, i: nat)
    requires i < |run|
  {
    Accepts(After(run[..i]), run[i].actor, run[i].at)
  }

  // Every accepted attempt of the actor, never pruned.
  function History(run: seq<Attempt>, actor: string): seq<int> {
    if run == [] then []
    else
      var n := |run| - 1;
      History(run[..n], actor)
      + if run[n].actor == actor && Accepts(After(run[..n]), actor, run[n].at) then [run[n].at] else []
  }

  ghost predicate IsAscending(times: seq<int>) {
    forall i, j :: 0 <= i <= j < |times| ==> times[i] <= times[j]
  }

  lemma {:induction false} SinceTwice(times: seq<int>, early: int, late: int)
    requires early <= late
    ensures Since(Since(times, early), late) == Since(times, late)
  {
    if times != [] {
      var n := |times| - 1;
      var known := Since(times[..n], early);
      SinceTwice(times[..n], early, late);
      if times[n] > early {
        SinceSnoc(known, times[n], late);
      } else {
        assert Since(times, early) == known + [] == known;
        assert Since(times, late) == Since(times[..n], late) + [] == Since(times[..n], late);
      }
    }
  }

  lemma SinceSnoc(times: seq<int>, t: int, cutoff: int)
    ensures Since(times + [t], cutoff) == Since(times, cutoff) + if t > cutoff then [t] else []
  {
    assert (times + [t])[..|times|] == times;
  }

  // Main result: at any later time, the pruned list and the full history show the same attempts in the window.
  lemma {:induction false} PrunedIsHistory(run: seq<Attempt>, actor: string, now: int)
    requires IsRun(run) && (run != [] ==> run[|run| - 1].at <= now)
    ensures Since(Recorded(After(run), actor), now - WINDOW_MS) == Since(History(run, actor), now - WINDOW_MS)
    decreases |run|
  {
    hide Since, History;
    if run == [] {
      NoHistory(actor);
    } else {
      var n := |run| - 1;
      var at := run[n].at;
      PrunedIsHistory(run[..n], actor, now);
      HistorySnoc(run, actor);
      var times := Recorded(After(run[..n]), actor);
      var recent := Since(times, at - WINDOW_MS);
      if run[n].actor == actor {
        SinceTwice(times, at - WINDOW_MS, now - WINDOW_MS);
        SinceSnoc(recent, at, now - WINDOW_MS);
        SinceSnoc(History(run[..n], actor), at, now - WINDOW_MS);
      }
    }
  }

  lemma NoHistory(actor: string)
    ensures History([], actor) == []
  {}

  lemma HistorySnoc(run: seq<Attempt>, actor: string)
    requires run != []
    ensures var n := |run| - 1;
      History(run, actor) == if run[n].actor == actor && Accepts(After(run[..n]), actor, run[n].at)
                             then History(run[..n], actor) + [run[n].at] else History(run[..n], actor)
  {}

  // The accepted attempts of the actor among the first n that came after the cutoff.
  ghost function AcceptedAfter(run: seq<Attempt>, n: nat, actor: string, cutoff: int): set<nat>
    requires n <= |run|
  {
    set j: nat | j < n && run[j].actor == actor && IsAccepted(run, j) && run[j].at > cutoff
  }

  lemma AcceptedSnoc(run: seq<Attempt>, n: nat, actor: string, cutoff: int)
    requires n < |run|
    ensures var more := if run[n].actor == actor && IsAccepted(run, n) && run[n].at > cutoff then {n} else {};
      AcceptedAfter(run, n + 1, actor, cutoff) == AcceptedAfter(run, n, actor, cutoff) + more
      && n !in AcceptedAfter(run, n, actor, cutoff)
  {
    hide IsAccepted;
  }

  lemma {:induction false} HistoryCounts(run: seq<Attempt>, n: nat, actor: string, cutoff: int)
    requires n <= |run|
    ensures |Since(History(run[..n], actor), cutoff)| == |AcceptedAfter(run, n, actor, cutoff)|
    decreases n
  {
    hide History, Since, Accepts, AcceptedAfter, After;
    if n == 0 {
      NoHistory(actor);
      NoneAccepted(run, actor, cutoff);
    } else {
      assert run[..n][..n - 1] == run[..n - 1];
      HistoryCounts(run, n - 1, actor, cutoff);
      HistorySnoc(run[..n], actor);
      AcceptedSnoc(run, n - 1, actor, cutoff);
      SinceSnoc(History(run[..n - 1], actor), run[n - 1].at, cutoff);
    }
  }

  lemma NoneAccepted(run: seq<Attempt>, actor: string, cutoff: int)
    ensures AcceptedAfter(run, 0, actor, cutoff) == {} && Since([], cutoff) == []
  {}

  // Main result: an attempt is accepted exactly when fewer than 12 of its actor's accepted ones lie in the five minutes
  // before it, counted over the whole run; a refusal finds at least 12.
  lemma AcceptedIff(run: seq<Attempt>, i: nat)
    requires IsRun(run) && i < |run|
    ensures IsAccepted(run, i) <==> |AcceptedAfter(run, i, run[i].actor, run[i].at - 5 * 60 * 1000)| < 12
  {
    hide Since, History, After, AcceptedAfter;
    PrunedIsHistory(run[..i], run[i].actor, run[i].at);
    HistoryCounts(run, i, run[i].actor, run[i].at - WINDOW_MS);
  }

  lemma {:induction false} HistoryTimes(run: seq<Attempt>, actor: string, now: int)
    requires IsRun(run) && (run != [] ==> run[|run| - 1].at <= now)
    ensures IsAscending(History(run, actor)) && forall t <- History(run, actor) :: t <= now
    decreases |run|
  {
    hide History, After, Accepts;
    if run == [] {
      NoHistory(actor);
    } else {
      var n := |run| - 1;
      HistoryTimes(run[..n], actor, run[n].at);
      HistorySnoc(run, actor);
      var before := History(run[..n], actor);
      assert forall i :: 0 <= i < |before| ==> before[i] in before;
    }
  }

  lemma {:induction false} SinceCounts(times: seq<int>, cutoff: int)
    requires IsAscending(times)
    ensures var k := |times| - |Since(times, cutoff)|;
      0 <= k <= |times| && Since(times, cutoff) == times[k..] && forall i :: 0 <= i < k ==> times[i] <= cutoff
  {
    if times != [] {
      var n := |times| - 1;
      SinceCounts(times[..n], cutoff);
      if times[n] <= cutoff {
        assert forall t <- times :: t <= cutoff;
        var rest := Since(times[..n], cutoff);
        assert rest != [] ==> rest[0] in rest;
      } else {
        var k := |times| - |Since(times, cutoff)|;
        assert times[k..] == times[..n][k..] + [times[n]];
      }
    }
  }

  // Main result: over the whole run an actor has at most 12 accepted attempts in any five minutes: the thirteenth comes
  // at least five minutes after the first.
  lemma {:induction false} AtMostLimitInWindow(run: seq<Attempt>, actor: string, i: nat)
    requires IsRun(run) && i + 12 < |History(run, actor)|
    ensures History(run, actor)[i + 12] - History(run, actor)[i] >= 5 * 60 * 1000
    decreases |run|
  {
    hide History, After, Since;
    if run == [] {
      NoHistory(actor);
    } else {
      var n := |run| - 1;
      var before := History(run[..n], actor);
      HistorySnoc(run, actor);
      if i + LIMIT < |before| {
        AtMostLimitInWindow(run[..n], actor, i);
      } else {
        var at := run[n].at;
        assert Accepts(After(run[..n]), actor, at);
        HistoryTimes(run[..n], actor, at);
        PrunedIsHistory(run[..n], actor, at);
        SinceCounts(before, at - WINDOW_MS);
      }
    }
  }
}
