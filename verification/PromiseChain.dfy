// Operations chained on promises: withWriteLock (apps/api/src/app-diagnostics.ts) and serializeCodexLbSpeedUpdate
// (apps/api/src/admin-toolbar-routes.ts). Each caller waits for the promise that was the tail when it called and
// makes its own promise the new tail. Callers are numbered in call order; a caller's promise has the caller's number.

module PromiseChain {
  import opened Options

  // Settled: the operation resolved or rejected. Released: so did the promise that the next caller waits for.
  datatype Phase = Waiting | Running | Settled(ok: bool) | Released(ok: bool)

  datatype Caller = Caller(previous: Option<nat>, phase: Phase)

  datatype Chain = Chain(callers: seq<Caller>, tail: Option<nat>)

  datatype Step = Call | Start(i: nat) | Finish(j: nat, ok: bool) | Release(k: nat)

  const EMPTY_CHAIN := Chain([], None)

  predicate IsResolved(c: Chain, promise: Option<nat>) {
    promise.Some? ==> promise.value < |c.callers| && c.callers[promise.value].phase.Released?
  }

  predicate IsEnabled(c: Chain, s: Step) {
    match s
    case Call => true
    case Start(i) => i < |c.callers| && c.callers[i].phase == Waiting && IsResolved(c, c.callers[i].previous)
    case Finish(j, _) => j < |c.callers| && c.callers[j].phase == Running
    case Release(k) => k < |c.callers| && c.callers[k].phase.Settled?
  }

  function SetPhase(c: Chain, i: nat, phase: Phase): Chain
    requires i < |c.callers|
  {
    c.(callers := c.callers[i := c.callers[i].(phase := phase)])
  }

  function Next(c: Chain, s: Step): Chain
    requires IsEnabled(c, s)
  {
    match s
    case Call => Chain(c.callers + [Caller(c.tail, Waiting)], Some(|c.callers|))
    case Start(i) => SetPhase(c, i, Running)
    case Finish(j, ok) => SetPhase(c, j, Settled(ok))
    case Release(k) => SetPhase(c, k, Released(c.callers[k].phase.ok))
  }

  predicate IsRunFrom(c: Chain, steps: seq<Step>)
    decreases |steps|
  {
    steps == [] || (IsEnabled(c, steps[0]) && IsRunFrom(Next(c, steps[0]), steps[1..]))
  }

  function After(c: Chain, steps: seq<Step>): Chain
    requires IsRunFrom(c, steps)
    decreases |steps|
  {
    if steps == [] then c else After(Next(c, steps[0]), steps[1..])
  }

  // ---------------------------------------------------------------- what every step keeps

  // Each caller waits for the one before it, and has not started before that one released it.
  ghost predicate Inv(c: Chain) {
    && c.tail == (if c.callers == [] then None else Some(|c.callers| - 1))
    && forall i :: 0 <= i < |c.callers| ==>
         && c.callers[i].previous == (if i == 0 then None else Some(i - 1))
         && (i > 0 && c.callers[i].phase != Waiting ==> c.callers[i - 1].phase.Released?)
  }

  lemma StepKeepsInv(c: Chain, s: Step)
    requires Inv(c) && IsEnabled(c, s)
    ensures Inv(Next(c, s))
  {}

  lemma {:induction false} RunKeepsInv(c: Chain, steps: seq<Step>)
    requires Inv(c) && IsRunFrom(c, steps)
    ensures Inv(After(c, steps))
    decreases |steps|
  {
    if steps != [] {
      StepKeepsInv(c, steps[0]);
      RunKeepsInv(Next(c, steps[0]), steps[1..]);
    }
  }

  // All callers before one that has started are done.
  lemma {:induction false} EarlierAreReleased(c: Chain, i: nat, j: nat)
    requires Inv(c) && i < j < |c.callers| && c.callers[j].phase != Waiting
    ensures c.callers[i].phase.Released?
    decreases j - i
  {
    if i < j - 1 { EarlierAreReleased(c, i, j - 1); }
  }

  // Main result: in every interleaving at most one operation runs at a time, and an operation that has started finds
  // all earlier ones finished.
  lemma OneAtATimeInCallOrder(steps: seq<Step>, i: nat, j: nat)
    requires IsRunFrom(EMPTY_CHAIN, steps) && i < j < |After(EMPTY_CHAIN, steps).callers|
    ensures var c := After(EMPTY_CHAIN, steps);
      && !(c.callers[i].phase == Running && c.callers[j].phase == Running)
      && (c.callers[j].phase != Waiting ==> c.callers[i].phase.Released?)
  {
    RunKeepsInv(EMPTY_CHAIN, steps);
    var c := After(EMPTY_CHAIN, steps);
    if c.callers[j].phase != Waiting { EarlierAreReleased(c, i, j); }
  }

  // ---------------------------------------------------------------- the order of starts

  function Starts(steps: seq<Step>): seq<nat> {
    if steps == [] then []
    else (if steps[0].Start? then [steps[0].i] else []) + Starts(steps[1..])
  }

  function From(n: nat, count: nat): seq<nat>
    decreases count
  {
    if count == 0 then [] else [n] + From(n + 1, count - 1)
  }

  // How many callers have started.
  function Started(c: Chain): (n: nat)
    ensures n <= |c.callers|
  {
    StartedIn(c.callers)
  }

  function StartedIn(callers: seq<Caller>): (n: nat)
    ensures n <= |callers|
  {
    if callers == [] || callers[0].phase == Waiting then 0 else 1 + StartedIn(callers[1..])
  }

  lemma {:induction false} StartedIsPrefix(callers: seq<Caller>)
    requires forall i :: 0 < i < |callers| && callers[i].phase != Waiting ==> callers[i - 1].phase != Waiting
    ensures forall i :: 0 <= i < |callers| ==> (i < StartedIn(callers) <==> callers[i].phase != Waiting)
  {
    if callers != [] {
      if callers[0].phase != Waiting {
        StartedIsPrefix(callers[1..]);
      } else {
        NoneStarted(callers, |callers|);
      }
    }
  }

  lemma {:induction false} NoneStarted(callers: seq<Caller>, n: nat)
    requires n <= |callers| && (n > 0 ==> callers[0].phase == Waiting)
    requires forall i :: 0 < i < |callers| && callers[i].phase != Waiting ==> callers[i - 1].phase != Waiting
    ensures forall i :: 0 <= i < n ==> callers[i].phase == Waiting
    decreases n
  {
    if n > 1 {
      NoneStarted(callers, n - 1);
      assert callers[n - 2].phase == Waiting;
    }
  }

  lemma {:induction false} StartedIs(callers: seq<Caller>, n: nat)
    requires n <= |callers| && forall i :: 0 <= i < |callers| ==> (i < n <==> callers[i].phase != Waiting)
    ensures StartedIn(callers) == n
  {
    if callers != [] && n > 0 { StartedIs(callers[1..], n - 1); }
  }

  lemma StepStarts(c: Chain, s: Step)
    requires Inv(c) && IsEnabled(c, s)
    ensures s.Start? ==> s.i == Started(c) && Started(Next(c, s)) == Started(c) + 1
    ensures !s.Start? ==> Started(Next(c, s)) == Started(c)
  {
    var n := Started(c);
    StartedIsPrefix(c.callers);
    if s.Start? {
      assert s.i >= n && (s.i > 0 ==> s.i - 1 < n);
      StartedIs(Next(c, s).callers, n + 1);
    } else {
      StartedIs(Next(c, s).callers, n);
    }
  }

  lemma FromFirst(n: nat, count: nat)
    requires count > 0
    ensures From(n, count) == [n] + From(n + 1, count - 1)
  {}

  // Main result: operations start once each, exactly in the order of the calls.
  lemma {:induction false} StartsFollowCalls(c: Chain, steps: seq<Step>)
    requires Inv(c) && IsRunFrom(c, steps)
    ensures Started(After(c, steps)) >= Started(c)
    ensures Starts(steps) == From(Started(c), Started(After(c, steps)) - Started(c))
    decreases |steps|
  {
    hide Inv, Started, IsEnabled, Next;
    if steps == [] {
      assert From(Started(c), 0) == [];
    } else {
      var next := Next(c, steps[0]);
      StepStarts(c, steps[0]);
      StepKeepsInv(c, steps[0]);
      StartsFollowCalls(next, steps[1..]);
      if steps[0].Start? { FromFirst(Started(c), Started(After(c, steps)) - Started(c)); }
    }
  }

  // ---------------------------------------------------------------- progress

  function Remaining(phase: Phase): nat {
    match phase
    case Waiting => 3
    case Running => 2
    case Settled(_) => 1
    case Released(_) => 0
  }

  function Work(callers: seq<Caller>): nat {
    if callers == [] then 0 else Work(callers[..|callers| - 1]) + Remaining(callers[|callers| - 1].phase)
  }

  lemma {:induction false} WorkUpdated(callers: seq<Caller>, i: nat, phase: Phase)
    requires i < |callers|
    ensures Work(callers[i := callers[i].(phase := phase)])
            == Work(callers) - Remaining(callers[i].phase) + Remaining(phase)
    decreases |callers|
  {
    var n := |callers| - 1;
    var updated := callers[i := callers[i].(phase := phase)];
    if i < n {
      WorkUpdated(callers[..n], i, phase);
      assert updated[..n] == callers[..n][i := callers[i].(phase := phase)];
    } else {
      assert updated[..n] == callers[..n];
    }
  }

  lemma {:induction false} NoWorkLeft(callers: seq<Caller>)
    ensures Work(callers) == 0 <==> forall c <- callers :: c.phase.Released?
  {
    if callers != [] {
      var n := |callers| - 1;
      NoWorkLeft(callers[..n]);
      assert callers[n] in callers && forall c <- callers[..n] :: c in callers;
      if Work(callers) == 0 {
        forall c | c in callers ensures c.phase.Released? {
          var i :| 0 <= i < |callers| && callers[i] == c;
          if i < n { assert callers[..n][i] in callers[..n]; }
        }
      }
    }
  }

  // Something can always happen while a caller is not done, whether or not earlier operations failed.
  lemma NextInLine(c: Chain) returns (s: Step)
    requires Inv(c) && Work(c.callers) > 0
    ensures !s.Call? && IsEnabled(c, s)
  {
    NoWorkLeft(c.callers);
    var i := FirstUnreleased(c.callers);
    match c.callers[i].phase
    case Waiting => s := Start(i);
    case Running => s := Finish(i, false);
    case Settled(_) => s := Release(i);
    case Released(_) => s := Call;
  }

  lemma {:induction false} FirstUnreleased(callers: seq<Caller>) returns (i: nat)
    requires exists c <- callers :: !c.phase.Released?
    ensures i < |callers| && !callers[i].phase.Released? && forall k :: 0 <= k < i ==> callers[k].phase.Released?
  {
    if !callers[0].phase.Released? {
      i := 0;
    } else {
      assert callers == [callers[0]] + callers[1..];
      i := FirstUnreleased(callers[1..]);
      i := i + 1;
    }
  }

  predicate HasNoCalls(steps: seq<Step>) {
    forall s <- steps :: !s.Call?
  }

  lemma StepDoesWork(c: Chain, s: Step)
    requires IsEnabled(c, s) && !s.Call?
    ensures Work(Next(c, s).callers) == Work(c.callers) - 1
  {
    match s
    case Start(i) => WorkUpdated(c.callers, i, Running);
    case Finish(j, ok) => WorkUpdated(c.callers, j, Settled(ok));
    case Release(k) => WorkUpdated(c.callers, k, Released(c.callers[k].phase.ok));
  }

  lemma {:induction false} RunDoesWork(c: Chain, steps: seq<Step>)
    requires IsRunFrom(c, steps) && HasNoCalls(steps)
    ensures Work(After(c, steps).callers) == Work(c.callers) - |steps|
    decreases |steps|
  {
    if steps != [] {
      assert steps[0] in steps && forall s <- steps[1..] :: s in steps;
      StepDoesWork(c, steps[0]);
      RunDoesWork(Next(c, steps[0]), steps[1..]);
    }
  }

  // Main result: no failure blocks a later caller. Without new calls a run takes at most three steps for each caller,
  // and it can only stop when every caller is done.
  lemma EveryCallerIsServed(before: seq<Step>, steps: seq<Step>)
    requires IsRunFrom(EMPTY_CHAIN, before) && IsRunFrom(After(EMPTY_CHAIN, before), steps) && HasNoCalls(steps)
    ensures var c, last := After(EMPTY_CHAIN, before), After(After(EMPTY_CHAIN, before), steps);
      && |steps| <= Work(c.callers)
      && ((forall s: Step :: s.Call? || !IsEnabled(last, s)) ==>
            forall caller <- last.callers :: caller.phase.Released?)
  {
    var c := After(EMPTY_CHAIN, before);
    RunKeepsInv(EMPTY_CHAIN, before);
    RunKeepsInv(c, steps);
    RunDoesWork(c, steps);
    var last := After(c, steps);
    NoWorkLeft(last.callers);
    if Work(last.callers) > 0 { var s := NextInLine(last); }
  }

  lemma {:induction false} RunAppend(c: Chain, first: seq<Step>, second: seq<Step>)
    requires IsRunFrom(c, first) && IsRunFrom(After(c, first), second)
    ensures IsRunFrom(c, first + second) && After(c, first + second) == After(After(c, first), second)
    decreases |first|
  {
    hide IsEnabled, Next;
    if first == [] {
      assert first + second == second;
    } else {
      assert (first + second)[0] == first[0] && (first + second)[1..] == first[1..] + second;
      RunAppend(Next(c, first[0]), first[1..], second);
    }
  }

  lemma RunStep(c: Chain, s: Step, rest: seq<Step>)
    requires IsEnabled(c, s) && IsRunFrom(Next(c, s), rest)
    ensures IsRunFrom(c, [s] + rest) && After(c, [s] + rest) == After(Next(c, s), rest)
  {
    assert ([s] + rest)[1..] == rest;
  }

  lemma OneServed(c: Chain, ok: bool)
    requires Inv(c) && forall caller <- c.callers :: caller.phase.Released?
    ensures var n := |c.callers|;
      var steps := [Call, Start(n), Finish(n, ok), Release(n)];
      && IsRunFrom(c, steps)
      && After(c, steps).callers == c.callers + [Caller(c.tail, Released(ok))]
  {
    var n := |c.callers|;
    var called := Next(c, Call);
    var started := Next(called, Start(n));
    var finished := Next(started, Finish(n, ok));
    RunStep(finished, Release(n), []);
    RunStep(started, Finish(n, ok), [Release(n)]);
    RunStep(called, Start(n), [Finish(n, ok), Release(n)]);
    RunStep(c, Call, [Start(n), Finish(n, ok), Release(n)]);
  }

  // Any number of callers can be served, whatever their operations come to.
  lemma {:induction false} AnyOutcomesCanCome(oks: seq<bool>) returns (steps: seq<Step>)
    ensures IsRunFrom(EMPTY_CHAIN, steps)
    ensures var callers := After(EMPTY_CHAIN, steps).callers;
      |callers| == |oks| && forall i :: 0 <= i < |oks| ==> callers[i].phase == Released(oks[i])
    decreases |oks|
  {
    if oks == [] {
      steps := [];
    } else {
      var n := |oks| - 1;
      var before := AnyOutcomesCanCome(oks[..n]);
      var c := After(EMPTY_CHAIN, before);
      RunKeepsInv(EMPTY_CHAIN, before);
      OneServed(c, oks[n]);
      steps := before + [Call, Start(n), Finish(n, oks[n]), Release(n)];
      RunAppend(EMPTY_CHAIN, before, [Call, Start(n), Finish(n, oks[n]), Release(n)]);
    }
  }
}
