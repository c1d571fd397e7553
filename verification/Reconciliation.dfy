// Walking the records page by page with a cursor visits what a plain pass over all records would.

module Reconciliation {
  import opened Options
  import opened Segments
  import opened SegmentStore
  import opened BatchRecovery
  import opened Effects

  function Unexpired(list: seq<Segment>, at: int): (live: seq<Segment>)
    ensures |live| <= |list|
    ensures forall s :: s in live <==> s in list && at < s.expiresAt
  {
    if list == [] then []
    else (if at < list[0].expiresAt then [list[0]] else []) + Unexpired(list[1..], at)
  }

  function After(list: seq<Segment>, cursor: Option<Segment>): (later: seq<Segment>)
    ensures forall s :: s in later <==> s in list && (cursor.None? || Older(cursor.value, s))
  {
    if list == [] then []
    else (if cursor.None? || Older(cursor.value, list[0]) then [list[0]] else []) + After(list[1..], cursor)
  }

  // listSegments({ expiresAfter, oldestFirst, afterEndedAt, afterSegmentId, limit })
  function ListPage(records: seq<Segment>, at: int, cursor: Option<Segment>, limit: nat): seq<Segment> {
    Take(Unexpired(After(records, cursor), at), limit)
  }

  // The cursor after the first `k` of the records were visited: the last unexpired one of them.
  ghost predicate CursorAt(records: seq<Segment>, k: nat, at: int, cursor: Option<Segment>) {
    && k <= |records|
    && (cursor.None? ==> k == 0)
    && (cursor.Some? ==> 0 < k && records[k - 1] == cursor.value)
  }

  lemma {:induction false} AfterAll(list: seq<Segment>, cursor: Option<Segment>)
    requires cursor.None? || forall s <- list :: Older(cursor.value, s)
    ensures After(list, cursor) == list
  {
    if list != [] { AfterAll(list[1..], cursor); }
  }

  lemma {:induction false} AfterNone(list: seq<Segment>, cursor: Segment)
    requires forall s <- list :: !Older(cursor, s)
    ensures After(list, Some(cursor)) == []
  {
    if list != [] {
      assert list[0] in list;
      AfterNone(list[1..], cursor);
    }
  }

  lemma {:induction false} AfterAppend(a: seq<Segment>, b: seq<Segment>, cursor: Option<Segment>)
    ensures After(a + b, cursor) == After(a, cursor) + After(b, cursor)
  {
    if a == [] {
      assert a + b == b;
    } else {
      assert (a + b)[1..] == a[1..] + b;
      AfterAppend(a[1..], b, cursor);
    }
  }

  lemma {:induction false} ReconcileAppend(s: Store, a: seq<Segment>, b: seq<Segment>, at: int)
    ensures ReconcileAll(s, a + b, at) == ReconcileAll(ReconcileAll(s, a, at), b, at)
  {
    if b == [] {
      assert a + b == a;
    } else {
      var front := b[..|b| - 1];
      assert (a + b)[..|a + b| - 1] == a + front;
      ReconcileAppend(s, a, front, at);
    }
  }

  lemma {:induction false} ReconcileSkipsExpired(s: Store, list: seq<Segment>, at: int)
    ensures ReconcileAll(s, list, at) == ReconcileAll(s, Unexpired(list, at), at)
    decreases |list|
  {
    hide ReconcileOne, Unexpired;
    if list != [] {
      var n := |list| - 1;
      ReconcileSkipsExpired(s, list[..n], at);
      UnexpiredLast(list, at);
      var live := Unexpired(list[..n], at);
      if at < list[n].expiresAt {
        assert (live + [list[n]])[..|live|] == live;
      } else {
        SkipsExpired(ReconcileAll(s, list[..n], at), list[n], at);
        assert live + [] == live;
      }
    }
  }

  lemma SkipsExpired(s: Store, r: Segment, at: int)
    requires r.expiresAt <= at
    ensures ReconcileOne(s, r, at) == s
  {}

  // The same of the operations.
  lemma {:induction false} RepairAppend(s: Store, a: seq<Segment>, b: seq<Segment>, at: int)
    ensures RepairAll(s, a + b, at) == RepairAll(s, a, at) + RepairAll(ReconcileAll(s, a, at), b, at)
    decreases |b|
  {
    hide Repair, ReconcileOne;
    if b == [] {
      assert a + b == a;
    } else {
      var front := b[..|b| - 1];
      assert (a + b)[..|a + b| - 1] == a + front;
      RepairAppend(s, a, front, at);
      ReconcileAppend(s, a, front, at);
    }
  }

  lemma {:induction false} RepairSkipsExpired(s: Store, list: seq<Segment>, at: int)
    ensures RepairAll(s, list, at) == RepairAll(s, Unexpired(list, at), at)
    decreases |list|
  {
    hide ReconcileOne, Repair, Unexpired;
    if list != [] {
      var n := |list| - 1;
      RepairSkipsExpired(s, list[..n], at);
      ReconcileSkipsExpired(s, list[..n], at);
      UnexpiredLast(list, at);
      var live := Unexpired(list[..n], at);
      if at < list[n].expiresAt {
        assert (live + [list[n]])[..|live|] == live;
      } else {
        NoRepair(ReconcileAll(s, list[..n], at), list[n], at);
        assert live + [] == live;
      }
    }
  }

  lemma NoRepair(s: Store, r: Segment, at: int)
    requires r.expiresAt <= at
    ensures Repair(s, r, at) == []
  {}

  lemma {:induction false} UnexpiredAppend(a: seq<Segment>, b: seq<Segment>, at: int)
    ensures Unexpired(a + b, at) == Unexpired(a, at) + Unexpired(b, at)
  {
    if a == [] {
      assert a + b == b;
    } else {
      assert (a + b)[1..] == a[1..] + b;
      UnexpiredAppend(a[1..], b, at);
    }
  }

  lemma UnexpiredOne(r: Segment, at: int)
    ensures Unexpired([r], at) == if at < r.expiresAt then [r] else []
  {
    assert [r][1..] == [] && Unexpired([], at) == [];
  }

  lemma UnexpiredLast(list: seq<Segment>, at: int)
    requires list != []
    ensures var n := |list| - 1;
      Unexpired(list, at) == Unexpired(list[..n], at) + if at < list[n].expiresAt then [list[n]] else []
  {
    hide Unexpired;
    var n := |list| - 1;
    assert list == list[..n] + [list[n]];
    UnexpiredOne(list[n], at);
    UnexpiredAppend(list[..n], [list[n]], at);
  }

  // One record's reconciliation removes at most that record.
  lemma OneLeavesRest(s: Store, front: seq<Segment>, r: Segment, rest: seq<Segment>, at: int)
    returns (left: seq<Segment>)
    requires s.records == front + ([r] + rest) && forall q <- rest :: q.id != r.id
    ensures ReconcileOne(s, r, at).records == left + rest
    ensures |left| <= |front| + 1 && forall q <- left :: q in front || q == r
  {
    var t := ReconcileOne(s, r, at);
    if t.records == s.records {
      left := front + [r];
      assert front + ([r] + rest) == left + rest;
    } else {
      WithoutAppend(front, [r] + rest, {r.id});
      WithoutAppend([r], rest, {r.id});
      WithoutNone(rest, {r.id});
      WithoutAll([r], {r.id});
      left := Without(front, {r.id});
      assert [] + rest == rest;
    }
  }

  lemma LaterIdsDiffer(s: Store, k: nat)
    requires s.WellFormed() && 0 < k <= |s.records|
    ensures forall q <- s.records[k..] :: q.id != s.records[k - 1].id
  {
    forall q | q in s.records[k..] ensures q.id != s.records[k - 1].id {
      var j :| k <= j < |s.records| && s.records[j] == q;
    }
  }

  lemma NothingDone(s: Store, at: int)
    ensures ReconcileAll(s, s.records[..0], at).records == [] + s.records[0..]
  {
    assert s.records[..0] == [];
  }

  lemma OneMore(s: Store, k: nat, at: int)
    requires 0 < k <= |s.records|
    ensures ReconcileAll(s, s.records[..k], at)
            == ReconcileOne(ReconcileAll(s, s.records[..k - 1], at), s.records[k - 1], at)
    ensures s.records[..k] == s.records[..k - 1] + [s.records[k - 1]]
  {
    assert s.records[..k][..k - 1] == s.records[..k - 1];
  }

  // After the first k records, the later ones are still all there, at the end.
  lemma {:induction false} ReconcileLeavesRest(s: Store, k: nat, at: int) returns (front: seq<Segment>)
    requires s.WellFormed() && k <= |s.records|
    ensures ReconcileAll(s, s.records[..k], at).records == front + s.records[k..]
    ensures |front| <= k && forall r <- front :: r in s.records[..k]
  {
    hide ReconcileOne, Store.WellFormed, ReconcileAll;
    if k == 0 {
      NothingDone(s, at);
      front := [];
    } else {
      var r := s.records[k - 1];
      var before := ReconcileLeavesRest(s, k - 1, at);
      OneMore(s, k, at);
      assert s.records[k - 1..] == [r] + s.records[k..];
      LaterIdsDiffer(s, k);
      front := OneLeavesRest(ReconcileAll(s, s.records[..k - 1], at), before, r, s.records[k..], at);
    }
  }

  // So the next page is the next unexpired records of the plain pass.
  lemma PageIsNext(s: Store, k: nat, at: int, cursor: Option<Segment>, limit: nat)
    requires s.WellFormed() && CursorAt(s.records, k, at, cursor)
    ensures ListPage(ReconcileAll(s, s.records[..k], at).records, at, cursor, limit)
            == Take(Unexpired(s.records[k..], at), limit)
  {
    hide ReconcileAll;
    var front := ReconcileLeavesRest(s, k, at);
    LaterAreAfter(s.records, k, at, cursor, front);
  }

  lemma LaterAreAfter(records: seq<Segment>, k: nat, at: int, cursor: Option<Segment>, front: seq<Segment>)
    requires Sorted(records) && CursorAt(records, k, at, cursor)
    requires |front| <= k && forall r <- front :: r in records[..k]
    ensures After(front + records[k..], cursor) == records[k..]
  {
    hide After;
    AfterAppend(front, records[k..], cursor);
    AfterAll(records[k..], cursor);
    if cursor.Some? {
      EarlierAreNotAfter(records, k, front);
      AfterNone(front, cursor.value);
      assert [] + records[k..] == records[k..];
    } else {
      AfterAll(front, cursor);
      assert front == [];
    }
  }

  lemma EarlierAreNotAfter(records: seq<Segment>, k: nat, front: seq<Segment>)
    requires Sorted(records) && 0 < k <= |records| && forall r <- front :: r in records[..k]
    ensures forall r <- front :: !Older(records[k - 1], r)
  {
    forall r | r in front ensures !Older(records[k - 1], r) {
      var i :| 0 <= i < k && records[i] == r;
      assert i < k - 1 ==> Older(records[i], records[k - 1]);
    }
  }

  lemma SlicesOfFront(list: seq<Segment>, n: nat)
    requires n < |list|
    ensures var last := |list| - 1;
      list[..last][..n] == list[..n] && list[n..][..last - n] == list[..last][n..] && list[n..][last - n] == list[last]
  {}

  lemma SlicesOfLonger(live: seq<Segment>, tail: seq<Segment>, m: nat)
    requires 0 < m <= |live|
    ensures (live + tail)[..m] == live[..m] && (live + tail)[m..] == live[m..] + tail
    ensures (live + tail)[m - 1] == live[m - 1]
  {}

  // The first m unexpired records end at some record of the list.
  lemma {:induction false} PageEnd(list: seq<Segment>, at: int, m: nat) returns (n: nat)
    requires 0 < m <= |Unexpired(list, at)|
    ensures 0 < n <= |list| && list[n - 1] == Unexpired(list, at)[m - 1]
    ensures Unexpired(list[..n], at) == Unexpired(list, at)[..m]
    ensures Unexpired(list[n..], at) == Unexpired(list, at)[m..]
    decreases |list|
  {
    hide Unexpired;
    var last := |list| - 1;
    UnexpiredLast(list, at);
    var live := Unexpired(list[..last], at);
    var tail := if at < list[last].expiresAt then [list[last]] else [];
    if m <= |live| {
      n := PageEnd(list[..last], at, m);
      SlicesOfFront(list, n);
      UnexpiredLast(list[n..], at);
      SlicesOfLonger(live, tail, m);
    } else {
      n := |list|;
      assert list[..n] == list && list[n..] == [];
    }
  }
}
