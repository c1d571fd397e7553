// Diagnostics segments and the three stores that must agree about them (apps/api/src/app-diagnostics.ts): repository
// records, content files and index files.

module Segments {
  import opened Options

  datatype Kind = Technical | DomSnapshot | Video

  // A segment id, numbered in the text order the database sorts by.
  type Id = nat

  datatype Segment = Segment(
    id: Id, captureId: string, clientId: string, batchId: Option<string>, batchFingerprint: Option<string>,
    kind: Kind, byteSize: nat, endedAt: int, expiresAt: int)

  // `<capture>/<client>/<category>/<id>.<ext>`, relative to the diagnostics root.
  datatype Path = Path(captureId: string, clientId: string, kind: Kind, id: Id)

  type Content = seq<bv8>

  function PathOf(s: Segment): Path {
    Path(s.captureId, s.clientId, s.kind, s.id)
  }

  // The public metadata an index file holds: everything but the batch columns.
  function IndexPayload(s: Segment): Segment {
    s.(batchId := None, batchFingerprint := None)
  }

  predicate Older(a: Segment, b: Segment) {
    a.endedAt < b.endedAt || (a.endedAt == b.endedAt && a.id < b.id)
  }

  // ORDER BY ended_at, segment_id
  ghost predicate Sorted(records: seq<Segment>) {
    forall i, j :: 0 <= i < j < |records| ==> Older(records[i], records[j])
  }

  ghost predicate DistinctIds(records: seq<Segment>) {
    forall i, j :: 0 <= i < j < |records| ==> records[i].id != records[j].id
  }

  function Ids(segments: seq<Segment>): set<Id> {
    set s | s in segments :: s.id
  }

  function Paths(segments: seq<Segment>): set<Path> {
    set s | s in segments :: PathOf(s)
  }

  // DELETE ... WHERE segment_id = ANY(ids)
  function Without(records: seq<Segment>, ids: set<Id>): (kept: seq<Segment>)
    ensures forall s :: s in kept <==> s in records && s.id !in ids
    ensures |kept| <= |records|
  {
    if records == [] then []
    else if records[0].id in ids then Without(records[1..], ids)
    else [records[0]] + Without(records[1..], ids)
  }

  // INSERT, seen in sorted order.
  function Insert(records: seq<Segment>, s: Segment): (all: seq<Segment>)
    ensures forall x :: x in all <==> x in records || x == s
    ensures |all| == |records| + 1
  {
    if records == [] || Older(s, records[0]) then [s] + records
    else [records[0]] + Insert(records[1..], s)
  }

  predicate SameClass(a: Kind, b: Kind) {
    a.Technical? <==> b.Technical?
  }

  // The records that share `kind`'s quota.
  function OfClass(records: seq<Segment>, kind: Kind): (found: seq<Segment>)
    ensures forall s :: s in found <==> s in records && SameClass(s.kind, kind)
    ensures |found| <= |records|
  {
    if records == [] then []
    else if SameClass(records[0].kind, kind) then [records[0]] + OfClass(records[1..], kind)
    else OfClass(records[1..], kind)
  }

  function Bytes(segments: seq<Segment>): nat {
    if segments == [] then 0 else segments[0].byteSize + Bytes(segments[1..])
  }

  function ClassBytes(records: seq<Segment>, kind: Kind): nat {
    Bytes(OfClass(records, kind))
  }

  // The shortest oldest-first run that frees `excess` bytes.
  function EvictionRun(segments: seq<Segment>, excess: int): (run: seq<Segment>)
    ensures |run| <= |segments| && run == segments[..|run|]
  {
    if excess <= 0 || segments == [] then []
    else [segments[0]] + EvictionRun(segments[1..], excess - segments[0].byteSize)
  }

  // ---------------------------------------------------------------- lemmas

  lemma {:induction false} WithoutAppend(a: seq<Segment>, b: seq<Segment>, ids: set<Id>)
    ensures Without(a + b, ids) == Without(a, ids) + Without(b, ids)
  {
    if a == [] {
      assert a + b == b;
    } else {
      assert (a + b)[1..] == a[1..] + b;
      WithoutAppend(a[1..], b, ids);
    }
  }

  lemma {:induction false} WithoutNone(records: seq<Segment>, ids: set<Id>)
    requires forall s <- records :: s.id !in ids
    ensures Without(records, ids) == records
  {
    if records != [] { WithoutNone(records[1..], ids); }
  }

  lemma {:induction false} WithoutAll(records: seq<Segment>, ids: set<Id>)
    requires forall s <- records :: s.id in ids
    ensures Without(records, ids) == []
  {
    if records != [] {
      assert records[0] in records;
      WithoutAll(records[1..], ids);
    }
  }

  lemma PrefixIdsApart(records: seq<Segment>, n: nat, s: Segment)
    requires DistinctIds(records) && n <= |records| && s in records[n..]
    ensures s.id !in Ids(records[..n])
  {
    var j :| n <= j < |records| && records[j] == s;
    forall t | t in records[..n] ensures t.id != s.id {
      var i :| 0 <= i < n && records[i] == t;
    }
  }

  // Deleting the first n records leaves the others.
  lemma WithoutPrefix(records: seq<Segment>, n: nat)
    requires DistinctIds(records) && n <= |records|
    ensures Without(records, Ids(records[..n])) == records[n..]
  {
    var front, back := records[..n], records[n..];
    assert records == front + back;
    forall s | s in back ensures s.id !in Ids(front) { PrefixIdsApart(records, n, s); }
    WithoutAppend(front, back, Ids(front));
    WithoutAll(front, Ids(front));
    WithoutNone(back, Ids(front));
    assert [] + back == back;
  }

  lemma {:induction false} WithoutTwice(records: seq<Segment>, a: set<Id>, b: set<Id>)
    ensures Without(Without(records, a), b) == Without(records, a + b)
  {
    if records != [] { WithoutTwice(records[1..], a, b); }
  }

  lemma {:induction false} WithoutKeepsOrder(records: seq<Segment>, ids: set<Id>)
    requires Sorted(records) && DistinctIds(records)
    ensures Sorted(Without(records, ids)) && DistinctIds(Without(records, ids))
  {
    if records != [] {
      WithoutKeepsOrder(records[1..], ids);
      var rest := Without(records[1..], ids);
      forall j | 0 <= j < |rest|
        ensures Older(records[0], rest[j]) && records[0].id != rest[j].id
      {
        assert rest[j] in records[1..];
      }
    }
  }

  lemma {:induction false} InsertKeepsOrder(records: seq<Segment>, s: Segment)
    requires Sorted(records) && DistinctIds(records) && s.id !in Ids(records)
    ensures Sorted(Insert(records, s)) && DistinctIds(Insert(records, s))
  {
    if records == [] {
    } else if Older(s, records[0]) {
      forall j | 0 <= j < |records| ensures Older(s, records[j]) && s.id != records[j].id {
        assert records[j] in records;
      }
    } else {
      var rest := Insert(records[1..], s);
      forall x | x in records[1..] ensures x.id in Ids(records) {}
      InsertKeepsOrder(records[1..], s);
      assert records[0] in records;
      forall j | 0 <= j < |rest| ensures Older(records[0], rest[j]) && records[0].id != rest[j].id {
        assert rest[j] in rest;
        if rest[j] != s { assert rest[j] in records[1..]; }
      }
    }
  }

  lemma {:induction false} BytesAppend(a: seq<Segment>, b: seq<Segment>)
    ensures Bytes(a + b) == Bytes(a) + Bytes(b)
  {
    if a == [] {
      assert a + b == b;
    } else {
      assert (a + b)[1..] == a[1..] + b;
      BytesAppend(a[1..], b);
    }
  }

  lemma BytesSplit(s: seq<Segment>, n: nat)
    requires n <= |s|
    ensures Bytes(s) == Bytes(s[..n]) + Bytes(s[n..])
  {
    assert s == s[..n] + s[n..];
    BytesAppend(s[..n], s[n..]);
  }

  lemma {:induction false} OfClassDistinct(records: seq<Segment>, kind: Kind)
    requires DistinctIds(records)
    ensures DistinctIds(OfClass(records, kind))
  {
    if records != [] {
      OfClassDistinct(records[1..], kind);
      var rest := OfClass(records[1..], kind);
      forall j | 0 <= j < |rest| ensures records[0].id != rest[j].id {
        assert rest[j] in rest && rest[j] in records[1..];
      }
    }
  }

  lemma {:induction false} OfClassOfWithout(records: seq<Segment>, kind: Kind, ids: set<Id>)
    ensures OfClass(Without(records, ids), kind) == Without(OfClass(records, kind), ids)
  {
    if records != [] { OfClassOfWithout(records[1..], kind, ids); }
  }

  // Deleting a prefix of one class's list leaves the rest of that list.
  lemma OfClassWithoutPrefix(records: seq<Segment>, kind: Kind, n: nat)
    requires DistinctIds(records) && n <= |OfClass(records, kind)|
    ensures OfClass(Without(records, Ids(OfClass(records, kind)[..n])), kind) == OfClass(records, kind)[n..]
  {
    OfClassOfWithout(records, kind, Ids(OfClass(records, kind)[..n]));
    OfClassDistinct(records, kind);
    WithoutPrefix(OfClass(records, kind), n);
  }

  // Deleting listed records removes exactly as many as are listed.
  lemma {:induction false} WithoutCount(records: seq<Segment>, listed: seq<Segment>)
    requires DistinctIds(records) && DistinctIds(listed) && forall s <- listed :: s in records
    ensures |Without(records, Ids(listed))| == |records| - |listed|
  {
    if listed == [] {
      assert Ids([]) == {};
      WithoutNone(records, {});
    } else {
      var n := |listed| - 1;
      var last := listed[n];
      WithoutCount(records, listed[..n]);
      IdsOfLast(listed);
      WithoutTwice(records, Ids(listed[..n]), {last.id});
      WithoutDistinct(records, Ids(listed[..n]));
      WithoutOne(Without(records, Ids(listed[..n])), last);
    }
  }

  lemma IdsOfLast(listed: seq<Segment>)
    requires DistinctIds(listed) && listed != []
    ensures Ids(listed) == Ids(listed[..|listed| - 1]) + {listed[|listed| - 1].id}
    ensures listed[|listed| - 1].id !in Ids(listed[..|listed| - 1])
  {
    var n := |listed| - 1;
    assert listed == listed[..n] + [listed[n]];
    assert listed[n] in listed[n..];
    PrefixIdsApart(listed, n, listed[n]);
  }

  lemma {:induction false} WithoutDistinct(records: seq<Segment>, ids: set<Id>)
    requires DistinctIds(records)
    ensures DistinctIds(Without(records, ids))
  {
    if records != [] {
      WithoutDistinct(records[1..], ids);
      var rest := Without(records[1..], ids);
      forall j | 0 <= j < |rest| ensures records[0].id != rest[j].id {
        assert rest[j] in rest && rest[j] in records[1..];
      }
    }
  }

  lemma {:induction false} WithoutOne(records: seq<Segment>, s: Segment)
    requires DistinctIds(records) && s in records
    ensures |Without(records, {s.id})| == |records| - 1
  {
    if records[0] == s {
      forall r | r in records[1..] ensures r.id != s.id {
        var j :| 1 <= j < |records| && records[j] == r;
      }
      WithoutNone(records[1..], {s.id});
    } else {
      assert s in records[1..];
      var j :| 1 <= j < |records| && records[j] == s;
      WithoutOne(records[1..], s);
    }
  }

  // Deleting records of one class leaves the other class alone.
  lemma {:induction false} OtherClassWithout(records: seq<Segment>, kind: Kind, ids: set<Id>)
    requires forall s <- records :: s.id in ids ==> !SameClass(s.kind, kind)
    ensures OfClass(Without(records, ids), kind) == OfClass(records, kind)
  {
    if records != [] { OtherClassWithout(records[1..], kind, ids); }
  }

  // A run is the rest of a run once its first `n` segments are gone.
  lemma {:induction false} RunContinues(segments: seq<Segment>, excess: int, n: nat)
    requires n <= |segments| && (n > 0 ==> Bytes(segments[..n - 1]) < excess)
    ensures EvictionRun(segments, excess) == segments[..n] + EvictionRun(segments[n..], excess - Bytes(segments[..n]))
  {
    hide Bytes, EvictionRun;
    if n == 0 {
      NoBytes();
      assert segments[0..] == segments && segments[..0] == [];
      assert [] + EvictionRun(segments, excess) == EvictionRun(segments, excess);
    } else {
      var rest, head := segments[1..], segments[0];
      if n > 1 { BytesCons(segments, n - 2); }
      RunUnfolds(segments, excess);
      RunContinues(rest, excess - head.byteSize, n - 1);
      BytesCons(segments, n - 1);
      var tail := EvictionRun(segments[n..], excess - Bytes(segments[..n]));
      assert rest[n - 1..] == segments[n..];
      assert EvictionRun(rest, excess - head.byteSize) == rest[..n - 1] + tail;
      HeadThen(segments, n, tail);
    }
  }

  lemma HeadThen(segments: seq<Segment>, n: nat, tail: seq<Segment>)
    requires 0 < n <= |segments|
    ensures segments[..n] + tail == [segments[0]] + (segments[1..][..n - 1] + tail)
  {}

  lemma NoBytes()
    ensures Bytes([]) == 0
  {}

  lemma RunUnfolds(segments: seq<Segment>, excess: int)
    requires segments != [] && excess > 0
    ensures EvictionRun(segments, excess) == [segments[0]] + EvictionRun(segments[1..], excess - segments[0].byteSize)
  {}

  lemma BytesCons(segments: seq<Segment>, j: nat)
    requires j < |segments|
    ensures Bytes(segments[..j + 1]) == segments[0].byteSize + Bytes(segments[1..][..j])
  {
    assert segments[..j + 1] == [segments[0]] + segments[1..][..j];
  }

  // The run frees enough, and nothing shorter does.
  lemma {:induction false} RunIsShortest(segments: seq<Segment>, excess: int)
    requires excess <= Bytes(segments)
    ensures excess <= Bytes(EvictionRun(segments, excess))
    ensures forall j :: 0 <= j < |EvictionRun(segments, excess)| ==> Bytes(segments[..j]) < excess
  {
    var run := EvictionRun(segments, excess);
    if excess > 0 && segments != [] {
      RunIsShortest(segments[1..], excess - segments[0].byteSize);
      forall j | 0 <= j < |run| ensures Bytes(segments[..j]) < excess {
        if j > 0 { assert segments[..j][1..] == segments[1..][..j - 1]; }
      }
    }
  }
}
