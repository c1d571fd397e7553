// What the diagnostics service does to its three stores: deleting, making room under the quotas, writing one segment.

module SegmentStore {
  import opened Options
  import opened Segments

  datatype Policy = Policy(technicalQuota: nat, visualQuota: nat, maxSegments: nat) {
    function QuotaFor(kind: Kind): nat {
      if kind.Technical? then technicalQuota else visualQuota
    }
  }

  const PAGE_LIMIT: nat := 1000

  // LIMIT limit
  function Take(list: seq<Segment>, limit: nat): seq<Segment> {
    if |list| <= limit then list else list[..limit]
  }

  datatype Store = Store(records: seq<Segment>, files: map<Path, Content>, indexes: map<Path, Segment>, quotaDrops: nat)
  {
    ghost predicate WellFormed() {
      Sorted(records) && DistinctIds(records)
    }

    // deleteStoredSegments: content and index files first, then the records.
    function Delete(segments: seq<Segment>): Store {
      this.(records := Without(records, Ids(segments)),
            files := files - Paths(segments), indexes := indexes - Paths(segments))
    }

    // The oldest segments over the count limit, so that one more fits.
    function CountEvicted(max: nat): seq<Segment>
      requires max > 0
    {
      if |records| >= max then records[..|records| - max + 1] else []
    }

    // The shortest oldest-first run of the kind's class that makes `incoming` bytes fit.
    function ByteEvicted(kind: Kind, incoming: nat, quota: nat): seq<Segment> {
      EvictionRun(OfClass(records, kind), ClassBytes(records, kind) + incoming - quota)
    }

    // enforceQuota for a segment no larger than its quota.
    function MakeRoom(kind: Kind, incoming: nat, policy: Policy): Store
      requires policy.maxSegments > 0
    {
      var overflow := CountEvicted(policy.maxSegments);
      var trimmed := Delete(overflow);
      var run := trimmed.ByteEvicted(kind, incoming, policy.QuotaFor(kind));
      trimmed.Delete(run).(quotaDrops := quotaDrops + |overflow| + |run|)
    }

    function WriteContent(s: Segment, content: Content): Store {
      this.(files := files[PathOf(s) := content])
    }

    function CreateRecord(s: Segment): Store {
      this.(records := Insert(records, s))
    }

    function WriteIndex(s: Segment): Store {
      this.(indexes := indexes[PathOf(s) := IndexPayload(s)])
    }

    predicate HasTechnicalOfBatch(s: Segment) {
      s.kind.Technical? && s.batchId.Some?
      && exists r :: r in records && r.kind.Technical? && r.captureId == s.captureId && r.clientId == s.clientId
                     && r.batchId == s.batchId
    }

    // createSegment of the repository refuses these.
    predicate Accepts(s: Segment, activeCapture: Option<string>) {
      activeCapture == Some(s.captureId) && s.id !in Ids(records) && !HasTechnicalOfBatch(s)
    }
  }

  lemma DeleteKeepsWellFormed(s: Store, segments: seq<Segment>)
    requires s.WellFormed()
    ensures s.Delete(segments).WellFormed()
  {
    WithoutKeepsOrder(s.records, Ids(segments));
  }

  lemma IdsAppend(a: seq<Segment>, b: seq<Segment>)
    ensures Ids(a + b) == Ids(a) + Ids(b) && Paths(a + b) == Paths(a) + Paths(b)
  {
    forall s | s in a + b ensures s in a || s in b {}
    forall s | s in a || s in b ensures s in a + b {}
  }

  lemma DeleteTwice(s: Store, a: seq<Segment>, b: seq<Segment>)
    ensures s.Delete(a).Delete(b) == s.Delete(a + b)
  {
    IdsAppend(a, b);
    WithoutTwice(s.records, Ids(a), Ids(b));
  }

  lemma DeleteNothing(s: Store)
    ensures s.Delete([]) == s
  {
    WithoutNone(s.records, {});
    assert Ids([]) == {} && Paths([]) == {};
    assert s.files - {} == s.files && s.indexes - {} == s.indexes;
  }

  // ---------------------------------------------------------------- what making room achieves

  // Main result. For a segment no larger than its quota:
  //   exactly count - max + 1 segments, the oldest, go for the count limit;
  //   then the shortest oldest-first run of the class goes for its bytes, and none of the other class;
  //   afterwards the segment fits both limits, the other class has not grown and every removal is counted.
  lemma MakeRoomIsExact(s: Store, kind: Kind, incoming: nat, policy: Policy)
    requires s.WellFormed() && policy.maxSegments > 0 && incoming <= policy.QuotaFor(kind)
    ensures var n := if |s.records| >= policy.maxSegments then |s.records| - policy.maxSegments + 1 else 0;
      && |s.CountEvicted(policy.maxSegments)| == n
      && s.Delete(s.CountEvicted(policy.maxSegments)).records == s.records[n..]
    ensures ByteStepExact(s.Delete(s.CountEvicted(policy.maxSegments)).records,
                          s.MakeRoom(kind, incoming, policy).records, kind, incoming, policy.QuotaFor(kind))
    ensures |s.MakeRoom(kind, incoming, policy).records| + 1 <= policy.maxSegments
    ensures s.MakeRoom(kind, incoming, policy).quotaDrops + |s.MakeRoom(kind, incoming, policy).records|
            == s.quotaDrops + |s.records|
  {
    var trimmed := s.Delete(s.CountEvicted(policy.maxSegments));
    CountLimitStep(s, policy.maxSegments);
    ByteLimitStep(trimmed, kind, incoming, policy.QuotaFor(kind));
    var run := trimmed.ByteEvicted(kind, incoming, policy.QuotaFor(kind));
    DeletedCount(trimmed, run);
    assert s.MakeRoom(kind, incoming, policy).records == trimmed.Delete(run).records;
  }

  // From `before` to `after` the shortest oldest-first run of `kind`'s class went, nothing else, and `incoming` fits.
  ghost predicate ByteStepExact(before: seq<Segment>, after: seq<Segment>, kind: Kind, incoming: nat, quota: nat) {
    var list := OfClass(before, kind);
    var k := |list| - |OfClass(after, kind)|;
    && Sorted(after) && DistinctIds(after)
    && 0 <= k && OfClass(after, kind) == list[k..]
    && ClassBytes(after, kind) + incoming <= quota
    && (forall j :: 0 <= j < k ==> quota < Bytes(list[j..]) + incoming)
    && (forall other :: !SameClass(other, kind) ==> OfClass(after, other) == OfClass(before, other))
  }

  // A sub-list with distinct ids is deleted one record per entry.
  lemma DeletedCount(s: Store, run: seq<Segment>)
    requires s.WellFormed() && DistinctIds(run) && forall x <- run :: x in s.records
    ensures |s.Delete(run).records| == |s.records| - |run|
  {
    WithoutCount(s.records, run);
  }

  lemma CountLimitStep(s: Store, max: nat)
    requires s.WellFormed() && max > 0
    ensures var n := if |s.records| >= max then |s.records| - max + 1 else 0;
      && |s.CountEvicted(max)| == n
      && s.Delete(s.CountEvicted(max)).records == s.records[n..]
      && s.Delete(s.CountEvicted(max)).WellFormed()
  {
    var n := if |s.records| >= max then |s.records| - max + 1 else 0;
    assert s.CountEvicted(max) == s.records[..n];
    WithoutPrefix(s.records, n);
    DeleteKeepsWellFormed(s, s.CountEvicted(max));
  }

  // The run is a prefix of its class that is just long enough.
  lemma RunFits(s: Store, kind: Kind, incoming: nat, quota: nat)
    requires incoming <= quota
    ensures var list, run := OfClass(s.records, kind), s.ByteEvicted(kind, incoming, quota);
      && |run| <= |list| && run == list[..|run|]
      && Bytes(list[|run|..]) + incoming <= quota
      && forall j :: 0 <= j < |run| ==> quota < Bytes(list[j..]) + incoming
  {
    hide EvictionRun, OfClass, Bytes;
    var list, run := OfClass(s.records, kind), s.ByteEvicted(kind, incoming, quota);
    RunIsShortest(list, Bytes(list) + incoming - quota);
    forall j | 0 <= j < |run| ensures quota < Bytes(list[j..]) + incoming { BytesSplit(list, j); }
    BytesSplit(list, |run|);
  }

  lemma OthersStay(records: seq<Segment>, kind: Kind, run: seq<Segment>)
    requires DistinctIds(records) && forall s <- run :: s in records && SameClass(s.kind, kind)
    ensures forall other :: !SameClass(other, kind) ==>
              OfClass(Without(records, Ids(run)), other) == OfClass(records, other)
  {
    hide OfClass, Without, DistinctIds, Ids;
    RunTouchesOnlyItsClass(records, kind, run);
    forall other | !SameClass(other, kind)
      ensures OfClass(Without(records, Ids(run)), other) == OfClass(records, other)
    {
      OtherClassWithout(records, other, Ids(run));
    }
  }

  lemma ByteLimitStep(s: Store, kind: Kind, incoming: nat, quota: nat)
    requires s.WellFormed() && incoming <= quota
    ensures ByteStepExact(s.records, s.Delete(s.ByteEvicted(kind, incoming, quota)).records, kind, incoming, quota)
    ensures DistinctIds(s.ByteEvicted(kind, incoming, quota))
    ensures forall x <- s.ByteEvicted(kind, incoming, quota) :: x in s.records
  {
    hide Store.ByteEvicted, OfClass, Without, Bytes, Sorted, DistinctIds, Ids;
    var list := OfClass(s.records, kind);
    var run := s.ByteEvicted(kind, incoming, quota);
    RunFits(s, kind, incoming, quota);
    OfClassDistinct(s.records, kind);
    PrefixDistinct(list, |run|);
    OfClassWithoutPrefix(s.records, kind, |run|);
    DeleteKeepsWellFormed(s, run);
    OfClassMembers(s.records, kind);
    OthersStay(s.records, kind, run);
  }

  lemma PrefixDistinct(list: seq<Segment>, n: nat)
    requires DistinctIds(list) && n <= |list|
    ensures DistinctIds(list[..n])
  {}

  lemma OfClassMembers(records: seq<Segment>, kind: Kind)
    ensures forall s <- OfClass(records, kind) :: s in records && SameClass(s.kind, kind)
  {}

  lemma RunTouchesOnlyItsClass(records: seq<Segment>, kind: Kind, run: seq<Segment>)
    requires DistinctIds(records) && forall s <- run :: s in records && SameClass(s.kind, kind)
    ensures forall s <- records :: s.id in Ids(run) ==> SameClass(s.kind, kind)
  {
    forall s | s in records && s.id in Ids(run) ensures SameClass(s.kind, kind) {
      var t :| t in run && t.id == s.id;
      var i :| 0 <= i < |records| && records[i] == s;
      var j :| 0 <= j < |records| && records[j] == t;
    }
  }

  // Once the segment is stored, its class and the count are within their limits.
  lemma StoredWithinLimits(s: Store, segment: Segment, policy: Policy)
    requires s.WellFormed() && policy.maxSegments > 0 && segment.byteSize <= policy.QuotaFor(segment.kind)
    ensures var after := s.MakeRoom(segment.kind, segment.byteSize, policy).CreateRecord(segment);
      && |after.records| <= policy.maxSegments
      && ClassBytes(after.records, segment.kind) <= policy.QuotaFor(segment.kind)
      && forall other :: !SameClass(other, segment.kind) ==>
           ClassBytes(after.records, other) <= ClassBytes(s.records, other)
  {
    MakeRoomIsExact(s, segment.kind, segment.byteSize, policy);
    var made := s.MakeRoom(segment.kind, segment.byteSize, policy);
    InsertBytes(made.records, segment, segment.kind);
    var n := if |s.records| >= policy.maxSegments then |s.records| - policy.maxSegments + 1 else 0;
    forall other | !SameClass(other, segment.kind)
      ensures ClassBytes(made.CreateRecord(segment).records, other) <= ClassBytes(s.records, other)
    {
      InsertBytes(made.records, segment, other);
      SuffixBytes(s.records, n, other);
    }
  }

  lemma {:induction false} InsertBytes(records: seq<Segment>, s: Segment, kind: Kind)
    ensures ClassBytes(Insert(records, s), kind)
            == ClassBytes(records, kind) + if SameClass(s.kind, kind) then s.byteSize else 0
  {
    if records != [] && !Older(s, records[0]) { InsertBytes(records[1..], s, kind); }
  }

  lemma {:induction false} SuffixBytes(records: seq<Segment>, n: nat, kind: Kind)
    requires n <= |records|
    ensures ClassBytes(records[n..], kind) <= ClassBytes(records, kind)
  {
    if n > 0 {
      assert records[n..] == records[1..][n - 1..];
      SuffixBytes(records[1..], n - 1, kind);
    } else {
      assert records[0..] == records;
    }
  }

  // ---------------------------------------------------------------- paging

  // One page of candidates either contains the whole run or is swallowed by it.
  lemma PageOfRun(list: seq<Segment>, m: nat, excess: int)
    requires m <= |list| && 0 < m && 0 < excess
    ensures var onPage := EvictionRun(list[..m], excess);
      && 0 < |onPage| && onPage == list[..|onPage|]
      && EvictionRun(list, excess) == onPage + EvictionRun(list[|onPage|..], excess - Bytes(onPage))
      && (|onPage| < m ==> excess <= Bytes(onPage))
  {
    var page := list[..m];
    var onPage := EvictionRun(page, excess);
    var k := |onPage|;
    assert page[..k] == list[..k] && page[..k - 1] == list[..k - 1];
    RunPrefix(page, excess);
    RunContinues(list, excess, k);
  }

  lemma {:induction false} RunPrefix(segments: seq<Segment>, excess: int)
    requires 0 < excess && segments != []
    ensures var run := EvictionRun(segments, excess);
      && 0 < |run| && Bytes(segments[..|run| - 1]) < excess
      && (|run| < |segments| ==> excess <= Bytes(run))
  {
    var run := EvictionRun(segments, excess);
    var rest := excess - segments[0].byteSize;
    if rest > 0 && |segments| > 1 {
      RunPrefix(segments[1..], rest);
      BytesCons(segments, |run| - 2);
      assert run[1..] == EvictionRun(segments[1..], rest);
    } else {
      assert run == [segments[0]] && segments[..0] == [];
      assert run[1..] == [];
    }
  }

  // The run of a list is its first n segments when they suffice, or are all there are, and one less does not.
  lemma RunIs(list: seq<Segment>, excess: int, n: nat)
    requires 0 < n <= |list| && Bytes(list[..n - 1]) < excess
    requires n == |list| || excess <= Bytes(list[..n])
    ensures EvictionRun(list, excess) == list[..n]
  {
    RunContinues(list, excess, n);
    var more := EvictionRun(list[n..], excess - Bytes(list[..n]));
    assert more == [];
  }

  // Deleting one more page of a prefix.
  lemma CountPage(s: Store, done: nat, more: nat)
    requires s.WellFormed() && done <= more <= |s.records|
    ensures s.Delete(s.records[..done]).records == s.records[done..]
    ensures s.Delete(s.records[..done]).Delete(s.records[done..more]) == s.Delete(s.records[..more])
  {
    WithoutPrefix(s.records, done);
    assert s.records[..more] == s.records[..done] + s.records[done..more];
    DeleteTwice(s, s.records[..done], s.records[done..more]);
  }

  // Deleting one more page of a class's list.
  lemma BytePage(s: Store, kind: Kind, done: nat, more: nat)
    requires s.WellFormed() && done <= more <= |OfClass(s.records, kind)|
    ensures var all := OfClass(s.records, kind);
      && OfClass(s.Delete(all[..done]).records, kind) == all[done..]
      && s.Delete(all[..done]).Delete(all[done..more]) == s.Delete(all[..more])
  {
    hide OfClass, Without, Ids, Paths, Sorted, DistinctIds;
    var all := OfClass(s.records, kind);
    OfClassWithoutPrefix(s.records, kind, done);
    assert all[..more] == all[..done] + all[done..more];
    DeleteTwice(s, all[..done], all[done..more]);
  }

  // One pass of the byte loop, over one page of the class's list.
  lemma RunPass(all: seq<Segment>, done: nat, m: nat, left: int)
    requires 0 < m && 0 < left && done + m <= |all|
    ensures var page := all[done..done + m];
      var n := |EvictionRun(page, left)|;
      && 0 < n <= m && Bytes(page) <= Bytes(all[done..])
      && Bytes(all[done..]) == Bytes(page[..n]) + Bytes(all[done + n..])
      && all[..done] + EvictionRun(all[done..], left)
         == all[..done + n] + EvictionRun(all[done + n..], left - Bytes(page[..n]))
  {
    hide EvictionRun, Bytes;
    var rest := all[done..];
    assert all[done..done + m] == rest[..m];
    BytesSplit(rest, m);
    PageOfRun(rest, m, left);
    var n := |EvictionRun(rest[..m], left)|;
    BytesSplit(rest, n);
    assert rest[..m][..n] == rest[..n] && rest[n..] == all[done + n..];
    AppendRun(all, done, n, EvictionRun(all[done + n..], left - Bytes(rest[..n])));
  }

  lemma AppendRun(all: seq<Segment>, done: nat, n: nat, more: seq<Segment>)
    requires done + n <= |all|
    ensures all[..done] + (all[done..][..n] + more) == all[..done + n] + more
  {}
}
