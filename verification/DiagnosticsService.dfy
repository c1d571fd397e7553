// AppDiagnosticsService: the methods that change records, content files and index files, proved against the store
// functions of SegmentStore and BatchRecovery. The ghost field `performed` records every file and repository operation,
// so the methods also show that the operations are those of Effects, in that order.

module DiagnosticsService {
  import opened Options
  import opened Segments
  import opened SegmentStore
  import opened BatchRecovery
  import opened Effects
  import opened Reconciliation

  datatype Outcome = Accepted | CaptureInactive | BatchConflict | QuotaExceeded | PathInvalid | RepositoryConflict

  lemma RemovalsOfLast(segments: seq<Segment>, i: nat)
    requires i < |segments|
    ensures Removals(Reversed(segments[i..]))
         == Removals(Reversed(segments[i + 1..])) + [Unlink(PathOf(segments[i])), RemoveIndex(PathOf(segments[i]))]
  {
    assert segments[i..] == [segments[i]] + segments[i + 1..] && segments[i..][1..] == segments[i + 1..];
    RemovalsAppend(Reversed(segments[i + 1..]), segments[i]);
  }

  lemma {:induction false} RemovalsAppend(order: seq<Segment>, s: Segment)
    ensures Removals(order + [s]) == Removals(order) + [Unlink(PathOf(s)), RemoveIndex(PathOf(s))]
  {
    if order == [] {
      assert [s][1..] == [];
    } else {
      assert (order + [s])[1..] == order[1..] + [s];
      RemovalsAppend(order[1..], s);
    }
  }

  lemma PathsOfPrefix(segments: seq<Segment>, n: nat)
    requires n <= |segments|
    ensures n == 0 ==> Paths(segments[..n]) == {} && Bytes(segments[..n]) == 0
    ensures n > 0 ==> Paths(segments[..n]) == Paths(segments[..n - 1]) + {PathOf(segments[n - 1])}
    ensures n > 0 ==> Bytes(segments[..n]) == Bytes(segments[..n - 1]) + segments[n - 1].byteSize
  {
    if n > 0 {
      var last := [segments[n - 1]];
      assert segments[..n] == segments[..n - 1] + last && last[1..] == [];
      IdsAppend(segments[..n - 1], last);
      BytesAppend(segments[..n - 1], last);
      assert Paths(last) == {PathOf(segments[n - 1])};
    }
  }

  lemma NonEmptyBytes(list: seq<Segment>)
    ensures Bytes(list) > 0 ==> list != []
  {}

  lemma RunStarts(s: Store, kind: Kind, incoming: nat, quota: nat)
    ensures var all := OfClass(s.records, kind);
      && all[..0] == [] && Bytes(all[0..]) == ClassBytes(s.records, kind)
      && s.ByteEvicted(kind, incoming, quota) == all[..0] + EvictionRun(all[0..], Bytes(all[0..]) + incoming - quota)
  {
    hide EvictionRun, Bytes, OfClass;
    var all := OfClass(s.records, kind);
    assert all[0..] == all && all[..0] == [];
    var run := EvictionRun(all, Bytes(all) + incoming - quota);
    assert [] + run == run;
  }

  lemma NoRun(list: seq<Segment>, excess: int)
    requires excess <= 0
    ensures EvictionRun(list, excess) == []
  {}

  lemma DeleteIs(s: Store, segments: seq<Segment>)
    ensures s.Delete(segments) == Store(Without(s.records, Ids(segments)), s.files - Paths(segments),
                                        s.indexes - Paths(segments), s.quotaDrops)
  {}

  lemma OnlyRecordsMatter(s: Store, t: Store)
    requires s.WellFormed() && t.records == s.records
    ensures t.WellFormed()
  {}

  lemma PersistedStaysWellFormed(s: Store, item: Item, activeCapture: Option<string>)
    requires s.WellFormed() && s.Accepts(item.segment, activeCapture) && item.segment.byteSize == |item.bytes|
    ensures Persisted(s, item).WellFormed()
  {
    InsertKeepsOrder(s.records, item.segment);
  }

  lemma PathsCons(segments: seq<Segment>, i: nat)
    requires i < |segments|
    ensures Paths(segments[i..]) == Paths(segments[i + 1..]) + {PathOf(segments[i])}
  {
    assert segments[i..] == [segments[i]] + segments[i + 1..];
    IdsAppend([segments[i]], segments[i + 1..]);
    assert Paths([segments[i]]) == {PathOf(segments[i])};
  }

  lemma NoRemovals(segments: seq<Segment>)
    ensures Removals(Reversed(segments[|segments|..])) == [] && Paths(segments[|segments|..]) == {}
  {
    assert segments[|segments|..] == [];
  }

  lemma RemovalsOfPrefix(segments: seq<Segment>, n: nat)
    requires n <= |segments|
    ensures n == 0 ==> Removals(segments[..n]) == []
    ensures n > 0 ==>
              var path := PathOf(segments[n - 1]);
              Removals(segments[..n]) == Removals(segments[..n - 1]) + [Unlink(path), RemoveIndex(path)]
  {
    if n > 0 {
      assert segments[..n] == segments[..n - 1] + [segments[n - 1]];
      RemovalsAppend(segments[..n - 1], segments[n - 1]);
    }
  }

  lemma DeleteReversed(s: Store, segments: seq<Segment>)
    ensures s.Delete(Reversed(segments)) == s.Delete(segments)
  {
    ReversedMembers(segments);
  }

  // The count step, then the byte step, each with its counter, make the room and are its effects.
  lemma RoomIsMade(start: Store, counted: Store, end: Store, kind: Kind, incoming: nat, policy: Policy)
    requires policy.maxSegments > 0
    requires var overflow := start.CountEvicted(policy.maxSegments);
      counted == start.Delete(overflow).(quotaDrops := start.Delete(overflow).quotaDrops + |overflow|)
    requires var run := counted.ByteEvicted(kind, incoming, policy.QuotaFor(kind));
      end == counted.Delete(run).(quotaDrops := counted.Delete(run).quotaDrops + |run|)
    ensures end == start.MakeRoom(kind, incoming, policy)
    ensures RoomEffects(start, kind, incoming, policy)
         == CountPages(start.CountEvicted(policy.maxSegments)) + Counted(|start.CountEvicted(policy.maxSegments)|)
            + (BytePages(counted.ByteEvicted(kind, incoming, policy.QuotaFor(kind)))
               + Counted(|counted.ByteEvicted(kind, incoming, policy.QuotaFor(kind))|))
  {
    hide Store.ByteEvicted, Store.CountEvicted, CountPages, BytePages, Counted, Without, Ids, Paths;
    var overflow := start.CountEvicted(policy.maxSegments);
    CounterIsIrrelevant(start.Delete(overflow), counted.quotaDrops, kind, incoming, policy.QuotaFor(kind));
  }

  lemma NoCountPages(s: Store)
    ensures CountPages([]) == [] && s.records[..0] == [] && s.Delete([]) == s
  {
    DeleteNothing(s);
  }

  // One pass of the count loop, when `done` of the n oldest segments are gone.
  lemma CountPass(s: Store, n: nat, done: nat)
    requires s.WellFormed() && done < n <= |s.records|
    ensures var limit := if n - done < PAGE_LIMIT then n - done else PAGE_LIMIT;
      var before, page := s.Delete(s.records[..done]), Take(s.Delete(s.records[..done]).records, limit);
      && 0 < |page| && done + |page| <= n
      && before.Delete(page) == s.Delete(s.records[..done + |page|])
      && CountPages(s.records[..n][done..]) == DeleteListed(page) + CountPages(s.records[..n][done + |page|..])
  {
    hide Store.Delete, DeleteListed, Sorted, DistinctIds;
    var limit := if n - done < PAGE_LIMIT then n - done else PAGE_LIMIT;
    CountPage(s, done, done + limit);
    var page := s.records[done..done + limit];
    assert s.records[done..][..limit] == page;
    assert Take(s.Delete(s.records[..done]).records, limit) == page;
    var listed := s.records[..n][done..];
    assert Take(listed, PAGE_LIMIT) == page;
    assert listed[limit..] == s.records[..n][done + limit..];
    assert CountPages(listed) == DeleteListed(page) + CountPages(listed[limit..]);
  }

  lemma TakeIsSlice(all: seq<Segment>, done: nat, limit: nat)
    requires done <= |all|
    ensures var page := Take(all[done..], limit); done + |page| <= |all| && page == all[done..done + |page|]
  {}

  lemma SliceOfSlice(all: seq<Segment>, done: nat, m: nat, n: nat)
    requires done + m <= |all| && n <= m
    ensures all[done..done + m][..n] == all[done..done + n]
  {}

  // A run that is shorter than its list frees enough.
  lemma RunEnds(list: seq<Segment>, excess: int)
    requires 0 < excess && list != []
    ensures var run := EvictionRun(list, excess); |run| < |list| ==> excess <= Bytes(run)
  {
    RunPrefix(list, excess);
  }

  // A full page, or one after which nothing is left of the run, is the run's next page.
  lemma PageOfPages(all: seq<Segment>, run: seq<Segment>, done: nat, n: nat, left: int)
    requires 0 < n <= PAGE_LIMIT && done + n <= |all|
    requires run == all[..done + n] + EvictionRun(all[done + n..], left)
    requires n == PAGE_LIMIT || left <= 0 || done + n == |all|
    ensures BytePages(run[done..]) == Deletion(all[done..done + n]) + BytePages(run[done + n..])
  {
    var page := Take(run[done..], PAGE_LIMIT);
    assert run[done..][..n] == all[done..done + n];
    assert page == all[done..done + n];
    assert run[done..][n..] == run[done + n..];
  }

  lemma NoBytePages()
    ensures BytePages([]) == []
  {}

  class AppDiagnosticsService {
    var records: seq<Segment>
    var files: map<Path, Content>
    var indexes: map<Path, Segment>
    var quotaDrops: nat
    var activeCapture: Option<string>
    ghost var performed: seq<Effect>
    const policy: Policy

    ghost function View(): Store
      reads this
    {
      Store(records, files, indexes, quotaDrops)
    }

    ghost predicate Valid()
      reads this
    {
      View().WellFormed() && policy.maxSegments > 0
    }

    constructor (policy: Policy)
      requires policy.maxSegments > 0
      ensures Valid() && View() == Store([], map[], map[], 0) && activeCapture == None && this.policy == policy
      ensures performed == []
    {
      records, files, indexes, quotaDrops, activeCapture, performed := [], map[], map[], 0, None, [];
      this.policy := policy;
    }

    // ---------------------------------------------------------------- single operations

    method UnlinkFile(path: Path)
      modifies this`files, this`performed
      ensures View() == Apply(old(View()), Unlink(path)) && performed == old(performed) + [Unlink(path)]
    {
      files := files - {path};
      performed := performed + [Unlink(path)];
    }

    method RemoveSegmentIndex(path: Path)
      modifies this`indexes, this`performed
      ensures View() == Apply(old(View()), RemoveIndex(path)) && performed == old(performed) + [RemoveIndex(path)]
    {
      indexes := indexes - {path};
      performed := performed + [RemoveIndex(path)];
    }

    method DeleteSegments(ids: set<Id>)
      modifies this`records, this`performed
      ensures View() == Apply(old(View()), DeleteRecords(ids)) && performed == old(performed) + [DeleteRecords(ids)]
    {
      records := Without(records, ids);
      performed := performed + [DeleteRecords(ids)];
    }

    method WriteContentFile(path: Path, content: Content)
      modifies this`files, this`performed
      ensures View() == Apply(old(View()), WriteFile(path, content))
      ensures performed == old(performed) + [WriteFile(path, content)]
    {
      files := files[path := content];
      performed := performed + [WriteFile(path, content)];
    }

    method CreateSegment(s: Segment)
      modifies this`records, this`performed
      ensures View() == Apply(old(View()), CreateRecord(s)) && performed == old(performed) + [CreateRecord(s)]
    {
      records := Insert(records, s);
      performed := performed + [CreateRecord(s)];
    }

    method WriteSegmentIndex(s: Segment)
      modifies this`indexes, this`performed
      ensures View() == Apply(old(View()), WriteIndex(s)) && performed == old(performed) + [WriteIndex(s)]
    {
      indexes := indexes[PathOf(s) := IndexPayload(s)];
      performed := performed + [WriteIndex(s)];
    }

    method IncrementQuotaDrops(count: nat)
      modifies this`quotaDrops, this`performed
      ensures View() == Apply(old(View()), CountDrops(count)) && performed == old(performed) + [CountDrops(count)]
    {
      quotaDrops := quotaDrops + count;
      performed := performed + [CountDrops(count)];
    }

    // ---------------------------------------------------------------- removing

    method RemoveStoredFile(s: Segment)
      modifies this`files, this`indexes, this`performed
      ensures files == old(files) - {PathOf(s)} && indexes == old(indexes) - {PathOf(s)}
      ensures performed == old(performed) + [Unlink(PathOf(s)), RemoveIndex(PathOf(s))]
    {
      UnlinkFile(PathOf(s));
      RemoveSegmentIndex(PathOf(s));
    }

    method DeleteStoredSegments(segments: seq<Segment>)
      modifies this`records, this`files, this`indexes, this`performed
      ensures View() == old(View()).Delete(segments)
      ensures performed == old(performed) + DeleteListed(segments)
    {
      hide Without, Removals, Reversed, Paths;
      var i := |segments|;
      NoRemovals(segments);
      while i > 0
        invariant 0 <= i <= |segments|
        invariant files == old(files) - Paths(segments[i..]) && indexes == old(indexes) - Paths(segments[i..])
        invariant records == old(records) && performed == old(performed) + Removals(Reversed(segments[i..]))
      {
        i := i - 1;
        RemoveStoredFile(segments[i]);
        PathsCons(segments, i);
        RemovalsOfLast(segments, i);
      }
      assert segments[0..] == segments;
      ReversedMembers(segments);
      DeleteSegments(Ids(segments));
    }

    // The inner loop of enforceQuota: removes files oldest first until the incoming bytes fit.
    method RemoveUntilFits(candidates: seq<Segment>, current: nat, incoming: nat, quota: nat) returns (n: nat)
      requires current + incoming > quota && candidates != [] && Bytes(candidates) <= current
      modifies this`files, this`indexes, this`performed
      ensures n <= |candidates| && candidates[..n] == EvictionRun(candidates, current + incoming - quota)
      ensures files == old(files) - Paths(candidates[..n]) && indexes == old(indexes) - Paths(candidates[..n])
      ensures performed == old(performed) + Removals(candidates[..n])
    {
      hide Paths, EvictionRun, Removals;
      var left := current;
      n := 0;
      PathsOfPrefix(candidates, 0);
      RemovalsOfPrefix(candidates, 0);
      while n < |candidates|
        invariant 0 <= n <= |candidates|
        invariant left == current - Bytes(candidates[..n]) && left + incoming > quota
        invariant n > 0 ==> Bytes(candidates[..n - 1]) < current + incoming - quota
        invariant files == old(files) - Paths(candidates[..n]) && indexes == old(indexes) - Paths(candidates[..n])
        invariant performed == old(performed) + Removals(candidates[..n])
      {
        PathsOfPrefix(candidates, n + 1);
        RemovalsOfPrefix(candidates, n + 1);
        BytesSplit(candidates, n + 1);
        RemoveStoredFile(candidates[n]);
        left := left - candidates[n].byteSize;
        n := n + 1;
        if left + incoming <= quota { break; }
      }
      RunIs(candidates, current + incoming - quota, n);
    }

    // ---------------------------------------------------------------- quotas

    // Returns false when the segment alone exceeds its quota.
    method EnforceQuota(kind: Kind, incoming: nat) returns (fits: bool)
      requires Valid()
      modifies this`records, this`files, this`indexes, this`quotaDrops, this`performed
      ensures Valid()
      ensures fits <==> incoming <= policy.QuotaFor(kind)
      ensures View() == if fits then old(View()).MakeRoom(kind, incoming, policy)
                        else old(View()).(quotaDrops := old(quotaDrops) + 1)
      ensures performed == old(performed)
                         + if fits then RoomEffects(old(View()), kind, incoming, policy) else [CountDrops(1)]
    {
      hide Store.Delete, Store.ByteEvicted, Store.CountEvicted, Store.WellFormed, CountPages, BytePages, Counted;
      if incoming > policy.QuotaFor(kind) {
        ghost var before := View();
        IncrementQuotaDrops(1);
        OnlyRecordsMatter(before, View());
        return false;
      }
      ghost var start := View();
      var removedForCount := EnforceCount();
      CountRemoved(removedForCount);
      ghost var counted := View();
      var removedForBytes := EnforceBytes(kind, incoming, policy.QuotaFor(kind));
      CountRemoved(removedForBytes);
      RoomIsMade(start, counted, View(), kind, incoming, policy);
      return true;
    }

    method CountRemoved(removed: nat)
      requires Valid()
      modifies this`quotaDrops, this`performed
      ensures Valid()
      ensures View() == old(View()).(quotaDrops := old(quotaDrops) + removed)
      ensures performed == old(performed) + Counted(removed)
    {
      if removed > 0 { IncrementQuotaDrops(removed); }
    }

    method EnforceCount() returns (removedCount: nat)
      requires Valid()
      modifies this`records, this`files, this`indexes, this`performed
      ensures Valid()
      ensures View() == old(View()).Delete(old(View()).CountEvicted(policy.maxSegments))
      ensures removedCount == |old(View()).CountEvicted(policy.maxSegments)|
      ensures performed == old(performed) + CountPages(old(View()).CountEvicted(policy.maxSegments))
    {
      hide Store.Delete, DeleteListed, CountPages, Take, Sorted, DistinctIds;
      removedCount := 0;
      ghost var start := View();
      ghost var overflow := start.CountEvicted(policy.maxSegments);
      NoCountPages(start);
      if |records| >= policy.maxSegments {
        var toRemove := |records| - policy.maxSegments + 1;
        assert overflow[0..] == overflow;
        while toRemove > 0
          invariant removedCount + toRemove == |overflow| == |start.records| - policy.maxSegments + 1
          invariant 0 <= toRemove && removedCount <= |start.records|
          invariant View() == start.Delete(start.records[..removedCount])
          invariant performed + CountPages(overflow[removedCount..]) == old(performed) + CountPages(overflow)
        {
          CountPass(start, |overflow|, removedCount);
          var candidates := Take(records, if toRemove < PAGE_LIMIT then toRemove else PAGE_LIMIT);
          DeleteStoredSegments(candidates);
          removedCount := removedCount + |candidates|;
          toRemove := toRemove - |candidates|;
        }
        assert overflow[removedCount..] == [];
      }
      DeleteKeepsWellFormed(start, start.records[..removedCount]);
    }

    // One pass of the byte loop of enforceQuota; `start` and `done` say what the passes before it did.
    method EvictPage(kind: Kind, incoming: nat, quota: nat, current: nat, ghost start: Store, ghost done: nat)
      returns (n: nat, freed: nat)
      requires start.WellFormed() && current + incoming > quota && done < |OfClass(start.records, kind)|
      requires View() == start.Delete(OfClass(start.records, kind)[..done])
      requires current == Bytes(OfClass(start.records, kind)[done..])
      modifies this`records, this`files, this`indexes, this`performed
      ensures 0 < n && done + n <= |OfClass(start.records, kind)|
      ensures View() == start.Delete(OfClass(start.records, kind)[..done + n])
      ensures freed + Bytes(OfClass(start.records, kind)[done + n..]) == current
      ensures var all, left := OfClass(start.records, kind), current + incoming - quota;
        all[..done] + EvictionRun(all[done..], left) == all[..done + n] + EvictionRun(all[done + n..], left - freed)
      ensures var all := OfClass(start.records, kind);
        performed == old(performed) + Deletion(all[done..done + n])
      ensures n <= PAGE_LIMIT
      ensures n == PAGE_LIMIT || freed >= current + incoming - quota || done + n == |OfClass(start.records, kind)|
    {
      hide Store.WellFormed, Store.Delete, EvictionRun, OfClass, Without, Bytes, Removals, Paths, Ids;
      ghost var all := OfClass(start.records, kind);
      BytePage(start, kind, done, done);
      var candidates := Take(OfClass(records, kind), PAGE_LIMIT);
      ghost var m := |candidates|;
      TakeIsSlice(all, done, PAGE_LIMIT);
      RunPass(all, done, m, current + incoming - quota);
      ghost var before := View();
      n := RemoveUntilFits(candidates, current, incoming, quota);
      SliceOfSlice(all, done, m, n);
      DeleteIs(before, candidates[..n]);
      DeleteSegments(Ids(candidates[..n]));
      BytePage(start, kind, done, done + n);
      freed := Bytes(candidates[..n]);
      RunEnds(candidates, current + incoming - quota);
    }

    method EnforceBytes(kind: Kind, incoming: nat, quota: nat) returns (removedCount: nat)
      requires Valid() && incoming <= quota
      modifies this`records, this`files, this`indexes, this`performed
      ensures Valid()
      ensures View() == old(View()).Delete(old(View()).ByteEvicted(kind, incoming, quota))
      ensures removedCount == |old(View()).ByteEvicted(kind, incoming, quota)|
      ensures performed == old(performed) + BytePages(old(View()).ByteEvicted(kind, incoming, quota))
    {
      hide Store.WellFormed, Store.Delete, Store.ByteEvicted, EvictionRun, OfClass, Without, Bytes, Sorted, DistinctIds;
      hide Deletion, BytePages;
      var current := ClassBytes(records, kind);
      ghost var start, all := View(), OfClass(records, kind);
      ghost var run := start.ByteEvicted(kind, incoming, quota);
      removedCount := 0;
      DeleteNothing(start);
      RunStarts(start, kind, incoming, quota);
      assert run[0..] == run;
      while current + incoming > quota
        invariant removedCount <= |all|
        invariant View() == start.Delete(all[..removedCount])
        invariant current == Bytes(all[removedCount..])
        invariant run == all[..removedCount] + EvictionRun(all[removedCount..], current + incoming - quota)
        invariant performed + BytePages(run[removedCount..]) == old(performed) + BytePages(run)
        decreases |all| - removedCount
      {
        NonEmptyBytes(all[removedCount..]);
        ghost var left := current + incoming - quota;
        var n, freed := EvictPage(kind, incoming, quota, current, start, removedCount);
        PageOfPages(all, run, removedCount, n, left - freed);
        current := current - freed;
        removedCount := removedCount + n;
      }
      NoRun(all[removedCount..], current + incoming - quota);
      assert all[..removedCount] + [] == all[..removedCount] && run[removedCount..] == [];
      NoBytePages();
      DeleteKeepsWellFormed(start, run);
    }

    // ---------------------------------------------------------------- uploading

    method PersistSegment(item: Item) returns (outcome: Outcome)
      requires Valid() && item.segment.byteSize == |item.bytes|
      modifies this`records, this`files, this`indexes, this`quotaDrops, this`performed
      ensures Valid()
      ensures outcome.Accepted? <==>
                CanPersist(old(View()), item, policy) && activeCapture == Some(item.segment.captureId)
      ensures outcome.Accepted? ==> View() == Next(old(View()), item, policy)
      ensures !outcome.Accepted? ==> View() == RefusedPersist(old(View()), item, policy)
      ensures activeCapture == Some(item.segment.captureId) ==>
              performed == old(performed) + PersistEffects(old(View()), item, policy)
    {
      hide Store.WellFormed, Store.MakeRoom, Insert, IndexPayload, RoomEffects;
      ghost var start := View();
      var fits := EnforceQuota(item.segment.kind, |item.bytes|);
      if !fits { return QuotaExceeded; }
      ghost var room := View();
      ghost var made := performed;
      var path := PathOf(item.segment);
      if path in files {
        assert made + [] == made;
        return PathInvalid;
      }
      WriteContentFile(path, item.bytes);
      if !Store(records, files, indexes, quotaDrops).Accepts(item.segment, activeCapture) {
        RemoveSegmentIndex(path);
        UnlinkFile(path);
        OnlyRecordsMatter(room, View());
        assert performed == made + TakenBack(item);
        return RepositoryConflict;
      }
      PersistedStaysWellFormed(room, item, activeCapture);
      CreateSegment(item.segment);
      WriteSegmentIndex(item.segment);
      assert performed == made + Steps(item);
      return Accepted;
    }

    method RemoveUnindexedPreparedFile(s: Segment)
      modifies this`files, this`indexes, this`performed
      ensures files == if s.id in Ids(records) then old(files) else old(files) - {PathOf(s)}
      ensures indexes == if s.id in Ids(records) then old(indexes) else old(indexes) - {PathOf(s)}
      ensures performed == old(performed)
                         + if s.id in Ids(records) then [] else [Unlink(PathOf(s)), RemoveIndex(PathOf(s))]
    {
      if s.id in Ids(records) { return; }
      RemoveStoredFile(s);
    }

    // The locked part of ingestEventBatch; `technicalId` is the fresh id it draws.
    method IngestEventBatch(b: Batch, technicalId: Id) returns (outcome: Outcome)
      requires Valid()
      modifies this`records, this`files, this`indexes, this`quotaDrops, this`performed
      ensures Valid()
      ensures activeCapture != Some(b.captureId) ==>
              outcome.CaptureInactive? && View() == old(View()) && performed == old(performed)
      ensures activeCapture == Some(b.captureId) ==>
        && View() == Upload(old(View()), b, technicalId, policy)
        && performed == old(performed) + UploadEffects(old(View()), b, technicalId, policy)
      ensures activeCapture == Some(b.captureId) ==>
        var s, found := old(View()), TechnicalOf(old(records), b);
        && (outcome.BatchConflict? <==> found.Some? && found.value.batchFingerprint != Some(b.fingerprint))
        && (Answered(s, b) && !outcome.BatchConflict? ==>
              (outcome.Accepted? <==> forall r <- ListedOwn(s.records, b) :: PathOf(r) in s.files))
        && (!Answered(s, b) ==> (outcome.Accepted? <==> Succeeds(Prepare(s, b), Items(b, technicalId), policy)))
    {
      hide Store.WellFormed, PersistLoop, Succeeds, Items, ClearUnindexed, ListedOwn, SnapshotSegment, LoopEffects;
      hide LeftoverEffects, DeleteListed;
      if activeCapture != Some(b.captureId) { return CaptureInactive; }
      var existing := TechnicalOf(records, b);
      if existing.Some? {
        if existing.value.batchFingerprint != Some(b.fingerprint) { return BatchConflict; }
        var listed := ListedOwn(records, b);
        if |listed| == |b.snapshots| + 1 && existing.value.id in Ids(listed)
           && forall r <- listed :: r.kind.DomSnapshot? ==> r.id in SnapshotIds(b) {
          if exists r <- listed :: PathOf(r) !in files { return PathInvalid; }
          return Accepted;
        }
        DeleteStoredSegments(Reversed(listed));
        DeleteReversed(old(View()), listed);
      }
      ghost var cleaned := View();
      assert cleaned == Cleared(old(View()), b) && performed == old(performed) + ClearingEffects(old(View()), b);
      DeleteKeepsWellFormed(old(View()), ListedOwn(old(records), b));
      RemoveUnindexedPreparedFiles(b);
      OnlyRecordsMatter(cleaned, View());
      outcome := PersistAll(b, technicalId);
    }

    method RemoveUnindexedPreparedFiles(b: Batch)
      modifies this`files, this`indexes, this`performed
      ensures View() == ClearUnindexed(old(View()), b, |b.snapshots|)
      ensures performed == old(performed) + LeftoverEffects(old(records), b, |b.snapshots|)
    {
      for n := 0 to |b.snapshots|
        invariant View() == ClearUnindexed(old(View()), b, n) && records == old(records)
        invariant performed == old(performed) + LeftoverEffects(old(records), b, n)
      {
        RemoveUnindexedPreparedFile(SnapshotSegment(b, b.snapshots[n]));
      }
    }

    // The persist loop with its rollback.
    method PersistAll(b: Batch, technicalId: Id) returns (outcome: Outcome)
      requires Valid() && activeCapture == Some(b.captureId)
      modifies this`records, this`files, this`indexes, this`quotaDrops, this`performed
      ensures Valid() && !outcome.BatchConflict?
      ensures outcome.Accepted? <==> Succeeds(old(View()), Items(b, technicalId), policy)
      ensures View() == PersistLoop(old(View()), Items(b, technicalId), [], policy)
      ensures performed == old(performed) + LoopEffects(old(View()), Items(b, technicalId), [], policy)
    {
      hide CanPersist, Next, RefusedPersist, PersistEffects, Store.Delete, DeleteListed, Store.WellFormed;
      var items := Items(b, technicalId);
      var created: seq<Segment> := [];
      ghost var start := View();
      assert items[0..] == items;
      for i := 0 to |items|
        invariant Valid()
        invariant Succeeds(View(), items[i..], policy) <==> Succeeds(start, items, policy)
        invariant PersistLoop(View(), items[i..], created, policy) == PersistLoop(start, items, [], policy)
        invariant performed + LoopEffects(View(), items[i..], created, policy)
               == old(performed) + LoopEffects(start, items, [], policy)
      {
        assert items[i..][0] == items[i] && items[i..][1..] == items[i + 1..];
        var result := PersistSegment(items[i]);
        if !result.Accepted? {
          ghost var failed := View();
          DeleteStoredSegments(created);
          DeleteKeepsWellFormed(failed, created);
          return if result.BatchConflict? then RepositoryConflict else result;
        }
        created := created + [items[i].segment];
      }
      assert items[|items|..] == [];
      return Accepted;
    }

    method ReconcileSegment(s: Segment, at: int)
      requires s.expiresAt > at
      modifies this`records, this`indexes, this`performed
      ensures View() == ReconcileOne(old(View()), s, at)
      ensures performed == old(performed) + Repair(old(View()), s, at)
    {
      if PathOf(s) !in files {
        RemoveSegmentIndex(PathOf(s));
        DeleteSegments({s.id});
        return;
      }
      if PathOf(s) !in indexes || indexes[PathOf(s)] != IndexPayload(s) { WriteSegmentIndex(s); }
    }

    method ReconcilePage(page: seq<Segment>, at: int)
      requires forall s <- page :: at < s.expiresAt
      modifies this`records, this`indexes, this`performed
      ensures View() == ReconcileAll(old(View()), page, at)
      ensures performed == old(performed) + RepairAll(old(View()), page, at)
    {
      hide ReconcileOne, Repair;
      for i := 0 to |page|
        invariant View() == ReconcileAll(old(View()), page[..i], at)
        invariant performed == old(performed) + RepairAll(old(View()), page[..i], at)
      {
        assert page[..i + 1][..i] == page[..i] && page[i] in page;
        ReconcileSegment(page[i], at);
      }
      assert page[..|page|] == page;
    }

    method ReconcileSegmentIndexes(at: int)
      requires Valid()
      modifies this`records, this`indexes, this`performed
      ensures View() == Reconcile(old(View()), at)
      ensures performed == old(performed) + InitializeEffects(old(View()), at)
    {
      hide ReconcileAll, RepairAll, Reconcile, InitializeEffects, Store.WellFormed, Unexpired, ListPage;
      ghost var start := View();
      ghost var all := records;
      ghost var k := 0;
      var cursor: Option<Segment> := None;
      NothingReconciled(start, at);
      while true
        invariant k <= |all| && CursorAt(all, k, at, cursor)
        invariant View() == ReconcileAll(start, all[..k], at)
        invariant performed == old(performed) + RepairAll(start, all[..k], at)
        decreases |all| - k
      {
        var page := ListPage(records, at, cursor, PAGE_LIMIT);
        PageIsNext(start, k, at, cursor, PAGE_LIMIT);
        if page == [] { break; }
        ReconcilePage(page, at);
        ghost var n := PageVisited(start, k, at, page);
        k := k + n;
        cursor := Some(page[|page| - 1]);
        if |page| < PAGE_LIMIT { break; }
      }
      RestIsExpired(start, k, at);
    }
  }

  lemma NothingReconciled(s: Store, at: int)
    ensures ReconcileAll(s, s.records[..0], at) == s && RepairAll(s, s.records[..0], at) == []
  {
    assert s.records[..0] == [];
  }

  lemma PageVisited(s: Store, k: nat, at: int, page: seq<Segment>) returns (n: nat)
    requires k <= |s.records| && page == Take(Unexpired(s.records[k..], at), PAGE_LIMIT) && page != []
    ensures 0 < n <= |s.records| - k && s.records[k + n - 1] == page[|page| - 1]
    ensures |page| < PAGE_LIMIT ==> Unexpired(s.records[k + n..], at) == []
    ensures var t := ReconcileAll(s, s.records[..k], at);
      && ReconcileAll(s, s.records[..k + n], at) == ReconcileAll(t, page, at)
      && RepairAll(s, s.records[..k + n], at) == RepairAll(s, s.records[..k], at) + RepairAll(t, page, at)
  {
    hide ReconcileAll, RepairAll, Unexpired;
    n := PageEnd(s.records[k..], at, |page|);
    assert Unexpired(s.records[k..], at)[..|page|] == page && s.records[k..][n..] == s.records[k + n..];
    assert s.records[..k + n] == s.records[..k] + s.records[k..][..n];
    RepairAppend(s, s.records[..k], s.records[k..][..n], at);
    RepairSkipsExpired(ReconcileAll(s, s.records[..k], at), s.records[k..][..n], at);
    ReconcileAppend(s, s.records[..k], s.records[k..][..n], at);
    ReconcileSkipsExpired(ReconcileAll(s, s.records[..k], at), s.records[k..][..n], at);
  }

  lemma NothingToReconcile(s: Store, at: int)
    ensures ReconcileAll(s, [], at) == s && RepairAll(s, [], at) == []
  {}

  lemma RestIsExpired(s: Store, k: nat, at: int)
    requires k <= |s.records| && Unexpired(s.records[k..], at) == []
    ensures ReconcileAll(s, s.records[..k], at) == Reconcile(s, at)
    ensures RepairAll(s, s.records[..k], at) == InitializeEffects(s, at)
  {
    hide Unexpired, ReconcileAll, RepairAll;
    var t := ReconcileAll(s, s.records[..k], at);
    NothingToReconcile(t, at);
    assert RepairAll(s, s.records[..k], at) + [] == RepairAll(s, s.records[..k], at);
    RepairAppend(s, s.records[..k], s.records[k..], at);
    RepairSkipsExpired(t, s.records[k..], at);
    assert s.records == s.records[..k] + s.records[k..];
    ReconcileAppend(s, s.records[..k], s.records[k..], at);
    ReconcileSkipsExpired(t, s.records[k..], at);
  }
}
