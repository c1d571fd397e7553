// Crash, `initialize`, retry: over any number of rounds the batch ends up stored exactly once, and exactly when a retry
// cannot succeed.

module BatchRetries {
  import opened Options
  import opened Segments
  import opened SegmentStore
  import opened BatchRecovery
  import opened BatchRecords
  import opened Effects
  import opened CrashSafety

  // ---------------------------------------------------------------- initialize

  ghost predicate OutlivesNow(b: Batch, at: int) {
    at < b.endedAt + RETENTION_MS && forall s <- b.snapshots :: at < s.capturedAt + RETENTION_MS
  }

  // From `s` to `t` the first n records were visited: lost files took their records along, kept records are indexed.
  ghost predicate Visited(s: Store, t: Store, n: nat, at: int)
    requires n <= |s.records|
  {
    && t.files == s.files && t.WellFormed()
    && (forall r :: r in t.records <==>
          r in s.records && (r in s.records[..n] && at < r.expiresAt ==> PathOf(r) in s.files))
    && (forall r <- t.records :: r in s.records[..n] && at < r.expiresAt ==>
          PathOf(r) in t.indexes && t.indexes[PathOf(r)] == IndexPayload(r))
  }

  // One record's reconciliation.
  lemma OneVisited(t: Store, r: Segment, at: int)
    requires t.WellFormed() && forall q <- t.records :: q.id == r.id ==> q == r
    ensures var next := ReconcileOne(t, r, at);
      && next.files == t.files && next.WellFormed()
      && (forall q :: q in next.records <==> q in t.records && (q == r && at < r.expiresAt ==> PathOf(r) in t.files))
      && (forall q <- next.records :: q == r && at < r.expiresAt ==>
            PathOf(q) in next.indexes && next.indexes[PathOf(q)] == IndexPayload(q))
      && (forall q <- next.records :: q != r && PathOf(q) in t.indexes ==>
            PathOf(q) in next.indexes && next.indexes[PathOf(q)] == t.indexes[PathOf(q)])
  {
    hide Sorted;
    WithoutKeepsOrder(t.records, {r.id});
    assert forall q <- t.records :: q != r ==> PathOf(q) != PathOf(r);
  }

  lemma VisitOne(s: Store, t: Store, n: nat, at: int)
    requires s.WellFormed() && n < |s.records| && Visited(s, t, n, at)
    ensures Visited(s, ReconcileOne(t, s.records[n], at), n + 1, at)
  {
    hide Sorted, Older, ReconcileOne;
    var r := s.records[n];
    assert s.records[..n + 1] == s.records[..n] + [r];
    assert r !in s.records[..n];
    forall q | q in s.records && q.id == r.id ensures q == r { SameIdSameRecord(s.records, q, r); }
    OneVisited(t, r, at);
  }

  lemma {:induction false} VisitAll(s: Store, n: nat, at: int)
    requires s.WellFormed() && n <= |s.records|
    ensures Visited(s, ReconcileAll(s, s.records[..n], at), n, at)
  {
    if n > 0 {
      VisitAll(s, n - 1, at);
      assert s.records[..n][..n - 1] == s.records[..n - 1];
      VisitOne(s, ReconcileAll(s, s.records[..n - 1], at), n - 1, at);
    }
  }

  // `initialize` drops exactly the unexpired records whose file is gone and indexes every other one.
  lemma ReconcileExact(s: Store, at: int)
    requires s.WellFormed()
    ensures Visited(s, Reconcile(s, at), |s.records|, at)
  {
    assert s.records[..|s.records|] == s.records;
    VisitAll(s, |s.records|, at);
  }

  ghost predicate IndexedOwn(s: Store, b: Batch) {
    forall r <- s.records :: Own(b, r) ==> PathOf(r) in s.indexes && s.indexes[PathOf(r)] == IndexPayload(r)
  }

  // What `initialize` leaves behind.
  ghost predicate Settled(s: Store, b: Batch) {
    BatchInv(s, b) && IndexedOwn(s, b)
  }

  // A retry can stop anywhere without harm.
  ghost predicate Ready(s: Store, b: Batch) {
    Settled(s, b) && (InOrder(s, b) || AllInPlace(s, b))
  }

  lemma OwnOutlives(b: Batch, r: Segment, at: int)
    requires OutlivesNow(b, at) && IsItemOf(b, r)
    ensures at < r.expiresAt
  {
    if r != TechnicalSegment(b, r.id) {
      var i :| 0 <= i < |b.snapshots| && r == SnapshotSegment(b, b.snapshots[i]);
      assert b.snapshots[i] in b.snapshots;
    }
  }

  // Of the batch exactly the records with a file are left.
  lemma OwnLeft(s: Store, b: Batch, at: int)
    requires CrashLoose(s, b) && OutlivesNow(b, at)
    ensures var t := Reconcile(s, at);
      && t.files == s.files && t.WellFormed() && IndexedOwn(t, b)
      && (forall r <- t.records :: r in s.records)
      && forall r :: r in t.records && Own(b, r) <==> r in s.records && Own(b, r) && PathOf(r) in s.files
  {
    hide CrashLoose, IsItemOf;
    LooseItems(s, b);
    ReconcileExact(s, at);
    assert s.records[..|s.records|] == s.records;
    forall r | r in s.records && Own(b, r) ensures at < r.expiresAt { OwnOutlives(b, r, at); }
  }

  lemma LooseItems(s: Store, b: Batch)
    requires CrashLoose(s, b)
    ensures s.WellFormed() && forall r <- s.records :: Own(b, r) ==> IsItemOf(b, r)
  {}

  // After a crash `initialize` leaves a snapshot without its technical segment exactly when the technical file is gone
  // and a snapshot's file is not.
  lemma ReconcileStrandsIff(s: Store, b: Batch, at: int)
    requires CrashLoose(s, b) && OutlivesNow(b, at)
    ensures LooseInv(Reconcile(s, at), b) && IndexedOwn(Reconcile(s, at), b)
    ensures NoStrandedSnapshot(Reconcile(s, at), b) <==> Anchored(s, b)
  {
    hide Store.WellFormed, IndexedOwn, Reconcile;
    OwnLeft(s, b, at);
    var t := Reconcile(s, at);
    forall r | r in t.records && Own(b, r) ensures HasContent(t, b, r) { assert HasContent(s, b, r); }
    if Anchored(s, b) && exists r :: r in t.records && Own(b, r) {
      var r :| r in t.records && Own(b, r);
      var q :| q in s.records && IsTechnicalOf(b, q) && PathOf(q) in s.files;
      assert q in t.records && Own(b, q);
    }
    if NoStrandedSnapshot(t, b) && TechnicalOf(t.records, b).Some? {
      var q := TechnicalOf(t.records, b).value;
      assert Own(b, q) && q in s.records && PathOf(q) in s.files;
    }
  }

  lemma ReconcileRepairs(s: Store, b: Batch, at: int)
    requires CrashInv(s, b) && OutlivesNow(b, at)
    ensures Ready(Reconcile(s, at), b)
  {
    hide CrashLoose, Anchored, LooseInv, IndexedOwn, Store.WellFormed, Reconcile, Older;
    ReconcileStrandsIff(s, b, at);
    OwnLeft(s, b, at);
    var t := Reconcile(s, at);
    if InOrder(s, b) {
      forall q, r | q in t.records && r in t.records && IsTechnicalOf(b, q) && Own(b, r) && r != q
        ensures Older(r, q)
      {}
    } else {
      var q :| q in s.records && IsTechnicalOf(b, q) && PathOf(q) in s.files;
      assert Own(b, q) && q in t.records;
      assert AllInPlace(t, b);
    }
  }

  // ---------------------------------------------------------------- rounds

  // An `initialize` that stops after `done` of its effects.
  datatype Restart = Restart(done: nat, at: int)

  function Restarted(s: Store, restarts: seq<Restart>): Store
    decreases |restarts|
  {
    if restarts == [] then s
    else Restarted(Crashed(s, InitializeEffects(s, restarts[0].at), restarts[0].done), restarts[1..])
  }

  // One upload that stops somewhere, restarts that stop somewhere, and one at `at` that does not.
  datatype Attempt = Attempt(technicalId: Id, stop: Stop, restarts: seq<Restart>, at: int)

  function Round(s: Store, b: Batch, a: Attempt, policy: Policy): Store
    requires policy.maxSegments > 0
  {
    Reconcile(Restarted(StoppedAt(s, UploadEffects(s, b, a.technicalId, policy), a.stop), a.restarts), a.at)
  }

  function Rounds(s: Store, b: Batch, attempts: seq<Attempt>, policy: Policy): Store
    requires policy.maxSegments > 0
    decreases |attempts|
  {
    if attempts == [] then s else Rounds(Round(s, b, attempts[0], policy), b, attempts[1..], policy)
  }

  // The technical id is new and sorts after the snapshots that are stored before the last; nothing of the batch is
  // evicted for the batch's own later segments.
  ghost predicate Benign(s: Store, b: Batch, technicalId: Id, policy: Policy)
    requires policy.maxSegments > 0
  {
    Answered(s, b) || (FreshId(s, b, technicalId) && Ordered(b, technicalId)
                       && KeepsOwn(Prepare(s, b), Items(b, technicalId), b, policy))
  }

  ghost predicate BenignRounds(s: Store, b: Batch, attempts: seq<Attempt>, policy: Policy)
    requires policy.maxSegments > 0
    decreases |attempts|
  {
    attempts != [] ==>
      && Benign(s, b, attempts[0].technicalId, policy) && OutlivesNow(b, attempts[0].at)
      && BenignRounds(Round(s, b, attempts[0], policy), b, attempts[1..], policy)
  }

  function ItemBytes(items: seq<Item>, kind: Kind): nat {
    if items == [] then 0
    else (if SameClass(items[0].segment.kind, kind) then |items[0].bytes| else 0) + ItemBytes(items[1..], kind)
  }

  // There is room for all the items.
  ghost predicate Roomy(s: Store, items: seq<Item>, policy: Policy) {
    && |s.records| + |items| <= policy.maxSegments
    && forall kind :: ClassBytes(s.records, kind) + ItemBytes(items, kind) <= policy.QuotaFor(kind)
  }

  lemma NoEviction(s: Store, item: Item, policy: Policy)
    requires |s.records| < policy.maxSegments
    requires ClassBytes(s.records, item.segment.kind) + |item.bytes| <= policy.QuotaFor(item.segment.kind)
    ensures RoomFor(s, item, policy) == s
  {
    DeleteNothing(s);
  }

  // Where there is room for the whole batch nothing is evicted for it.
  lemma {:induction false} RoomyKeepsOwn(s: Store, items: seq<Item>, b: Batch, policy: Policy)
    requires policy.maxSegments > 0 && Roomy(s, items, policy)
    requires forall i :: 0 <= i < |items| ==> items[i].segment.byteSize == |items[i].bytes|
    ensures KeepsOwn(s, items, b, policy)
    decreases |items|
  {
    hide Unobstructed, Fits, RoomFor, Policy.QuotaFor, Own;
    if items != [] {
      var kind := items[0].segment.kind;
      assert ItemBytes(items, kind) == |items[0].bytes| + ItemBytes(items[1..], kind);
      assert ClassBytes(s.records, kind) + ItemBytes(items, kind) <= policy.QuotaFor(kind);
      NoEviction(s, items[0], policy);
      var next := Persisted(s, items[0]);
      forall other ensures ClassBytes(next.records, other) + ItemBytes(items[1..], other) <= policy.QuotaFor(other) {
        InsertBytes(s.records, items[0].segment, other);
        assert ClassBytes(s.records, other) + ItemBytes(items, other) <= policy.QuotaFor(other);
      }
      RoomyKeepsOwn(next, items[1..], b, policy);
    }
  }

  // A settled store answers a retry exactly when it holds the whole batch.
  lemma AnsweredIff(s: Store, b: Batch)
    requires Settled(s, b) && ValidBatch(b)
    ensures Answered(s, b) <==> StoredOnce(s, b)
  {
    hide IsComplete;
    var found := TechnicalOf(s.records, b);
    if found.Some? {
      assert Own(b, found.value);
      CompleteIff(s, b, found.value);
    }
  }

  lemma ReadyInOrder(s: Store, b: Batch)
    requires Ready(s, b) && ValidBatch(b)
    ensures CrashInv(s, b)
    ensures !Answered(s, b) ==> InOrder(s, b)
  {
    hide InOrder, Older, Answered, Store.WellFormed;
    AnsweredIff(s, b);
    if TechnicalOf(s.records, b).Some? {
      var t := TechnicalOf(s.records, b).value;
      assert Own(b, t) && HasContent(s, b, t);
    }
    if AllInPlace(s, b) { assert TechnicalOf(s.records, b).Some?; }
  }

  // Main result: one upload keeps the invariant wherever it stops, and a batch within its quotas is stored if it does
  // not stop.
  lemma UploadProgress(s: Store, b: Batch, id: Id, stop: Stop, policy: Policy)
    requires Ready(s, b) && ValidBatch(b) && policy.maxSegments > 0 && Benign(s, b, id, policy)
    ensures CrashInv(StoppedAt(s, UploadEffects(s, b, id, policy), stop), b)
    ensures AllFit(b, policy) ==> StoredOnce(Upload(s, b, id, policy), b)
    ensures AllFit(b, policy) ==> Answered(s, b) || Succeeds(Prepare(s, b), Items(b, id), policy)
  {
    hide Answered, CrashInv, Safe, InOrder, Prepare, FreshId, Ordered, KeepsOwn, Succeeds, AllFit, BatchInv, IndexedOwn;
    ReadyInOrder(s, b);
    AnsweredIff(s, b);
    UploadSafe(s, b, id, policy);
    SafeStop(s, UploadEffects(s, b, id, policy), b, stop);
    if !Answered(s, b) && AllFit(b, policy) {
      FreshMeans(s, b, id);
      PrepareClears(s, b, id);
      assert Items(b, id)[0..] == Items(b, id);
      LoopStores(Prepare(s, b), b, id, 0, [], policy);
      PartialIsStoredOnce(Upload(s, b, id, policy), b, id);
    }
  }

  lemma PartialIsStoredOnce(s: Store, b: Batch, id: Id)
    requires Partial(s, b, id, |b.snapshots| + 1) && ValidBatch(b) && id !in SnapshotIds(b)
    ensures StoredOnce(s, b)
  {
    var items := Items(b, id);
    RecordedIsInv(s, b, id, |items|);
    assert items[0].segment in s.records && IsTechnicalOf(b, items[0].segment);
    forall i | 0 <= i < |b.snapshots| ensures SnapshotSegment(b, b.snapshots[i]) in s.records {
      assert items[i + 1].segment == SnapshotSegment(b, b.snapshots[i]);
    }
  }

  lemma {:induction false} RestartsKeepInv(s: Store, b: Batch, restarts: seq<Restart>)
    requires CrashInv(s, b)
    ensures CrashInv(Restarted(s, restarts), b)
    decreases |restarts|
  {
    hide CrashInv, InitializeEffects, Crashed;
    if restarts != [] {
      InitializeSafe(s, restarts[0].at, b);
      SafeAt(s, InitializeEffects(s, restarts[0].at), b, restarts[0].done);
      RestartsKeepInv(Crashed(s, InitializeEffects(s, restarts[0].at), restarts[0].done), b, restarts[1..]);
    }
  }

  // Main result: stop the upload after any single file or repository operation or within a content write, any number of
  // times, each crash followed by `initialize`, itself stopped any number of times before one gets through; then one
  // retry that runs to its end stores the batch exactly once, and none of its items is refused.
  lemma {:induction false} RetriesConverge(s: Store, b: Batch, attempts: seq<Attempt>, last: Id, policy: Policy)
    requires Ready(s, b) && ValidBatch(b) && AllFit(b, policy) && policy.maxSegments > 0
    requires BenignRounds(s, b, attempts, policy) && Benign(Rounds(s, b, attempts, policy), b, last, policy)
    ensures var ready := Rounds(s, b, attempts, policy);
      && StoredOnce(Upload(ready, b, last, policy), b)
      && (Answered(ready, b) || Succeeds(Prepare(ready, b), Items(b, last), policy))
    decreases |attempts|
  {
    hide Ready, StoredOnce, CrashInv, AllFit, Benign, StoppedAt, Restarted, Upload;
    if attempts == [] {
      UploadProgress(s, b, last, Stop(0, None), policy);
    } else {
      var a := attempts[0];
      var stopped := StoppedAt(s, UploadEffects(s, b, a.technicalId, policy), a.stop);
      UploadProgress(s, b, a.technicalId, a.stop, policy);
      RestartsKeepInv(stopped, b, a.restarts);
      ReconcileRepairs(Restarted(stopped, a.restarts), b, a.at);
      RetriesConverge(Round(s, b, a, policy), b, attempts[1..], last, policy);
    }
  }

  // Uploading a stored batch again changes nothing.
  lemma StoredUploadIsIdempotent(s: Store, b: Batch, id: Id, policy: Policy)
    requires StoredOnce(s, b) && ValidBatch(b) && policy.maxSegments > 0
    ensures Upload(s, b, id, policy) == s && UploadEffects(s, b, id, policy) == []
  {
    AnsweredIff(s, b);
  }

  // ---------------------------------------------------------------- when a retry cannot succeed

  // A record of the batch and its file stay through one more item.
  lemma ItemKeepsOwn(s: Store, items: seq<Item>, b: Batch, policy: Policy, r: Segment)
    requires s.WellFormed() && policy.maxSegments > 0 && items != [] && KeepsOwn(s, items, b, policy)
    requires Fits(items[0], policy) && r in s.records && Own(b, r) && PathOf(r) in s.files
    ensures PathOf(r) in RoomFor(s, items[0], policy).files
    ensures r in Next(s, items[0], policy).records && PathOf(r) in Next(s, items[0], policy).files
  {
    RoomShrinks(s, items[0], policy);
  }

  lemma ItemKeepsOrder(s: Store, item: Item, policy: Policy)
    requires s.WellFormed() && policy.maxSegments > 0 && CanPersist(s, item, policy)
    ensures Next(s, item, policy).WellFormed()
  {
    RoomShrinks(s, item, policy);
    InsertKeepsOrder(RoomFor(s, item, policy).records, item.segment);
  }

  lemma NextHas(s: Store, item: Item, policy: Policy)
    requires policy.maxSegments > 0
    ensures item.segment in Next(s, item, policy).records && PathOf(item.segment) in Next(s, item, policy).files
  {}

  // A recorded file in the way of a later item stops the loop at that item.
  lemma {:induction false} Obstructed(s: Store, items: seq<Item>, b: Batch, policy: Policy, r: Segment, i: nat)
    requires s.WellFormed() && policy.maxSegments > 0 && KeepsOwn(s, items, b, policy)
    requires r in s.records && Own(b, r) && PathOf(r) in s.files
    requires i < |items| && PathOf(items[i].segment) == PathOf(r)
    ensures !Succeeds(s, items, policy)
    decreases i
  {
    hide RoomFor, Persisted, Store.WellFormed;
    if CanPersist(s, items[0], policy) {
      ItemKeepsOwn(s, items, b, policy, r);
      if i > 0 {
        ItemKeepsOrder(s, items[0], policy);
        Obstructed(Next(s, items[0], policy), items[1..], b, policy, r, i - 1);
      }
    }
  }

  // Two snapshots with one id: the second finds the first one's file.
  lemma {:induction false} DuplicateFails(s: Store, items: seq<Item>, b: Batch, policy: Policy, i: nat, j: nat)
    requires s.WellFormed() && policy.maxSegments > 0 && KeepsOwn(s, items, b, policy)
    requires i < j < |items| && PathOf(items[i].segment) == PathOf(items[j].segment) && Own(b, items[i].segment)
    ensures !Succeeds(s, items, policy)
    decreases i
  {
    hide RoomFor, Persisted, Store.WellFormed;
    if CanPersist(s, items[0], policy) {
      ItemKeepsOrder(s, items[0], policy);
      var next := Next(s, items[0], policy);
      if i == 0 {
        NextHas(s, items[0], policy);
        Obstructed(next, items[1..], b, policy, items[0].segment, j - 1);
      } else {
        DuplicateFails(next, items[1..], b, policy, i - 1, j - 1);
      }
    }
  }

  lemma {:induction false} EveryItemFits(s: Store, items: seq<Item>, policy: Policy, i: nat)
    requires policy.maxSegments > 0 && Succeeds(s, items, policy) && i < |items|
    ensures Fits(items[i], policy)
    decreases i
  {
    hide Next, Unobstructed;
    if i > 0 { EveryItemFits(Next(s, items[0], policy), items[1..], policy, i - 1); }
  }

  lemma SuccessFits(s: Store, b: Batch, id: Id, policy: Policy)
    requires policy.maxSegments > 0 && Succeeds(s, Items(b, id), policy)
    ensures AllFit(b, policy)
  {
    hide Succeeds;
    EveryItemFits(s, Items(b, id), policy, 0);
    forall i | 0 <= i < |b.snapshots| ensures |b.snapshots[i].bytes| <= policy.visualQuota {
      EveryItemFits(s, Items(b, id), policy, i + 1);
    }
  }

  // A retry's persist loop runs through exactly when the snapshot ids are distinct, every segment is within its quota
  // and no snapshot stands recorded without its technical segment.
  lemma RetrySucceedsIff(s: Store, b: Batch, id: Id, policy: Policy)
    requires LooseInv(s, b) && |b.snapshots| < BATCH_LIST_LIMIT && policy.maxSegments > 0
    requires FreshId(s, b, id) && KeepsOwn(Prepare(s, b), Items(b, id), b, policy)
    ensures Succeeds(Prepare(s, b), Items(b, id), policy) <==>
            ValidBatch(b) && AllFit(b, policy) && NoStrandedSnapshot(s, b)
  {
    hide KeepsOwn, Succeeds, Prepare, Partial, AllFit;
    PrepareWellFormed(s, b);
    if !ValidBatch(b) {
      var i, j :| 0 <= i < j < |b.snapshots| && b.snapshots[i].id == b.snapshots[j].id;
      DuplicateFails(Prepare(s, b), Items(b, id), b, policy, i + 1, j + 1);
    } else if !NoStrandedSnapshot(s, b) {
      StrandedFails(s, b, id, policy);
    } else if AllFit(b, policy) {
      PrepareClears(s, b, id);
      assert Items(b, id)[0..] == Items(b, id);
      LoopStores(Prepare(s, b), b, id, 0, [], policy);
    } else if Succeeds(Prepare(s, b), Items(b, id), policy) {
      SuccessFits(Prepare(s, b), b, id, policy);
    }
  }

  lemma StrandedFails(s: Store, b: Batch, id: Id, policy: Policy)
    requires LooseInv(s, b) && policy.maxSegments > 0 && !NoStrandedSnapshot(s, b)
    requires KeepsOwn(Prepare(s, b), Items(b, id), b, policy)
    ensures !Succeeds(Prepare(s, b), Items(b, id), policy)
  {
    hide KeepsOwn, Succeeds, Prepare;
    var r :| r in s.records && Own(b, r);
    assert r != TechnicalSegment(b, r.id) by { assert !IsTechnicalOf(b, r); }
    var i :| 0 <= i < |b.snapshots| && r == SnapshotSegment(b, b.snapshots[i]);
    assert HasContent(s, b, r);
    StrandedFileStays(s, b, r, i);
    PrepareWellFormed(s, b);
    Obstructed(Prepare(s, b), Items(b, id), b, policy, r, i + 1);
  }

  lemma PrepareWellFormed(s: Store, b: Batch)
    requires s.WellFormed()
    ensures Prepare(s, b).WellFormed()
  {
    DeleteKeepsWellFormed(s, ListedOwn(s.records, b));
    ClearUnindexedFrame(Cleared(s, b), b, |b.snapshots|);
  }

  lemma StrandedFileStays(s: Store, b: Batch, r: Segment, i: nat)
    requires TechnicalOf(s.records, b).None? && i < |b.snapshots| && r == SnapshotSegment(b, b.snapshots[i])
    requires r in s.records && PathOf(r) in s.files
    ensures r in Prepare(s, b).records && PathOf(r) in Prepare(s, b).files
  {
    ClearUnindexedFrame(s, b, |b.snapshots|);
    forall k | 0 <= k < |b.snapshots| && PathOf(r) == PathOf(SnapshotSegment(b, b.snapshots[k]))
      ensures b.snapshots[k].id in Ids(s.records)
    {
      assert r.id == b.snapshots[k].id;
    }
  }

  // ---------------------------------------------------------------- a failed upload rolls back

  lemma {:induction false} LoopRollsBack(s: Store, b: Batch, id: Id, j: nat, policy: Policy)
    requires ValidBatch(b) && id !in SnapshotIds(b) && policy.maxSegments > 0 && j <= |Items(b, id)|
    requires Partial(s, b, id, j) && KeepsOwn(s, Items(b, id)[j..], b, policy)
    requires !Succeeds(s, Items(b, id)[j..], policy)
    ensures var failed := PersistLoop(s, Items(b, id)[j..], SegmentsOf(Items(b, id)[..j]), policy);
      (forall r <- failed.records :: !Own(b, r)) && BatchInv(failed, b)
    decreases |Items(b, id)| - j
  {
    hide Partial, BatchInv, RoomFor, Unobstructed, Persisted, RefusedPersist;
    var items := Items(b, id);
    var rest, created := items[j..], SegmentsOf(items[..j]);
    assert rest[0] == items[j] && rest[1..] == items[j + 1..];
    if Fits(rest[0], policy) {
      RoomAndItem(s, b, id, j, policy);
      LoopRollsBack(Next(s, rest[0], policy), b, id, j + 1, policy);
      assert SegmentsOf(items[..j + 1]) == created + [rest[0].segment];
    } else {
      RefusedRecords(s, rest[0], policy);
      RollbackClears(s, RefusedPersist(s, rest[0], policy), b, id, j);
    }
  }

  lemma RefusedRecords(s: Store, item: Item, policy: Policy)
    requires policy.maxSegments > 0 && !Fits(item, policy)
    ensures RefusedPersist(s, item, policy).records == s.records
  {}

  lemma RollbackClears(s: Store, t: Store, b: Batch, id: Id, i: nat)
    requires Partial(s, b, id, i) && t.records == s.records && i < |Items(b, id)|
    ensures var cleared := t.Delete(SegmentsOf(Items(b, id)[..i]));
      (forall r <- cleared.records :: !Own(b, r)) && BatchInv(cleared, b)
  {
    var items := Items(b, id);
    var created := SegmentsOf(items[..i]);
    var cleared := t.Delete(created);
    DeleteKeepsWellFormed(t, created);
    forall k | 0 <= k < i ensures items[k].segment.id in Ids(created) { assert created[k] in created; }
    forall r | r in s.records && (Own(b, r) || r.id in SnapshotIds(b)) ensures r.id in Ids(created) {
      if !Own(b, r) { RecordedSnapshotId(s, b, id, i, r); }
    }
  }

  // When an item is refused, no record of the batch is left, and the batch can be uploaded again.
  lemma FailedUploadLeavesNoRecord(s: Store, b: Batch, id: Id, policy: Policy)
    requires BatchInv(s, b) && ValidBatch(b) && FreshId(s, b, id) && policy.maxSegments > 0 && !Answered(s, b)
    requires KeepsOwn(Prepare(s, b), Items(b, id), b, policy) && !Succeeds(Prepare(s, b), Items(b, id), policy)
    ensures forall r <- Upload(s, b, id, policy).records :: !Own(b, r)
    ensures BatchInv(Upload(s, b, id, policy), b)
  {
    hide Prepare, KeepsOwn, Succeeds, BatchInv, Answered;
    PrepareClears(s, b, id);
    assert Items(b, id)[0..] == Items(b, id) && SegmentsOf(Items(b, id)[..0]) == [];
    LoopRollsBack(Prepare(s, b), b, id, 0, policy);
  }
}
