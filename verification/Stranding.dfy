// Which batches a crash can strand: a retry deletes the oldest file first, so a snapshot that is newer than its
// technical segment can outlive it, and no later retry of that batch goes through.

module Stranding {
  import opened Options
  import opened Segments
  import opened SegmentStore
  import opened BatchRecovery
  import opened BatchRecords
  import opened Effects
  import opened CrashSafety
  import opened BatchRetries

  // ---------------------------------------------------------------- a crash inside the deletion

  // After the p-th content file and before its index file.
  lemma {:induction false} RemovalsUpTo(s: Store, order: seq<Segment>, p: nat)
    requires p < |order|
    ensures var t := Run(s, Removals(order)[..2 * p + 1]);
      t.records == s.records && t.files == s.files - Paths(order[..p + 1])
    decreases p
  {
    var path := PathOf(order[0]);
    var pair, rest := [Unlink(path), RemoveIndex(path)], Removals(order[1..]);
    assert order[..p + 1] == [order[0]] + order[1..][..p];
    IdsAppend([order[0]], order[1..][..p]);
    assert Paths([order[0]]) == {path};
    if p == 0 {
      assert Removals(order)[..1] == [Unlink(path)];
      assert order[1..][..0] == [] && Paths([]) == {};
      RunOne(s, Unlink(path));
    } else {
      var t := Run(s, pair);
      assert Removals(order)[..2 * p + 1] == pair + rest[..2 * (p - 1) + 1];
      RunAppend(s, pair, rest[..2 * (p - 1) + 1]);
      RunTwo(s, Unlink(path), RemoveIndex(path));
      RemovalsUpTo(t, order[1..], p - 1);
      assert s.files - {path} - Paths(order[1..][..p]) == s.files - Paths(order[..p + 1]);
    }
  }

  lemma {:induction false} RemovalsKeepRecords(s: Store, order: seq<Segment>, done: nat)
    requires done <= |Removals(order)|
    ensures var t := Run(s, Removals(order)[..done]);
      t.records == s.records && forall p <- t.files :: p in s.files && t.files[p] == s.files[p]
    decreases |order|
  {
    if done > 0 {
      var path := PathOf(order[0]);
      var pair, rest := [Unlink(path), RemoveIndex(path)], Removals(order[1..]);
      if done == 1 {
        assert Removals(order)[..1] == [Unlink(path)];
        RunOne(s, Unlink(path));
      } else {
        assert Removals(order)[..done] == pair + rest[..done - 2];
        RunAppend(s, pair, rest[..done - 2]);
        RunTwo(s, Unlink(path), RemoveIndex(path));
        RemovalsKeepRecords(Run(s, pair), order[1..], done - 2);
      }
    } else {
      assert Removals(order)[..0] == [];
    }
  }

  lemma ClearingIs(s: Store, b: Batch)
    requires LooseInv(s, b) && ValidBatch(b) && TechnicalOf(s.records, b).Some?
    ensures ClearingEffects(s, b)
         == Removals(OwnRecords(s.records, b)) + [DeleteRecords(Ids(OwnRecords(s.records, b)))]
  {
    ListsAllOwn(s, b, TechnicalOf(s.records, b).value);
    ReversedTwice(OwnRecords(s.records, b));
  }

  // A list in order has a later segment at a later place.
  lemma LaterPlace(list: seq<Segment>, t: Segment, r: Segment) returns (p: nat)
    requires Sorted(list) && t in list && r in list && Older(t, r)
    ensures p < |list| && list[p] == t && r !in list[..p + 1]
  {
    p :| 0 <= p < |list| && list[p] == t;
    if r in list[..p + 1] {
      var q :| 0 <= q < p + 1 && list[q] == r;
    }
  }

  // The retry's deletion, stopped just after the technical segment's file went.
  lemma StrandingPoint(s: Store, b: Batch, t: Segment, r: Segment) returns (done: nat)
    requires LooseInv(s, b) && ValidBatch(b) && t in s.records && r in s.records
    requires IsTechnicalOf(b, t) && Own(b, r) && Older(t, r)
    ensures CrashLoose(Crashed(s, ClearingEffects(s, b), done), b)
    ensures !Anchored(Crashed(s, ClearingEffects(s, b), done), b)
  {
    hide LooseInv, Older, Run, Sorted, CrashLoose, Anchored, Crashed, ClearingEffects, Removals;
    LooseIsSorted(s, b);
    var own := OwnRecords(s.records, b);
    ClearingIs(s, b);
    OwnSorted(s.records, b);
    var p := LaterPlace(own, t, r);
    done := 2 * p + 1;
    var stopped := Crashed(s, ClearingEffects(s, b), done);
    StoppedIn(s, Removals(own), [DeleteRecords(Ids(own))], done);
    RemovalsUpTo(s, own, p);
    RemovalsKeepRecords(s, own, done);
    FewerFilesLoose(s, stopped, b);
    TechnicalFileGone(s, stopped, b, own[..p + 1], t, r);
  }

  lemma StoppedIn(s: Store, first: seq<Effect>, second: seq<Effect>, done: nat)
    requires done < |first|
    ensures Crashed(s, first + second, done) == Run(s, first[..done])
  {
    assert (first + second)[..done] == first[..done];
  }

  lemma LooseIsSorted(s: Store, b: Batch)
    requires LooseInv(s, b)
    ensures Sorted(s.records)
  {}

  lemma FewerFilesLoose(s: Store, t: Store, b: Batch)
    requires LooseInv(s, b) && t.records == s.records
    requires forall p <- t.files :: p in s.files && t.files[p] == s.files[p]
    ensures CrashLoose(t, b)
  {
    forall r | r in t.records && Own(b, r) && PathOf(r) in t.files
      ensures HasContent(t, b, r)
    {
      assert HasContent(s, b, r);
    }
  }

  lemma TechnicalFileGone(s: Store, stopped: Store, b: Batch, gone: seq<Segment>, t: Segment, r: Segment)
    requires LooseInv(s, b) && stopped.records == s.records && stopped.files == s.files - Paths(gone)
    requires t in s.records && r in s.records && IsTechnicalOf(b, t) && Own(b, r)
    requires (forall g <- gone :: g in s.records) && t in gone && r !in gone
    ensures !Anchored(stopped, b)
  {
    assert HasContent(s, b, r);
    forall g | g in gone ensures PathOf(g) != PathOf(r) {
      if PathOf(g) == PathOf(r) { SameIdSameRecord(s.records, g, r); }
    }
    assert PathOf(r) in stopped.files;
    assert PathOf(t) !in stopped.files;
    forall q | q in s.records && IsTechnicalOf(b, q) ensures q == t {}
  }

  // Main result: `initialize` after a crash in a retry's deletion never leaves a snapshot without its technical
  // segment, wherever the crash comes, exactly when every recorded snapshot of the batch is older than the technical
  // segment.
  lemma DeletionStrandsIff(s: Store, b: Batch, at: int)
    requires Settled(s, b) && ValidBatch(b) && OutlivesNow(b, at)
    ensures (forall done :: NoStrandedSnapshot(Reconcile(Crashed(s, ClearingEffects(s, b), done), at), b))
            <==> InOrder(s, b)
  {
    hide Older, LooseInv, CrashInv, Safe, Reconcile, Crashed, ClearingEffects, NoStrandedSnapshot, IndexedOwn;
    if InOrder(s, b) {
      SettledIsSafe(s, b);
      ClearingSafe(s, b);
      forall done ensures NoStrandedSnapshot(Reconcile(Crashed(s, ClearingEffects(s, b), done), at), b) {
        SafeAt(s, ClearingEffects(s, b), b, done);
        InvParts(Crashed(s, ClearingEffects(s, b), done), b);
        ReconcileStrandsIff(Crashed(s, ClearingEffects(s, b), done), b, at);
      }
    } else {
      var t, r :| t in s.records && r in s.records && IsTechnicalOf(b, t) && Own(b, r) && r != t && !Older(r, t);
      OtherWayRound(s, b, t, r);
      var done := StrandingPoint(s, b, t, r);
      ReconcileStrandsIff(Crashed(s, ClearingEffects(s, b), done), b, at);
    }
  }

  lemma InvParts(s: Store, b: Batch)
    requires CrashInv(s, b)
    ensures CrashLoose(s, b) && Anchored(s, b)
  {}

  lemma OtherWayRound(s: Store, b: Batch, t: Segment, r: Segment)
    requires LooseInv(s, b) && t in s.records && r in s.records && r != t && !Older(r, t)
    ensures Older(t, r)
  {
    var i :| 0 <= i < |s.records| && s.records[i] == t;
    var j :| 0 <= j < |s.records| && s.records[j] == r;
    assert i != j;
  }

  // ---------------------------------------------------------------- which batches can be stranded at all

  lemma PrefixOfAppend(first: seq<Effect>, second: seq<Effect>, n: nat)
    requires n <= |second|
    ensures (first + second)[..|first| + n] == first + second[..n]
  {}

  lemma OneMoreItem(s: Store, b: Batch, id: Id, j: nat, policy: Policy)
    requires ValidBatch(b) && id !in SnapshotIds(b) && policy.maxSegments > 0 && j < |Items(b, id)| && AllFit(b, policy)
    requires Partial(s, b, id, j) && KeepsOwn(s, Items(b, id)[j..], b, policy)
    ensures var next := Next(s, Items(b, id)[j], policy);
      && CanPersist(s, Items(b, id)[j], policy)
      && Partial(next, b, id, j + 1) && KeepsOwn(next, Items(b, id)[j + 1..], b, policy)
  {
    hide Partial, RoomFor, Persisted, Unobstructed, Fits;
    assert Items(b, id)[j..][0] == Items(b, id)[j] && Items(b, id)[j..][1..] == Items(b, id)[j + 1..];
    ItemFits(b, id, policy, j);
    RoomAndItem(s, b, id, j, policy);
  }

  // The loop can be stopped after any number of whole items.
  lemma {:induction false} LoopReaches(s: Store, b: Batch, id: Id, j: nat, k: nat, created: seq<Segment>,
                                       policy: Policy)
    returns (done: nat)
    requires ValidBatch(b) && id !in SnapshotIds(b) && policy.maxSegments > 0 && j + k <= |Items(b, id)|
    requires AllFit(b, policy)
    requires Partial(s, b, id, j) && KeepsOwn(s, Items(b, id)[j..], b, policy)
    ensures done <= |LoopEffects(s, Items(b, id)[j..], created, policy)|
    ensures Partial(Run(s, LoopEffects(s, Items(b, id)[j..], created, policy)[..done]), b, id, j + k)
    decreases k
  {
    hide Partial, RoomFor, Persisted, Unobstructed, Fits, PersistEffects, Run, ValidBatch, Own, AllFit, Next;
    hide SnapshotIds;
    var rest := Items(b, id)[j..];
    var all := LoopEffects(s, rest, created, policy);
    if k == 0 {
      done := 0;
      assert all[..0] == [];
      RunNothing(s);
    } else {
      assert rest[0] == Items(b, id)[j] && rest[1..] == Items(b, id)[j + 1..];
      OneMoreItem(s, b, id, j, policy);
      var next, longer := Next(s, rest[0], policy), created + [rest[0].segment];
      var first, later := PersistEffects(s, rest[0], policy), LoopEffects(next, rest[1..], longer, policy);
      RunPersist(s, rest[0], policy);
      var more := LoopReaches(next, b, id, j + 1, k - 1, longer, policy);
      done := |first| + more;
      PrefixOfAppend(first, later, more);
      RunAppend(s, first, later[..more]);
    }
  }

  // An upload that stopped after j items.
  lemma UploadReaches(s: Store, b: Batch, id: Id, j: nat, policy: Policy) returns (done: nat)
    requires BatchInv(s, b) && ValidBatch(b) && AllFit(b, policy) && policy.maxSegments > 0 && !Answered(s, b)
    requires FreshId(s, b, id) && KeepsOwn(Prepare(s, b), Items(b, id), b, policy) && j <= |Items(b, id)|
    ensures Partial(Crashed(s, UploadEffects(s, b, id, policy), done), b, id, j)
  {
    hide Partial, BatchInv, Answered, KeepsOwn, AllFit, Prepare, Run, ClearingEffects, LeftoverEffects, LoopEffects;
    hide FreshId;
    FreshMeans(s, b, id);
    PrepareClears(s, b, id);
    var items := Items(b, id);
    assert items[0..] == items;
    var more := LoopReaches(Prepare(s, b), b, id, 0, j, [], policy);
    var first := ClearingEffects(s, b) + LeftoverEffects(Cleared(s, b).records, b, |b.snapshots|);
    var loop := LoopEffects(Prepare(s, b), items, [], policy);
    done := |first| + more;
    var all := UploadEffects(s, b, id, policy);
    PrefixOfAppend(first, loop, more);
    assert (if done < |all| then all[..done] else all) == first + loop[..more];
    RunAppend(s, first, loop[..more]);
    RunAppend(s, ClearingEffects(s, b), LeftoverEffects(Cleared(s, b).records, b, |b.snapshots|));
    RunClearing(s, b);
    RunLeftover(Cleared(s, b), b, |b.snapshots|);
    PrepareIs(s, b);
  }

  // Two crashes, the second in the deletion with which the retry begins.
  function TwoCrashes(s: Store, b: Batch, id: Id, first: Stop, second: nat, at: int, policy: Policy): Store
    requires policy.maxSegments > 0
  {
    var s1 := Round(s, b, Attempt(id, first, [], at), policy);
    if Answered(s1, b) then s1 else Reconcile(Crashed(s1, ClearingEffects(s1, b), second), at)
  }

  // Main result: two crashes can strand a batch uploaded for the first time exactly when one of its snapshots, the last
  // one excepted, is not older than its technical segment. The times decide that before the upload; only on a tie do
  // the ids, and the technical one is made up by the service.
  lemma BatchStrandsIff(s: Store, b: Batch, id: Id, at: int, policy: Policy)
    requires Settled(s, b) && (forall r <- s.records :: !Own(b, r)) && ValidBatch(b) && policy.maxSegments > 0
    requires FreshId(s, b, id) && KeepsOwn(Prepare(s, b), Items(b, id), b, policy)
    requires AllFit(b, policy) && OutlivesNow(b, at)
    ensures (forall first, second :: NoStrandedSnapshot(TwoCrashes(s, b, id, first, second, at, policy), b)) <==>
              Ordered(b, id)
  {
    hide Settled, FreshId, KeepsOwn, Prepare, AllFit, NoStrandedSnapshot, Older;
    NothingAnswered(s, b);
    if Ordered(b, id) {
      forall first, second ensures NoStrandedSnapshot(TwoCrashes(s, b, id, first, second, at, policy), b) {
        OrderedIsSafe(s, b, id, first, second, at, policy);
      }
    } else {
      var i :| 0 <= i < |b.snapshots| - 1 && !Older(SnapshotSegment(b, b.snapshots[i]), TechnicalSegment(b, id));
      var first, second := LateSnapshotStrands(s, b, id, i, at, policy);
    }
  }

  lemma NothingAnswered(s: Store, b: Batch)
    requires forall r <- s.records :: !Own(b, r)
    ensures !Answered(s, b) && InOrder(s, b)
  {}

  lemma OrderedIsSafe(s: Store, b: Batch, id: Id, first: Stop, second: nat, at: int, policy: Policy)
    requires Settled(s, b) && InOrder(s, b) && ValidBatch(b) && policy.maxSegments > 0 && OutlivesNow(b, at)
    requires Ordered(b, id) && FreshId(s, b, id) && KeepsOwn(Prepare(s, b), Items(b, id), b, policy)
    ensures NoStrandedSnapshot(TwoCrashes(s, b, id, first, second, at, policy), b)
  {
    hide InOrder, Ordered, FreshId, KeepsOwn, Prepare, Answered, NoStrandedSnapshot, CrashInv, LooseInv, IndexedOwn;
    hide Reconcile, Crashed, StoppedAt;
    UploadProgress(s, b, id, first, policy);
    var crashed := StoppedAt(s, UploadEffects(s, b, id, policy), first);
    ReconcileRepairs(crashed, b, at);
    var s1 := Reconcile(crashed, at);
    ReadyInOrder(s1, b);
    if !Answered(s1, b) { DeletionStrandsIff(s1, b, at); }
  }

  // The run that strands snapshot i: a crash after it was stored, another one in the retry's deletion.
  lemma LateSnapshotStrands(s: Store, b: Batch, id: Id, i: nat, at: int, policy: Policy)
    returns (first: Stop, second: nat)
    requires Settled(s, b) && !Answered(s, b) && ValidBatch(b) && policy.maxSegments > 0
    requires FreshId(s, b, id) && KeepsOwn(Prepare(s, b), Items(b, id), b, policy)
    requires AllFit(b, policy) && OutlivesNow(b, at)
    requires i < |b.snapshots| - 1 && !Older(SnapshotSegment(b, b.snapshots[i]), TechnicalSegment(b, id))
    ensures var stranded := TwoCrashes(s, b, id, first, second, at, policy);
      !NoStrandedSnapshot(stranded, b) && Doomed(stranded, b)
  {
    hide Doomed, NoStrandedSnapshot, KeepsOwn, Prepare, AllFit, Older, CrashInv, LooseInv, IndexedOwn, Crashed, Partial;
    hide Answered, Reconcile, Own, IsTechnicalOf, ValidBatch, OutlivesNow, FreshId, CrashLoose, Anchored, UploadEffects;
    hide ClearingEffects, Items, BatchInv;
    var done := UploadReaches(s, b, id, i + 2, policy);
    first := Stop(done, None);
    var crashed := Crashed(s, UploadEffects(s, b, id, policy), done);
    FreshMeans(s, b, id);
    PartialLeaves(crashed, b, id, i, at);
    var s1 := Reconcile(crashed, at);
    var t, r := TechnicalSegment(b, id), SnapshotSegment(b, b.snapshots[i]);
    OtherWayRound(s1, b, t, r);
    second := StrandingPoint(s1, b, t, r);
    ReconcileStrandsIff(Crashed(s1, ClearingEffects(s1, b), second), b, at);
    StrandedIsDoomed(TwoCrashes(s, b, id, first, second, at, policy), b);
  }

  // `initialize` keeps all that is stored of a batch whose last snapshot is not.
  lemma PartialLeaves(s: Store, b: Batch, id: Id, i: nat, at: int)
    requires Partial(s, b, id, i + 2) && ValidBatch(b) && id !in SnapshotIds(b) && OutlivesNow(b, at)
    requires i < |b.snapshots| - 1
    ensures var s1 := Reconcile(s, at);
      && LooseInv(s1, b) && !Answered(s1, b)
      && TechnicalSegment(b, id) in s1.records && IsTechnicalOf(b, TechnicalSegment(b, id))
      && SnapshotSegment(b, b.snapshots[i]) in s1.records && Own(b, SnapshotSegment(b, b.snapshots[i]))
  {
    hide Store.WellFormed, Reconcile, IndexedOwn, LooseInv, CrashLoose, Anchored, NoStrandedSnapshot, Answered;
    hide OutlivesNow, Partial;
    RecordedParts(s, b, id, i);
    RecordedIsInv(s, b, id, i + 2);
    LooseIsCrashLoose(s, b);
    ReconcileStrandsIff(s, b, at);
    OwnLeft(s, b, at);
    IncompleteIsUnanswered(Reconcile(s, at), b);
  }

  lemma RecordedParts(s: Store, b: Batch, id: Id, i: nat)
    requires Partial(s, b, id, i + 2) && i < |b.snapshots| - 1
    ensures Recorded(s, b, id, i + 2)
    ensures TechnicalSegment(b, id) in s.records && PathOf(TechnicalSegment(b, id)) in s.files
    ensures var snapshot := SnapshotSegment(b, b.snapshots[i]); snapshot in s.records && PathOf(snapshot) in s.files
    ensures SnapshotSegment(b, b.snapshots[|b.snapshots| - 1]) !in s.records
  {
    hide Store.WellFormed, Own;
    var items := Items(b, id);
    assert items[0].segment == TechnicalSegment(b, id) && items[i + 1].segment == SnapshotSegment(b, b.snapshots[i]);
    assert items[|b.snapshots|].segment == SnapshotSegment(b, b.snapshots[|b.snapshots| - 1]);
  }

  lemma IncompleteIsUnanswered(s: Store, b: Batch)
    requires LooseInv(s, b) && ValidBatch(b) && !AllSnapshotsRecorded(s, b)
    ensures !Answered(s, b)
  {
    var found := TechnicalOf(s.records, b);
    if found.Some? { CompleteIff(s, b, found.value); }
  }

  // No retry goes through, under any policy that keeps the batch's segments.
  ghost predicate Doomed(s: Store, b: Batch) {
    forall id: Id, policy: Policy :: policy.maxSegments > 0 ==>
      KeepsOwn(Prepare(s, b), Items(b, id), b, policy) ==> !Succeeds(Prepare(s, b), Items(b, id), policy)
  }

  lemma StrandedIsDoomed(s: Store, b: Batch)
    requires LooseInv(s, b) && !NoStrandedSnapshot(s, b)
    ensures Doomed(s, b)
  {
    hide LooseInv, NoStrandedSnapshot, Prepare, KeepsOwn, Succeeds, Items;
    forall id, policy: Policy | policy.maxSegments > 0 && KeepsOwn(Prepare(s, b), Items(b, id), b, policy)
      ensures !Succeeds(Prepare(s, b), Items(b, id), policy)
    {
      StrandedFails(s, b, id, policy);
    }
  }

  // ---------------------------------------------------------------- one such run

  const EMPTY_STORE := Store([], map[], map[], 0)

  // The first snapshot was captured after the batch ended.
  const LATE_BATCH :=
    Batch("capture", "client", "batch", "fingerprint", [], 10, [Snapshot(1, [], 20), Snapshot(2, [], 5)])

  lemma EmptyIsSettled(b: Batch)
    ensures Settled(EMPTY_STORE, b)
  {}

  lemma LateBatchIsValid(policy: Policy)
    requires policy.maxSegments >= 3
    ensures ValidBatch(LATE_BATCH) && FreshId(EMPTY_STORE, LATE_BATCH, 0) && OutlivesNow(LATE_BATCH, 0)
    ensures AllFit(LATE_BATCH, policy) && !Ordered(LATE_BATCH, 0)
    ensures Prepare(EMPTY_STORE, LATE_BATCH) == EMPTY_STORE
    ensures Roomy(EMPTY_STORE, Items(LATE_BATCH, 0), policy)
  {
    var b, items := LATE_BATCH, Items(LATE_BATCH, 0);
    assert !Older(SnapshotSegment(b, b.snapshots[0]), TechnicalSegment(b, 0));
    LeftoversOfNothing(b, |b.snapshots|);
    forall kind ensures ItemBytes(items, kind) == 0 { NoBytesAtAll(items, kind); }
  }

  lemma {:induction false} LeftoversOfNothing(b: Batch, n: nat)
    requires n <= |b.snapshots|
    ensures ClearUnindexed(EMPTY_STORE, b, n) == EMPTY_STORE
  {
    if n > 0 { LeftoversOfNothing(b, n - 1); }
  }

  lemma {:induction false} NoBytesAtAll(items: seq<Item>, kind: Kind)
    requires forall item <- items :: item.bytes == []
    ensures ItemBytes(items, kind) == 0
  {
    if items != [] { NoBytesAtAll(items[1..], kind); }
  }

  // Uploading this batch into an empty store with two crashes leaves it so that no retry goes through.
  lemma LateBatchStrands(policy: Policy) returns (first: Stop, second: nat)
    requires policy.maxSegments >= 3
    ensures var stranded := TwoCrashes(EMPTY_STORE, LATE_BATCH, 0, first, second, 0, policy);
      !NoStrandedSnapshot(stranded, LATE_BATCH) && Doomed(stranded, LATE_BATCH)
  {
    hide Settled, KeepsOwn, Prepare, Items, FreshId, AllFit, Answered, NoStrandedSnapshot, LooseInv, TwoCrashes, Doomed;
    var b := LATE_BATCH;
    EmptyIsSettled(b);
    LateBatchIsValid(policy);
    ItemSizes(b, 0);
    RoomyKeepsOwn(EMPTY_STORE, Items(b, 0), b, policy);
    NothingAnswered(EMPTY_STORE, b);
    var i :| 0 <= i < |b.snapshots| - 1 && !Older(SnapshotSegment(b, b.snapshots[i]), TechnicalSegment(b, 0));
    first, second := LateSnapshotStrands(EMPTY_STORE, b, 0, i, 0, policy);
  }

  lemma ItemSizes(b: Batch, id: Id)
    ensures forall i :: 0 <= i < |Items(b, id)| ==> Items(b, id)[i].segment.byteSize == |Items(b, id)[i].bytes|
  {}
}
