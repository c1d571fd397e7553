// The records of one batch: how many there are, when it is complete, and what clearing it away leaves.

module BatchRecords {
  import opened Options
  import opened Segments
  import opened SegmentStore
  import opened BatchRecovery

  // ---------------------------------------------------------------- counting a batch's records

  lemma {:induction false} OwnDistinct(records: seq<Segment>, b: Batch)
    requires DistinctIds(records)
    ensures DistinctIds(OwnRecords(records, b))
  {
    if records != [] {
      OwnDistinct(records[1..], b);
      var rest := OwnRecords(records[1..], b);
      forall j | 0 <= j < |rest| ensures records[0].id != rest[j].id {
        assert rest[j] in rest && rest[j] in records[1..];
      }
    }
  }

  lemma {:induction false} DistinctCount(list: seq<Segment>)
    requires DistinctIds(list)
    ensures |Ids(list)| == |list|
  {
    if list == [] {
      assert Ids(list) == {};
    } else {
      DistinctCount(list[..|list| - 1]);
      IdsOfLast(list);
    }
  }

  lemma {:induction false} SnapshotIdCount(snapshots: seq<Snapshot>)
    requires forall i, j :: 0 <= i < j < |snapshots| ==> snapshots[i].id != snapshots[j].id
    ensures |set s | s in snapshots :: s.id| == |snapshots|
  {
    var all := set s | s in snapshots :: s.id;
    if snapshots == [] {
      assert all == {};
    } else {
      var front, last := snapshots[..|snapshots| - 1], snapshots[|snapshots| - 1];
      SnapshotIdCount(front);
      var some := set s | s in front :: s.id;
      assert snapshots == front + [last];
      assert all == some + {last.id};
      assert last.id !in some;
    }
  }

  lemma OwnIds(s: Store, b: Batch, technical: Segment)
    requires LooseInv(s, b) && technical in s.records && IsTechnicalOf(b, technical)
    ensures var own := OwnRecords(s.records, b);
      && DistinctIds(own) && |Ids(own)| == |own|
      && Ids(own) <= {technical.id} + SnapshotIds(b)
      && technical.id in Ids(own)
  {
    OwnDistinct(s.records, b);
    DistinctCount(OwnRecords(s.records, b));
    forall r | r in OwnRecords(s.records, b) ensures r.id in {technical.id} + SnapshotIds(b) {
      if r == TechnicalSegment(b, r.id) { assert IsTechnicalOf(b, r); }
    }
  }

  ghost predicate AllSnapshotsRecorded(s: Store, b: Batch) {
    forall i :: 0 <= i < |b.snapshots| ==> SnapshotSegment(b, b.snapshots[i]) in s.records
  }

  // The batch never has more records than one listing shows.
  lemma ListsAllOwn(s: Store, b: Batch, technical: Segment)
    requires LooseInv(s, b) && ValidBatch(b) && technical in s.records && IsTechnicalOf(b, technical)
    ensures ListedOwn(s.records, b) == OwnRecords(s.records, b)
    ensures |{technical.id} + SnapshotIds(b)| == |b.snapshots| + 1
    ensures |OwnRecords(s.records, b)| == |b.snapshots| + 1 <==>
            Ids(OwnRecords(s.records, b)) == {technical.id} + SnapshotIds(b)
  {
    OwnIds(s, b, technical);
    SnapshotIdCount(b.snapshots);
    SubsetCount(Ids(OwnRecords(s.records, b)), {technical.id} + SnapshotIds(b));
  }

  // The completeness check of a retry holds exactly when every snapshot is recorded.
  lemma CompleteIff(s: Store, b: Batch, technical: Segment)
    requires LooseInv(s, b) && ValidBatch(b) && technical in s.records && IsTechnicalOf(b, technical)
    ensures IsComplete(s, b, technical) <==> AllSnapshotsRecorded(s, b)
  {
    ListsAllOwn(s, b, technical);
    OwnIds(s, b, technical);
    if IsComplete(s, b, technical) { CompleteHasAll(s, b, technical); }
    if AllSnapshotsRecorded(s, b) { AllIsComplete(s, b, technical); }
  }

  lemma CompleteHasAll(s: Store, b: Batch, technical: Segment)
    requires LooseInv(s, b) && ValidBatch(b) && technical in s.records && IsTechnicalOf(b, technical)
    requires Ids(OwnRecords(s.records, b)) == {technical.id} + SnapshotIds(b)
    ensures AllSnapshotsRecorded(s, b)
  {
    forall i | 0 <= i < |b.snapshots| ensures SnapshotSegment(b, b.snapshots[i]) in s.records {
      assert b.snapshots[i] in b.snapshots && b.snapshots[i].id in Ids(OwnRecords(s.records, b));
      var r :| r in OwnRecords(s.records, b) && r.id == b.snapshots[i].id;
      RecordOfSnapshot(s, b, r, i);
    }
  }

  lemma AllIsComplete(s: Store, b: Batch, technical: Segment)
    requires LooseInv(s, b) && ValidBatch(b) && technical in s.records && IsTechnicalOf(b, technical)
    requires AllSnapshotsRecorded(s, b)
    ensures IsComplete(s, b, technical)
  {
    hide LooseInv, ValidBatch, AllSnapshotsRecorded;
    ListsAllOwn(s, b, technical);
    OwnIds(s, b, technical);
    AllIdsOwn(s, b);
    var own := OwnRecords(s.records, b);
    assert Ids(own) == {technical.id} + SnapshotIds(b);
    forall r | r in own && r.kind.DomSnapshot? ensures r.id in SnapshotIds(b) { OwnSnapshotId(s, b, r); }
  }

  lemma AllIdsOwn(s: Store, b: Batch)
    requires AllSnapshotsRecorded(s, b)
    ensures SnapshotIds(b) <= Ids(OwnRecords(s.records, b))
  {
    forall id | id in SnapshotIds(b) ensures id in Ids(OwnRecords(s.records, b)) {
      var x :| x in b.snapshots && x.id == id;
      var k :| 0 <= k < |b.snapshots| && b.snapshots[k] == x;
      assert SnapshotSegment(b, b.snapshots[k]) in OwnRecords(s.records, b);
    }
  }

  lemma OwnSnapshotId(s: Store, b: Batch, r: Segment)
    requires LooseInv(s, b) && r in s.records && Own(b, r) && r.kind.DomSnapshot?
    ensures r.id in SnapshotIds(b)
  {
    assert IsItemOf(b, r) && r != TechnicalSegment(b, r.id);
    var k :| 0 <= k < |b.snapshots| && r == SnapshotSegment(b, b.snapshots[k]);
    assert b.snapshots[k] in b.snapshots;
  }

  lemma RecordOfSnapshot(s: Store, b: Batch, r: Segment, i: nat)
    requires LooseInv(s, b) && ValidBatch(b) && i < |b.snapshots|
    requires r in s.records && Own(b, r) && r.id == b.snapshots[i].id
    ensures r == SnapshotSegment(b, b.snapshots[i])
  {
    assert b.snapshots[i] in b.snapshots;
    assert r != TechnicalSegment(b, r.id) by { assert r.id in SnapshotIds(b) ==> !IsTechnicalOf(b, r); }
    var k :| 0 <= k < |b.snapshots| && r == SnapshotSegment(b, b.snapshots[k]);
  }

  lemma SubsetCount<T>(a: set<T>, b: set<T>)
    requires a <= b
    ensures |a| <= |b| && (|a| == |b| ==> a == b)
  {
    assert b == a + (b - a);
    if |a| == |b| { assert b - a == {}; }
  }

  // ---------------------------------------------------------------- clearing the way for a retry

  lemma {:induction false} ClearUnindexedFrame(s: Store, b: Batch, n: nat)
    requires n <= |b.snapshots|
    ensures ClearUnindexed(s, b, n).records == s.records
    ensures ClearUnindexed(s, b, n).files.Keys <= s.files.Keys
    ensures forall p <- s.files :: p in ClearUnindexed(s, b, n).files <==>
              !exists i :: 0 <= i < n && b.snapshots[i].id !in Ids(s.records)
                           && p == PathOf(SnapshotSegment(b, b.snapshots[i]))
    ensures forall p <- ClearUnindexed(s, b, n).files :: ClearUnindexed(s, b, n).files[p] == s.files[p]
  {
    if n > 0 { ClearUnindexedFrame(s, b, n - 1); }
  }

  // With no record of the batch left, nothing stands in the way of any item.
  lemma ClearedIsPartial(s: Store, b: Batch, id: Id)
    requires s.WellFormed() && FreshId(s, b, id)
    requires forall r <- s.records :: !Own(b, r) && r.id !in SnapshotIds(b)
    ensures Partial(ClearUnindexed(s, b, |b.snapshots|), b, id, 0)
  {
    ClearUnindexedFrame(s, b, |b.snapshots|);
    var items, t := Items(b, id), ClearUnindexed(s, b, |b.snapshots|);
    forall i | 0 <= i < |items|
      ensures items[i].segment.id !in Ids(t.records) && PathOf(items[i].segment) !in t.files
    {
      if i > 0 {
        assert b.snapshots[i - 1] in b.snapshots && b.snapshots[i - 1].id in SnapshotIds(b);
        forall r | r in s.records ensures r.id != b.snapshots[i - 1].id {}
        assert PathOf(items[i].segment) == PathOf(SnapshotSegment(b, b.snapshots[i - 1]));
      }
    }
  }

  lemma PrepareClears(s: Store, b: Batch, id: Id)
    requires BatchInv(s, b) && ValidBatch(b) && FreshId(s, b, id)
    ensures Partial(Prepare(s, b), b, id, 0)
  {
    var found := TechnicalOf(s.records, b);
    if found.Some? {
      var own := OwnRecords(s.records, b);
      ListsAllOwn(s, b, found.value);
      DeleteShrinks(s, own);
      var cleaned := s.Delete(own);
      forall r | r in cleaned.records ensures !Own(b, r) && r.id !in SnapshotIds(b) {
        assert r in s.records && (r in own ==> r.id in Ids(own));
      }
      ClearedIsPartial(cleaned, b, id);
    } else {
      ClearedIsPartial(s, b, id);
    }
  }
}
