// Idempotent batch upload: what ingestEventBatch does to the three stores, and what holds of them while its persist
// loop goes from item to item.

module BatchRecovery {
  import opened Options
  import opened Segments
  import opened SegmentStore

  // The segment id is a digest of capture, client, batch and snapshot id, so it is the same in every retry.
  datatype Snapshot = Snapshot(id: Id, bytes: Content, capturedAt: int)

  datatype Batch = Batch(captureId: string, clientId: string, batchId: string, fingerprint: string,
                         technicalBytes: Content, endedAt: int, snapshots: seq<Snapshot>)

  datatype Item = Item(segment: Segment, bytes: Content)

  const RETENTION_MS := 24 * 60 * 60 * 1000
  const BATCH_LIST_LIMIT: nat := 10

  function TechnicalSegment(b: Batch, id: Id): Segment {
    Segment(id, b.captureId, b.clientId, Some(b.batchId), Some(b.fingerprint), Technical, |b.technicalBytes|,
            b.endedAt, b.endedAt + RETENTION_MS)
  }

  function SnapshotSegment(b: Batch, s: Snapshot): Segment {
    Segment(s.id, b.captureId, b.clientId, Some(b.batchId), None, DomSnapshot, |s.bytes|,
            s.capturedAt, s.capturedAt + RETENTION_MS)
  }

  // What the loop persists, in order; the technical segment gets a fresh id in every attempt.
  function Items(b: Batch, technicalId: Id): (items: seq<Item>)
    ensures |items| == |b.snapshots| + 1
  {
    [Item(TechnicalSegment(b, technicalId), b.technicalBytes)]
    + seq(|b.snapshots|, i requires 0 <= i < |b.snapshots| =>
            Item(SnapshotSegment(b, b.snapshots[i]), b.snapshots[i].bytes))
  }

  predicate Own(b: Batch, r: Segment) {
    r.captureId == b.captureId && r.batchId == Some(b.batchId)
  }

  function OwnRecords(records: seq<Segment>, b: Batch): (own: seq<Segment>)
    ensures forall r :: r in own <==> r in records && Own(b, r)
  {
    if records == [] then []
    else (if Own(b, records[0]) then [records[0]] else []) + OwnRecords(records[1..], b)
  }

  // listSegments({ captureId, batchId, limit: 10 }): the newest ten.
  function ListedOwn(records: seq<Segment>, b: Batch): seq<Segment> {
    var own := OwnRecords(records, b);
    if |own| <= BATCH_LIST_LIMIT then own else own[|own| - BATCH_LIST_LIMIT..]
  }

  predicate IsTechnicalOf(b: Batch, r: Segment) {
    r.kind.Technical? && r.captureId == b.captureId && r.clientId == b.clientId && r.batchId == Some(b.batchId)
  }

  // getTechnicalSegmentByBatch
  function TechnicalOf(records: seq<Segment>, b: Batch): (found: Option<Segment>)
    ensures found.Some? ==> found.value in records && IsTechnicalOf(b, found.value)
    ensures found.None? ==> forall r <- records :: !IsTechnicalOf(b, r)
  {
    if records == [] then None
    else if IsTechnicalOf(b, records[0]) then Some(records[0])
    else TechnicalOf(records[1..], b)
  }

  function SnapshotIds(b: Batch): set<Id> {
    set s | s in b.snapshots :: s.id
  }

  predicate IsComplete(s: Store, b: Batch, technical: Segment) {
    var existing := ListedOwn(s.records, b);
    && |existing| == |b.snapshots| + 1
    && technical.id in Ids(existing)
    && forall r <- existing :: r.kind.DomSnapshot? ==> r.id in SnapshotIds(b)
  }

  // removeUnindexedPreparedFile for each snapshot.
  function ClearUnindexed(s: Store, b: Batch, n: nat): Store
    requires n <= |b.snapshots|
  {
    if n == 0 then s
    else
      var before := ClearUnindexed(s, b, n - 1);
      var segment := SnapshotSegment(b, b.snapshots[n - 1]);
      if segment.id in Ids(before.records) then before
      else before.(files := before.files - {PathOf(segment)}, indexes := before.indexes - {PathOf(segment)})
  }

  // An incomplete batch is deleted.
  function Cleared(s: Store, b: Batch): Store {
    if TechnicalOf(s.records, b).Some? then s.Delete(ListedOwn(s.records, b)) else s
  }

  // Everything ingestEventBatch removes before it persists.
  function Prepare(s: Store, b: Batch): Store {
    ClearUnindexed(Cleared(s, b), b, |b.snapshots|)
  }

  // enforceQuota refuses a segment larger than its class's quota.
  predicate Fits(item: Item, policy: Policy) {
    |item.bytes| <= policy.QuotaFor(item.segment.kind)
  }

  // writeFile refuses an existing path, createSegment an existing id or batch.
  predicate Unobstructed(room: Store, item: Item) {
    PathOf(item.segment) !in room.files && room.Accepts(item.segment, Some(item.segment.captureId))
  }

  function RoomFor(s: Store, item: Item, policy: Policy): Store
    requires policy.maxSegments > 0
  {
    s.MakeRoom(item.segment.kind, |item.bytes|, policy)
  }

  predicate CanPersist(s: Store, item: Item, policy: Policy)
    requires policy.maxSegments > 0
  {
    Fits(item, policy) && Unobstructed(RoomFor(s, item, policy), item)
  }

  function Persisted(s: Store, item: Item): Store {
    s.WriteContent(item.segment, item.bytes).CreateRecord(item.segment).WriteIndex(item.segment)
  }

  function Next(s: Store, item: Item, policy: Policy): Store
    requires policy.maxSegments > 0
  {
    Persisted(RoomFor(s, item, policy), item)
  }

  // persistSegment's effect when it does not succeed; content and index of a refused record are removed again.
  function RefusedPersist(s: Store, item: Item, policy: Policy): Store
    requires policy.maxSegments > 0
  {
    if !Fits(item, policy) then s.(quotaDrops := s.quotaDrops + 1)
    else
      var room := RoomFor(s, item, policy);
      if PathOf(item.segment) in room.files then room
      else room.(indexes := room.indexes - {PathOf(item.segment)})
  }

  // The persist loop; when an item is refused, what the loop has created is deleted again.
  function PersistLoop(s: Store, items: seq<Item>, created: seq<Segment>, policy: Policy): Store
    requires policy.maxSegments > 0
    decreases |items|
  {
    if items == [] then s
    else if CanPersist(s, items[0], policy) then
      PersistLoop(Next(s, items[0], policy), items[1..], created + [items[0].segment], policy)
    else RefusedPersist(s, items[0], policy).Delete(created)
  }

  // No item is refused.
  ghost predicate Succeeds(s: Store, items: seq<Item>, policy: Policy)
    requires policy.maxSegments > 0
    decreases |items|
  {
    items != [] ==> CanPersist(s, items[0], policy) && Succeeds(Next(s, items[0], policy), items[1..], policy)
  }

  // The stored technical segment of the batch makes a retry return before it changes anything.
  predicate Answered(s: Store, b: Batch) {
    var found := TechnicalOf(s.records, b);
    found.Some? && (found.value.batchFingerprint != Some(b.fingerprint) || IsComplete(s, b, found.value))
  }

  // The locked part of ingestEventBatch while the capture is active.
  function Upload(s: Store, b: Batch, technicalId: Id, policy: Policy): Store
    requires policy.maxSegments > 0
  {
    if Answered(s, b) then s else PersistLoop(Prepare(s, b), Items(b, technicalId), [], policy)
  }

  // As far as the loop gets, making room never evicts the batch's own segments.
  ghost predicate KeepsOwn(s: Store, items: seq<Item>, b: Batch, policy: Policy)
    requires policy.maxSegments > 0
    decreases |items|
  {
    items != [] && Fits(items[0], policy) ==>
      var room := RoomFor(s, items[0], policy);
      && (forall r <- s.records :: Own(b, r) ==> r in room.records)
      && (Unobstructed(room, items[0]) ==> KeepsOwn(Persisted(room, items[0]), items[1..], b, policy))
  }

  // Every segment of the batch is within its class's quota.
  predicate AllFit(b: Batch, policy: Policy) {
    && |b.technicalBytes| <= policy.technicalQuota
    && forall i :: 0 <= i < |b.snapshots| ==> |b.snapshots[i].bytes| <= policy.visualQuota
  }

  // One record of reconcileSegmentIndexes: a lost file takes its record with it, any other index is made to match.
  function ReconcileOne(s: Store, r: Segment, at: int): Store {
    if r.expiresAt <= at then s
    else if PathOf(r) !in s.files then s.(records := Without(s.records, {r.id}), indexes := s.indexes - {PathOf(r)})
    else s.WriteIndex(r)
  }

  function ReconcileAll(s: Store, listed: seq<Segment>, at: int): Store {
    if listed == [] then s
    else
      var last := |listed| - 1;
      ReconcileOne(ReconcileAll(s, listed[..last], at), listed[last], at)
  }

  function Reconcile(s: Store, at: int): Store {
    ReconcileAll(s, s.records, at)
  }

  // ---------------------------------------------------------------- invariants

  // Snapshot ids are distinct and there are few enough for one listing.
  ghost predicate ValidBatch(b: Batch) {
    && |b.snapshots| < BATCH_LIST_LIMIT
    && forall i, j :: 0 <= i < j < |b.snapshots| ==> b.snapshots[i].id != b.snapshots[j].id
  }

  ghost predicate IsItemOf(b: Batch, r: Segment) {
    r == TechnicalSegment(b, r.id) || exists i :: 0 <= i < |b.snapshots| && r == SnapshotSegment(b, b.snapshots[i])
  }

  // The batch's content files are in place.
  ghost predicate HasContent(s: Store, b: Batch, r: Segment) {
    && PathOf(r) in s.files
    && (r.kind.Technical? ==> s.files[PathOf(r)] == b.technicalBytes)
    && (forall i :: 0 <= i < |b.snapshots| && r == SnapshotSegment(b, b.snapshots[i]) ==>
          s.files[PathOf(r)] == b.snapshots[i].bytes)
  }

  // The batch's records are its own items with their content; ids mean what they should.
  ghost predicate LooseInv(s: Store, b: Batch) {
    && s.WellFormed()
    && (forall r <- s.records :: Own(b, r) ==> IsItemOf(b, r) && HasContent(s, b, r))
    && (forall q, r :: q in s.records && r in s.records && IsTechnicalOf(b, q) && IsTechnicalOf(b, r) ==> q == r)
    && (forall r <- s.records :: IsTechnicalOf(b, r) ==> r.id !in SnapshotIds(b))
    && (forall r <- s.records :: r.id in SnapshotIds(b) ==> Own(b, r))
  }

  ghost predicate NoStrandedSnapshot(s: Store, b: Batch) {
    TechnicalOf(s.records, b).Some? || forall r <- s.records :: !Own(b, r)
  }

  // What holds of the batch at every crash point: a snapshot is recorded only together with its technical segment.
  ghost predicate BatchInv(s: Store, b: Batch) {
    LooseInv(s, b) && NoStrandedSnapshot(s, b)
  }

  // The first `j` items are recorded with their content, no other record of the batch exists.
  ghost predicate Recorded(s: Store, b: Batch, technicalId: Id, j: nat) {
    var items := Items(b, technicalId);
    && j <= |items|
    && s.WellFormed()
    && (forall r <- s.records :: Own(b, r) ==> exists i :: 0 <= i < j && r == items[i].segment)
    && (forall i :: 0 <= i < j ==>
          && items[i].segment in s.records && PathOf(items[i].segment) in s.files
          && s.files[PathOf(items[i].segment)] == items[i].bytes)
    && (forall i :: j <= i < |items| ==> items[i].segment.id !in Ids(s.records))
  }

  // ... and indexed, and nothing is in the way of the later items.
  ghost predicate Partial(s: Store, b: Batch, technicalId: Id, j: nat) {
    var items := Items(b, technicalId);
    && Recorded(s, b, technicalId, j)
    && (forall i :: 0 <= i < j ==>
          && PathOf(items[i].segment) in s.indexes
          && s.indexes[PathOf(items[i].segment)] == IndexPayload(items[i].segment))
    && (forall i :: j <= i < |items| ==> PathOf(items[i].segment) !in s.files)
  }

  // The batch is stored exactly once: one technical record, one per snapshot, each with content and matching index.
  ghost predicate StoredOnce(s: Store, b: Batch) {
    && BatchInv(s, b)
    && TechnicalOf(s.records, b).Some?
    && (forall i :: 0 <= i < |b.snapshots| ==> SnapshotSegment(b, b.snapshots[i]) in s.records)
    && (forall r <- s.records :: Own(b, r) ==> PathOf(r) in s.indexes && s.indexes[PathOf(r)] == IndexPayload(r))
  }

  // A technical id no earlier attempt has used.
  ghost predicate FreshId(s: Store, b: Batch, id: Id) {
    id !in Ids(s.records) && id !in SnapshotIds(b) && PathOf(TechnicalSegment(b, id)) !in s.files
  }

  // ---------------------------------------------------------------- lemmas about one item

  lemma ItemsDistinct(b: Batch, id: Id, i: nat, j: nat)
    requires ValidBatch(b) && id !in SnapshotIds(b) && i < j < |Items(b, id)|
    ensures Items(b, id)[i].segment.id != Items(b, id)[j].segment.id
    ensures PathOf(Items(b, id)[i].segment) != PathOf(Items(b, id)[j].segment)
  {
    if i == 0 { assert b.snapshots[j - 1] in b.snapshots; }
  }

  // Deleting segments touches no file of a record that stays.
  lemma DeleteFrame(s: Store, gone: seq<Segment>, r: Segment)
    requires s.WellFormed() && (forall g <- gone :: g in s.records) && r in s.Delete(gone).records
    ensures PathOf(r) in s.files ==>
              PathOf(r) in s.Delete(gone).files && s.Delete(gone).files[PathOf(r)] == s.files[PathOf(r)]
    ensures PathOf(r) in s.indexes ==>
              PathOf(r) in s.Delete(gone).indexes && s.Delete(gone).indexes[PathOf(r)] == s.indexes[PathOf(r)]
  {
    assert PathOf(r) !in Paths(gone) by {
      forall g | g in gone ensures PathOf(g) != PathOf(r) { assert g.id in Ids(gone); }
    }
  }

  // Making room removes records with their files and touches nothing else.
  ghost predicate Shrunk(s: Store, t: Store) {
    && t.WellFormed()
    && (forall r <- t.records :: r in s.records)
    && (forall r <- t.records :: PathOf(r) in s.files ==>
          PathOf(r) in t.files && t.files[PathOf(r)] == s.files[PathOf(r)])
    && (forall r <- t.records :: PathOf(r) in s.indexes ==>
          PathOf(r) in t.indexes && t.indexes[PathOf(r)] == s.indexes[PathOf(r)])
    && t.files.Keys <= s.files.Keys
  }

  lemma DeleteShrinks(s: Store, gone: seq<Segment>)
    requires s.WellFormed() && (forall g <- gone :: g in s.records)
    ensures Shrunk(s, s.Delete(gone))
  {
    DeleteKeepsWellFormed(s, gone);
    forall r | r in s.Delete(gone).records
      ensures PathOf(r) in s.files ==>
                PathOf(r) in s.Delete(gone).files && s.Delete(gone).files[PathOf(r)] == s.files[PathOf(r)]
      ensures PathOf(r) in s.indexes ==>
                PathOf(r) in s.Delete(gone).indexes && s.Delete(gone).indexes[PathOf(r)] == s.indexes[PathOf(r)]
    {
      DeleteFrame(s, gone, r);
    }
  }

  lemma RoomShrinks(s: Store, item: Item, policy: Policy)
    requires s.WellFormed() && policy.maxSegments > 0
    ensures Shrunk(s, RoomFor(s, item, policy))
  {
    var overflow := s.CountEvicted(policy.maxSegments);
    DeleteShrinks(s, overflow);
    var trimmed := s.Delete(overflow);
    DeleteShrinks(trimmed, trimmed.ByteEvicted(item.segment.kind, |item.bytes|, policy.QuotaFor(item.segment.kind)));
  }

  lemma ShrunkKeepsPartial(s: Store, t: Store, b: Batch, id: Id, j: nat)
    requires Partial(s, b, id, j) && Shrunk(s, t) && forall r <- s.records :: Own(b, r) ==> r in t.records
    ensures Partial(t, b, id, j)
  {
    var items := Items(b, id);
    forall i | 0 <= i < j ensures items[i].segment in t.records {
      assert Own(b, items[i].segment);
    }
    forall i | j <= i < |items| ensures items[i].segment.id !in Ids(t.records) {
      forall r | r in t.records ensures r.id != items[i].segment.id { assert r in s.records; }
    }
  }

  // The next item meets no obstacle; its three steps lead from `Recorded(j)` over `Recorded(j + 1)` to `Partial(j +
  // 1)`.
  lemma NextItem(s: Store, b: Batch, id: Id, j: nat)
    requires Partial(s, b, id, j) && ValidBatch(b) && id !in SnapshotIds(b) && j < |Items(b, id)|
    ensures Unobstructed(s, Items(b, id)[j])
    ensures var item := Items(b, id)[j];
      && Recorded(s.WriteContent(item.segment, item.bytes), b, id, j)
      && Recorded(s.WriteContent(item.segment, item.bytes).CreateRecord(item.segment), b, id, j + 1)
      && Partial(Persisted(s, item), b, id, j + 1)
  {
    var items := Items(b, id);
    var item := items[j];
    forall i | 0 <= i < |items| && i != j
      ensures items[i].segment.id != item.segment.id && PathOf(items[i].segment) != PathOf(item.segment)
    {
      if i < j { ItemsDistinct(b, id, i, j); } else { ItemsDistinct(b, id, j, i); }
    }
    InsertKeepsOrder(s.records, item.segment);
    if j == 0 {
      forall r | r in s.records ensures !IsTechnicalOf(b, r) { assert IsTechnicalOf(b, r) ==> Own(b, r); }
    }
    var created := s.WriteContent(item.segment, item.bytes).CreateRecord(item.segment);
    forall i | j + 1 <= i < |items| ensures items[i].segment.id !in Ids(created.records) {
      forall r | r in created.records ensures r.id != items[i].segment.id {
        if r != item.segment { assert r in s.records; }
      }
    }
  }

  lemma RecordedItem(s: Store, b: Batch, id: Id, j: nat, r: Segment)
    requires Recorded(s, b, id, j) && ValidBatch(b) && r in s.records && Own(b, r)
    ensures IsItemOf(b, r) && HasContent(s, b, r)
    ensures IsTechnicalOf(b, r) ==> r == Items(b, id)[0].segment
    ensures Items(b, id)[0].segment in s.records
  {
    hide Store.WellFormed, ValidBatch, Own;
    var items := Items(b, id);
    var i :| 0 <= i < j && r == items[i].segment;
    assert items[0].segment in s.records && PathOf(r) in s.files && s.files[PathOf(r)] == items[i].bytes;
    ItemIs(b, id, i);
    forall k | 0 <= k < |b.snapshots| && r == SnapshotSegment(b, b.snapshots[k])
      ensures s.files[PathOf(r)] == b.snapshots[k].bytes
    {
      assert r == items[k + 1].segment && items[k + 1].bytes == b.snapshots[k].bytes;
      SameItem(b, id, i, k + 1);
    }
  }

  lemma ItemIs(b: Batch, id: Id, i: nat)
    requires i < |Items(b, id)|
    ensures var item := Items(b, id)[i];
      && IsItemOf(b, item.segment)
      && (IsTechnicalOf(b, item.segment) ==> i == 0)
      && (item.segment.kind.Technical? ==> item.bytes == b.technicalBytes)
  {
    if i > 0 { assert Items(b, id)[i].segment == SnapshotSegment(b, b.snapshots[i - 1]); }
  }

  // Snapshots of one id are one snapshot.
  lemma SameItem(b: Batch, id: Id, i: nat, k: nat)
    requires ValidBatch(b) && i < |Items(b, id)| && 0 < k < |Items(b, id)|
    requires Items(b, id)[i].segment == Items(b, id)[k].segment
    ensures i == k
  {
    assert i > 0 ==> Items(b, id)[i].segment == SnapshotSegment(b, b.snapshots[i - 1]);
    assert Items(b, id)[k].segment == SnapshotSegment(b, b.snapshots[k - 1]);
  }

  lemma RecordedIsInv(s: Store, b: Batch, id: Id, j: nat)
    requires Recorded(s, b, id, j) && ValidBatch(b) && id !in SnapshotIds(b)
    ensures BatchInv(s, b)
  {
    forall r | r in s.records && Own(b, r)
      ensures IsItemOf(b, r) && HasContent(s, b, r)
      ensures IsTechnicalOf(b, r) ==> r == TechnicalSegment(b, id)
      ensures TechnicalSegment(b, id) in s.records
    {
      RecordedItem(s, b, id, j, r);
    }
    forall r | r in s.records && r.id in SnapshotIds(b) ensures Own(b, r) { RecordedSnapshotId(s, b, id, j, r); }
    assert IsTechnicalOf(b, TechnicalSegment(b, id));
    forall r | r in s.records && IsTechnicalOf(b, r) ensures Own(b, r) {}
  }

  lemma RecordedSnapshotId(s: Store, b: Batch, id: Id, j: nat, r: Segment)
    requires Recorded(s, b, id, j) && r in s.records && r.id in SnapshotIds(b)
    ensures Own(b, r)
  {
    SnapshotIdIsItem(b, id, r.id);
    var i :| 1 <= i < |Items(b, id)| && Items(b, id)[i].segment.id == r.id;
    assert i < j;
    SameIdSameRecord(s.records, r, Items(b, id)[i].segment);
  }

  lemma SnapshotIdIsItem(b: Batch, technicalId: Id, id: Id)
    requires id in SnapshotIds(b)
    ensures exists i :: 1 <= i < |Items(b, technicalId)| && Items(b, technicalId)[i].segment.id == id
  {
    var s :| s in b.snapshots && s.id == id;
    var k :| 0 <= k < |b.snapshots| && b.snapshots[k] == s;
    assert Items(b, technicalId)[k + 1].segment.id == id;
  }

  lemma SameIdSameRecord(records: seq<Segment>, q: Segment, r: Segment)
    requires DistinctIds(records) && q in records && r in records && q.id == r.id
    ensures q == r
  {
    var i :| 0 <= i < |records| && records[i] == q;
    var j :| 0 <= j < |records| && records[j] == r;
  }

  // ---------------------------------------------------------------- the persist loop

  // Room for the next item, then its three steps.
  lemma RoomAndItem(s: Store, b: Batch, id: Id, j: nat, policy: Policy)
    requires ValidBatch(b) && id !in SnapshotIds(b) && policy.maxSegments > 0 && j < |Items(b, id)|
    requires Partial(s, b, id, j)
    requires forall r <- s.records :: Own(b, r) ==> r in RoomFor(s, Items(b, id)[j], policy).records
    ensures var item, room := Items(b, id)[j], RoomFor(s, Items(b, id)[j], policy);
      && Unobstructed(room, item)
      && Recorded(room.WriteContent(item.segment, item.bytes), b, id, j)
      && Recorded(room.WriteContent(item.segment, item.bytes).CreateRecord(item.segment), b, id, j + 1)
      && Partial(Next(s, item, policy), b, id, j + 1)
  {
    var item := Items(b, id)[j];
    var room := RoomFor(s, item, policy);
    RoomShrinks(s, item, policy);
    ShrunkKeepsPartial(s, room, b, id, j);
    NextItem(room, b, id, j);
  }

  lemma ItemFits(b: Batch, id: Id, policy: Policy, i: nat)
    requires AllFit(b, policy) && i < |Items(b, id)|
    ensures Fits(Items(b, id)[i], policy)
  {}

  // A batch within its quotas is stored from any state in which nothing stands in the way.
  lemma {:induction false} LoopStores(s: Store, b: Batch, id: Id, j: nat, created: seq<Segment>, policy: Policy)
    requires ValidBatch(b) && id !in SnapshotIds(b) && policy.maxSegments > 0 && j <= |Items(b, id)|
    requires Partial(s, b, id, j) && KeepsOwn(s, Items(b, id)[j..], b, policy) && AllFit(b, policy)
    ensures Succeeds(s, Items(b, id)[j..], policy)
    ensures Partial(PersistLoop(s, Items(b, id)[j..], created, policy), b, id, |Items(b, id)|)
    decreases |Items(b, id)| - j
  {
    hide Partial, RoomFor, Persisted, Unobstructed, Fits;
    var rest := Items(b, id)[j..];
    if rest != [] {
      assert rest[0] == Items(b, id)[j] && rest[1..] == Items(b, id)[j + 1..];
      ItemFits(b, id, policy, j);
      RoomAndItem(s, b, id, j, policy);
      LoopStores(Next(s, rest[0], policy), b, id, j + 1, created + [rest[0].segment], policy);
    }
  }
}
