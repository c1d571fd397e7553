// The storage limits, stated on the records themselves: technical segments have one quota, snapshots and videos share
// the other, and the count limit is over all of them. They hold at every point of every run.

module Quotas {
  import opened Options
  import opened Segments
  import opened SegmentStore
  import opened BatchRecovery
  import opened Effects

  function BytesOf(records: seq<Segment>, kinds: set<Kind>): nat {
    if records == [] then 0
    else (if records[0].kind in kinds then records[0].byteSize else 0) + BytesOf(records[1..], kinds)
  }

  // The kinds that share a quota with `kind`.
  function SharedWith(kind: Kind): set<Kind> {
    if kind.Technical? then {Technical} else {DomSnapshot, Video}
  }

  lemma {:induction false} ClassBytesAre(records: seq<Segment>, kind: Kind)
    ensures ClassBytes(records, kind) == BytesOf(records, SharedWith(kind))
  {
    if records != [] { ClassBytesAre(records[1..], kind); }
  }

  function OverCount(records: seq<Segment>, policy: Policy): nat {
    if |records| >= policy.maxSegments then |records| - policy.maxSegments + 1 else 0
  }

  // ---------------------------------------------------------------- what is evicted

  lemma {:induction false} OfClassSorted(records: seq<Segment>, kind: Kind)
    requires Sorted(records)
    ensures Sorted(OfClass(records, kind))
  {
    if records != [] {
      OfClassSorted(records[1..], kind);
      var rest := OfClass(records[1..], kind);
      forall j | 0 <= j < |rest| ensures Older(records[0], rest[j]) { assert rest[j] in records[1..]; }
    }
  }

  // `gone` was stored before `kept`: it ended earlier, or at the same time under a smaller id.
  predicate IsBefore(gone: Segment, kept: Segment) {
    gone.endedAt < kept.endedAt || (gone.endedAt == kept.endedAt && gone.id < kept.id)
  }

  lemma {:induction false} InClass(records: seq<Segment>, kind: Kind)
    ensures forall s :: s in OfClass(records, kind) <==> s in records && s.kind in SharedWith(kind)
  {
    if records != [] { InClass(records[1..], kind); }
  }

  lemma SortedParts(records: seq<Segment>, n: nat)
    requires Sorted(records) && n <= |records|
    ensures Sorted(records[n..])
    ensures forall s :: s in records <==> s in records[..n] || s in records[n..]
    ensures forall gone <- records[..n], kept <- records[n..] :: IsBefore(gone, kept)
  {
    assert records == records[..n] + records[n..];
    forall gone, kept | gone in records[..n] && kept in records[n..] ensures IsBefore(gone, kept) {
      var i :| 0 <= i < n && records[..n][i] == gone;
      var j :| 0 <= j < |records| - n && records[n..][j] == kept;
      assert Older(records[i], records[n + j]);
    }
  }

  // The last of the first k comes after the others.
  lemma LastOfFirst(list: seq<Segment>, k: nat, gone: Segment)
    requires Sorted(list) && 0 < k <= |list| && gone in list[..k] && gone != list[k - 1]
    ensures IsBefore(gone, list[k - 1])
  {
    var i :| 0 <= i < k && list[..k][i] == gone;
    assert Older(list[i], list[k - 1]);
  }

  // The byte step takes the front of the class's list.
  lemma GoneForBytes(before: seq<Segment>, after: seq<Segment>, kind: Kind, incoming: nat, quota: nat, gone: Segment)
    requires Sorted(before) && ByteStepExact(before, after, kind, incoming, quota)
    requires gone in before && gone !in after
    ensures gone.kind in SharedWith(kind)
    ensures forall kept <- after :: kept.kind in SharedWith(kind) ==> IsBefore(gone, kept)
    ensures (forall other <- before :: other !in after && other != gone ==> IsBefore(other, gone)) ==>
              quota < BytesOf(after, SharedWith(kind)) + gone.byteSize + incoming
  {
    hide OfClass, BytesOf, Sorted;
    var list := OfClass(before, kind);
    var k := |list| - |OfClass(after, kind)|;
    InClass(before, kind);
    InClass(after, kind);
    OtherKindsStay(before, after, kind, incoming, quota, gone);
    OfClassSorted(before, kind);
    SortedParts(list, k);
    var newest := list[k - 1];
    assert newest in list[..k] && newest !in after by { assert !IsBefore(newest, newest); }
    if gone != newest { LastOfFirst(list, k, gone); }
    assert list[k - 1..] == [newest] + list[k..];
    BytesFirst(newest, list[k..]);
    ClassBytesAre(after, kind);
  }

  lemma OtherKindsStay(before: seq<Segment>, after: seq<Segment>, kind: Kind, incoming: nat, quota: nat, gone: Segment)
    requires ByteStepExact(before, after, kind, incoming, quota) && gone in before && gone !in after
    ensures gone.kind in SharedWith(kind)
  {
    InClass(before, gone.kind);
    InClass(after, gone.kind);
  }

  lemma BytesFirst(first: Segment, rest: seq<Segment>)
    ensures Bytes([first] + rest) == first.byteSize + Bytes(rest)
  {
    assert ([first] + rest)[1..] == rest;
  }

  // Main result: making room for a segment evicts the oldest segments, of any kind, over the count limit; beyond these
  // only kinds that share the segment's quota, each before everything of these kinds that stays, and not one more than
  // its bytes require.
  lemma EvictsOldestOfSharedQuota(s: Store, kind: Kind, incoming: nat, policy: Policy, gone: Segment)
    requires s.WellFormed() && policy.maxSegments > 0
    requires incoming <= (if kind.Technical? then policy.technicalQuota else policy.visualQuota)
    requires gone in s.records && gone !in s.MakeRoom(kind, incoming, policy).records
    ensures var after, n := s.MakeRoom(kind, incoming, policy).records, OverCount(s.records, policy);
      var quota := if kind.Technical? then policy.technicalQuota else policy.visualQuota;
      && (gone in s.records[..n] ==> forall kept <- s.records[n..] :: IsBefore(gone, kept))
      && (gone in s.records[n..] ==>
            && gone.kind in SharedWith(kind)
            && (forall kept <- after :: kept.kind in SharedWith(kind) ==> IsBefore(gone, kept))
            && ((forall other <- s.records[n..] :: other !in after && other != gone ==> IsBefore(other, gone)) ==>
                  quota < BytesOf(after, SharedWith(kind)) + gone.byteSize + incoming))
  {
    hide Store.MakeRoom, Store.CountEvicted, Store.Delete, Without, Sorted, DistinctIds, BytesOf, ByteStepExact;
    var after, n := s.MakeRoom(kind, incoming, policy).records, OverCount(s.records, policy);
    MakeRoomIsExact(s, kind, incoming, policy);
    SortedParts(s.records, n);
    if gone in s.records[n..] {
      GoneForBytes(s.records[n..], after, kind, incoming, policy.QuotaFor(kind), gone);
    }
  }

  // ---------------------------------------------------------------- what holds at every point

  // The limits, and at most one technical segment for a batch of a client.
  ghost predicate IsOrderly(records: seq<Segment>, policy: Policy) {
    && |records| <= policy.maxSegments
    && BytesOf(records, {Technical}) <= policy.technicalQuota
    && BytesOf(records, {DomSnapshot, Video}) <= policy.visualQuota
    && forall a, b :: a in records && b in records && AreOfOneBatch(a, b) ==> a == b
  }

  predicate AreOfOneBatch(a: Segment, b: Segment) {
    && a.kind.Technical? && b.kind.Technical? && a.batchId.Some?
    && (a.captureId, a.clientId, a.batchId) == (b.captureId, b.clientId, b.batchId)
  }

  lemma StoredWithinQuotas(s: Store, segment: Segment, policy: Policy)
    requires s.WellFormed() && policy.maxSegments > 0 && segment.byteSize <= policy.QuotaFor(segment.kind)
    ensures var after := s.MakeRoom(segment.kind, segment.byteSize, policy).CreateRecord(segment).records;
      && |after| <= policy.maxSegments
      && (segment.kind.Technical? ==>
            && BytesOf(after, {Technical}) <= policy.technicalQuota
            && BytesOf(after, {DomSnapshot, Video}) <= BytesOf(s.records, {DomSnapshot, Video}))
      && (!segment.kind.Technical? ==>
            && BytesOf(after, {DomSnapshot, Video}) <= policy.visualQuota
            && BytesOf(after, {Technical}) <= BytesOf(s.records, {Technical}))
  {
    hide Store.MakeRoom, Store.CreateRecord, BytesOf;
    StoredWithinLimits(s, segment, policy);
    var after := s.MakeRoom(segment.kind, segment.byteSize, policy).CreateRecord(segment).records;
    ClassBytesAre(after, Technical);
    ClassBytesAre(after, DomSnapshot);
    ClassBytesAre(after, Video);
    ClassBytesAre(s.records, Technical);
    ClassBytesAre(s.records, DomSnapshot);
    assert SameClass(DomSnapshot, Video) && !SameClass(DomSnapshot, Technical);
  }

  // Well-formed and orderly at the start and after every single operation.
  ghost predicate Limited(s: Store, effects: seq<Effect>, policy: Policy)
    decreases |effects|
  {
    && s.WellFormed() && IsOrderly(s.records, policy)
    && (effects != [] ==> Limited(Apply(s, effects[0]), effects[1..], policy))
  }

  lemma {:induction false} LimitedAppend(s: Store, first: seq<Effect>, second: seq<Effect>, policy: Policy)
    requires Limited(s, first, policy) && Limited(Run(s, first), second, policy)
    ensures Limited(s, first + second, policy)
    decreases |first|
  {
    hide IsOrderly, Apply, Store.WellFormed;
    if first == [] {
      assert first + second == second;
    } else {
      assert (first + second)[0] == first[0] && (first + second)[1..] == first[1..] + second;
      LimitedAppend(Apply(s, first[0]), first[1..], second, policy);
    }
  }

  lemma {:induction false} LimitedAt(s: Store, effects: seq<Effect>, policy: Policy, done: nat)
    requires Limited(s, effects, policy)
    ensures Crashed(s, effects, done).WellFormed() && IsOrderly(Crashed(s, effects, done).records, policy)
    decreases |effects|
  {
    hide IsOrderly, Apply, Store.WellFormed;
    if effects != [] && done > 0 {
      LimitedAt(Apply(s, effects[0]), effects[1..], policy, done - 1);
      if done < |effects| {
        assert effects[..done][0] == effects[0] && effects[..done][1..] == effects[1..][..done - 1];
      }
    }
  }

  // ---------------------------------------------------------------- operations that create no record

  predicate CreatesNone(effects: seq<Effect>) {
    forall e <- effects :: !e.CreateRecord?
  }

  lemma {:induction false} BytesShrink(records: seq<Segment>, ids: set<Id>, kinds: set<Kind>)
    ensures BytesOf(Without(records, ids), kinds) <= BytesOf(records, kinds)
  {
    if records != [] { BytesShrink(records[1..], ids, kinds); }
  }

  lemma {:induction false} NoneCreated(s: Store, effects: seq<Effect>, policy: Policy)
    requires s.WellFormed() && IsOrderly(s.records, policy) && CreatesNone(effects)
    ensures Limited(s, effects, policy)
    decreases |effects|
  {
    hide Sorted, DistinctIds, BytesOf;
    if effects != [] {
      var e := effects[0];
      assert e in effects && forall f <- effects[1..] :: f in effects;
      if e.DeleteRecords? {
        WithoutKeepsOrder(s.records, e.ids);
        BytesShrink(s.records, e.ids, {Technical});
        BytesShrink(s.records, e.ids, {DomSnapshot, Video});
      }
      NoneCreated(Apply(s, e), effects[1..], policy);
    }
  }

  lemma {:induction false} RemovalsCreateNone(order: seq<Segment>)
    ensures CreatesNone(Removals(order)) && CreatesNone(Deletion(order))
  {
    if order != [] { RemovalsCreateNone(order[1..]); }
  }

  lemma {:induction false} PagesCreateNone(list: seq<Segment>)
    ensures CreatesNone(CountPages(list)) && CreatesNone(BytePages(list))
    decreases |list|
  {
    hide Deletion;
    if list != [] {
      PageSplits(list);
      var page := Take(list, PAGE_LIMIT);
      RemovalsCreateNone(page);
      RemovalsCreateNone(Reversed(page));
      PagesCreateNone(list[|page|..]);
    }
  }

  lemma RoomCreatesNone(s: Store, kind: Kind, incoming: nat, policy: Policy)
    requires policy.maxSegments > 0
    ensures CreatesNone(RoomEffects(s, kind, incoming, policy))
  {
    hide CountPages, BytePages;
    var overflow := s.CountEvicted(policy.maxSegments);
    PagesCreateNone(overflow);
    PagesCreateNone(s.Delete(overflow).ByteEvicted(kind, incoming, policy.QuotaFor(kind)));
  }

  lemma {:induction false} LeftoversCreateNone(records: seq<Segment>, b: Batch, n: nat)
    requires n <= |b.snapshots|
    ensures CreatesNone(LeftoverEffects(records, b, n))
  {
    if n > 0 { LeftoversCreateNone(records, b, n - 1); }
  }

  lemma {:induction false} RepairsCreateNone(s: Store, listed: seq<Segment>, at: int)
    ensures CreatesNone(RepairAll(s, listed, at))
    decreases |listed|
  {
    if listed != [] { RepairsCreateNone(s, listed[..|listed| - 1], at); }
  }

  // ---------------------------------------------------------------- one segment, one upload

  // Room is made before the record is created.
  lemma PersistLimited(s: Store, item: Item, policy: Policy)
    requires s.WellFormed() && IsOrderly(s.records, policy) && policy.maxSegments > 0
    requires item.segment.byteSize == |item.bytes|
    ensures Limited(s, PersistEffects(s, item, policy), policy)
  {
    hide IsOrderly, Store.WellFormed, Unobstructed, RoomFor, RoomEffects, Limited, Steps, TakenBack;
    if !Fits(item, policy) {
      NoneCreated(s, [CountDrops(1)], policy);
    } else {
      var room := RoomFor(s, item, policy);
      var effects := RoomEffects(s, item.segment.kind, |item.bytes|, policy);
      RoomIs(s, item, policy);
      RoomCreatesNone(s, item.segment.kind, |item.bytes|, policy);
      NoneCreated(s, effects, policy);
      RunRoom(s, item.segment.kind, |item.bytes|, policy);
      EndIsLimited(s, effects, policy);
      if Unobstructed(room, item) {
        StepsLimited(s, item, policy);
        LimitedAppend(s, effects, Steps(item), policy);
      } else if PathOf(item.segment) in room.files {
        assert effects + [] == effects;
      } else {
        TakenBackCreatesNone(item);
        NoneCreated(room, TakenBack(item), policy);
        LimitedAppend(s, effects, TakenBack(item), policy);
      }
    }
  }

  lemma TakenBackCreatesNone(item: Item)
    ensures CreatesNone(TakenBack(item))
  {}

  lemma EndIsLimited(s: Store, effects: seq<Effect>, policy: Policy)
    requires Limited(s, effects, policy)
    ensures Run(s, effects).WellFormed() && IsOrderly(Run(s, effects).records, policy)
  {
    LimitedAt(s, effects, policy, |effects|);
  }

  lemma OneOfItsBatch(room: Store, s: Segment, policy: Policy)
    requires IsOrderly(room.records, policy) && !room.HasTechnicalOfBatch(s)
    ensures var after := Insert(room.records, s);
      forall a, b :: a in after && b in after && AreOfOneBatch(a, b) ==> a == b
  {
    hide BytesOf;
  }

  lemma StepsLimited(s: Store, item: Item, policy: Policy)
    requires s.WellFormed() && IsOrderly(s.records, policy) && policy.maxSegments > 0
    requires item.segment.byteSize == |item.bytes| && Fits(item, policy)
    requires RoomFor(s, item, policy).WellFormed() && IsOrderly(RoomFor(s, item, policy).records, policy)
    requires Unobstructed(RoomFor(s, item, policy), item)
    ensures Limited(RoomFor(s, item, policy), Steps(item), policy)
  {
    hide BytesOf, Sorted, DistinctIds, Store.MakeRoom;
    var room := RoomFor(s, item, policy);
    StoredWithinQuotas(s, item.segment, policy);
    InsertKeepsOrder(room.records, item.segment);
    var written := Apply(room, WriteFile(PathOf(item.segment), item.bytes));
    var created := Apply(written, CreateRecord(item.segment));
    assert created.records == room.CreateRecord(item.segment).records;
    OneOfItsBatch(room, item.segment, policy);
    NoneCreated(created, [WriteIndex(item.segment)], policy);
    assert Steps(item)[1..] == [CreateRecord(item.segment), WriteIndex(item.segment)];
    assert Steps(item)[1..][1..] == [WriteIndex(item.segment)];
  }

  lemma DeleteListedIs(listed: seq<Segment>)
    ensures DeleteListed(listed) == Deletion(Reversed(listed))
  {}

  lemma {:induction false} LoopLimited(s: Store, items: seq<Item>, created: seq<Segment>, policy: Policy)
    requires s.WellFormed() && IsOrderly(s.records, policy) && policy.maxSegments > 0
    requires forall item <- items :: item.segment.byteSize == |item.bytes|
    ensures Limited(s, LoopEffects(s, items, created, policy), policy)
    decreases |items|
  {
    hide IsOrderly, Store.WellFormed, PersistEffects, CanPersist, Next, RefusedPersist, DeleteListed, Limited;
    if items == [] {
      NoneCreated(s, [], policy);
    } else {
      var first := PersistEffects(s, items[0], policy);
      PersistLimited(s, items[0], policy);
      RunPersist(s, items[0], policy);
      EndIsLimited(s, first, policy);
      if CanPersist(s, items[0], policy) {
        var next, longer := Next(s, items[0], policy), created + [items[0].segment];
        LoopLimited(next, items[1..], longer, policy);
        LimitedAppend(s, first, LoopEffects(next, items[1..], longer, policy), policy);
      } else {
        RemovalsCreateNone(Reversed(created));
        DeleteListedIs(created);
        NoneCreated(RefusedPersist(s, items[0], policy), DeleteListed(created), policy);
        LimitedAppend(s, first, DeleteListed(created), policy);
      }
    }
  }

  lemma ItemSizes(b: Batch, id: Id)
    ensures forall item <- Items(b, id) :: item.segment.byteSize == |item.bytes|
  {}

  lemma ClearingCreatesNone(s: Store, b: Batch)
    ensures CreatesNone(ClearingEffects(s, b))
  {
    hide Deletion, ListedOwn;
    RemovalsCreateNone(Reversed(Reversed(ListedOwn(s.records, b))));
  }

  lemma UploadLimited(s: Store, b: Batch, id: Id, policy: Policy)
    requires s.WellFormed() && IsOrderly(s.records, policy) && policy.maxSegments > 0
    ensures Limited(s, UploadEffects(s, b, id, policy), policy)
  {
    hide IsOrderly, Store.WellFormed, Answered, ClearingEffects, LeftoverEffects, LoopEffects, Cleared, Limited, Run;
    if Answered(s, b) {
      NoneCreated(s, [], policy);
    } else {
      var cleaned := Cleared(s, b);
      var leftovers := LeftoverEffects(cleaned.records, b, |b.snapshots|);
      ClearingCreatesNone(s, b);
      LeftoversCreateNone(cleaned.records, b, |b.snapshots|);
      NoneCreated(s, ClearingEffects(s, b) + leftovers, policy);
      EndIsLimited(s, ClearingEffects(s, b) + leftovers, policy);
      RunAppend(s, ClearingEffects(s, b), leftovers);
      RunClearing(s, b);
      RunLeftover(cleaned, b, |b.snapshots|);
      ItemSizes(b, id);
      LoopLimited(Prepare(s, b), Items(b, id), [], policy);
      LimitedAppend(s, ClearingEffects(s, b) + leftovers, LoopEffects(Prepare(s, b), Items(b, id), [], policy), policy);
    }
  }

  // ---------------------------------------------------------------- any run of the service

  // What the service is asked for, each stopped somewhere or not: a batch, a single segment such as a video's, the
  // removal of listed segments, and `initialize`.
  datatype Request =
    | UploadBatch(batch: Batch, technicalId: Id, stop: Stop)
    | StoreSegment(item: Item, stop: Stop)
    | RemoveListed(listed: seq<Segment>, done: nat)
    | Initialize(at: int, done: nat)

  function Handled(s: Store, r: Request, policy: Policy): Store
    requires policy.maxSegments > 0
  {
    match r
    case UploadBatch(b, id, stop) => StoppedAt(s, UploadEffects(s, b, id, policy), stop)
    case StoreSegment(item, stop) => StoppedAt(s, PersistEffects(s, item, policy), stop)
    case RemoveListed(listed, done) => Crashed(s, DeleteListed(listed), done)
    case Initialize(at, done) => Crashed(s, InitializeEffects(s, at), done)
  }

  function Served(s: Store, requests: seq<Request>, policy: Policy): Store
    requires policy.maxSegments > 0
  {
    if requests == [] then s
    else Handled(Served(s, requests[..|requests| - 1], policy), requests[|requests| - 1], policy)
  }

  lemma StopLimited(s: Store, effects: seq<Effect>, policy: Policy, stop: Stop)
    requires Limited(s, effects, policy)
    ensures StoppedAt(s, effects, stop).WellFormed() && IsOrderly(StoppedAt(s, effects, stop).records, policy)
  {
    hide Limited, IsOrderly, Crashed;
    LimitedAt(s, effects, policy, stop.done);
  }

  lemma HandledLimited(s: Store, r: Request, policy: Policy)
    requires s.WellFormed() && IsOrderly(s.records, policy) && policy.maxSegments > 0
    requires r.StoreSegment? ==> r.item.segment.byteSize == |r.item.bytes|
    ensures Handled(s, r, policy).WellFormed() && IsOrderly(Handled(s, r, policy).records, policy)
  {
    hide IsOrderly, Store.WellFormed, UploadEffects, PersistEffects, Deletion, RepairAll, Limited, StoppedAt,
         Crashed;
    match r
    case UploadBatch(b, id, stop) =>
      UploadLimited(s, b, id, policy);
      StopLimited(s, UploadEffects(s, b, id, policy), policy, stop);
    case StoreSegment(item, stop) =>
      PersistLimited(s, item, policy);
      StopLimited(s, PersistEffects(s, item, policy), policy, stop);
    case RemoveListed(listed, done) =>
      RemovalsCreateNone(Reversed(listed));
      NoneCreated(s, DeleteListed(listed), policy);
      LimitedAt(s, DeleteListed(listed), policy, done);
    case Initialize(at, done) =>
      RepairsCreateNone(s, s.records, at);
      NoneCreated(s, InitializeEffects(s, at), policy);
      LimitedAt(s, InitializeEffects(s, at), policy, done);
  }

  // Main result: over any run of uploads, videos, removals and restarts, wherever each of them stops, the technical
  // bytes, the bytes of snapshots and videos together, and the number of segments stay within their limits, and no
  // batch of a client has two technical segments.
  lemma {:induction false} LimitsHoldThroughout(s: Store, requests: seq<Request>, policy: Policy)
    requires s.WellFormed() && IsOrderly(s.records, policy) && policy.maxSegments > 0
    requires forall r <- requests :: r.StoreSegment? ==> r.item.segment.byteSize == |r.item.bytes|
    ensures Served(s, requests, policy).WellFormed() && IsOrderly(Served(s, requests, policy).records, policy)
    decreases |requests|
  {
    hide IsOrderly, Store.WellFormed, Handled;
    if requests != [] {
      var n := |requests| - 1;
      assert forall r <- requests[..n] :: r in requests;
      LimitsHoldThroughout(s, requests[..n], policy);
      HandledLimited(Served(s, requests[..n], policy), requests[n], policy);
    }
  }
}
