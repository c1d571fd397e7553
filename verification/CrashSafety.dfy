// Every crash point of an upload and of `initialize`: what holds of the stores wherever they stop.

module CrashSafety {
  import opened Options
  import opened Segments
  import opened SegmentStore
  import opened BatchRecovery
  import opened BatchRecords
  import opened Effects

  // The batch's records are its own items, and content that is there is the right content.
  ghost predicate CrashLoose(s: Store, b: Batch) {
    && s.WellFormed()
    && (forall r <- s.records :: Own(b, r) ==> IsItemOf(b, r) && (PathOf(r) in s.files ==> HasContent(s, b, r)))
    && (forall q, r :: q in s.records && r in s.records && IsTechnicalOf(b, q) && IsTechnicalOf(b, r) ==> q == r)
    && (forall r <- s.records :: IsTechnicalOf(b, r) ==> r.id !in SnapshotIds(b))
    && (forall r <- s.records :: r.id in SnapshotIds(b) ==> Own(b, r))
  }

  // While any file of the batch is there, so are its technical segment and that one's file.
  ghost predicate Anchored(s: Store, b: Batch) {
    forall r <- s.records :: Own(b, r) && PathOf(r) in s.files ==>
      exists t :: t in s.records && IsTechnicalOf(b, t) && PathOf(t) in s.files
  }

  // Every recorded snapshot of the batch is older than its technical segment.
  ghost predicate InOrder(s: Store, b: Batch) {
    forall t, r :: t in s.records && r in s.records && IsTechnicalOf(b, t) && Own(b, r) && r != t ==> Older(r, t)
  }

  ghost predicate AllInPlace(s: Store, b: Batch) {
    && (exists t :: t in s.records && IsTechnicalOf(b, t) && PathOf(t) in s.files)
    && (forall i :: 0 <= i < |b.snapshots| ==>
          SnapshotSegment(b, b.snapshots[i]) in s.records && PathOf(SnapshotSegment(b, b.snapshots[i])) in s.files)
  }

  ghost predicate CrashInv(s: Store, b: Batch) {
    CrashLoose(s, b) && Anchored(s, b) && (InOrder(s, b) || AllInPlace(s, b))
  }

  // A content write may break off with anything in the file.
  ghost predicate TearsSafely(s: Store, e: Effect, b: Batch) {
    e.WriteFile? ==> forall content :: CrashInv(Apply(s, WriteFile(e.path, content)), b)
  }

  // The invariant holds after every prefix of the effects, and within a content write.
  ghost predicate Safe(s: Store, effects: seq<Effect>, b: Batch)
    decreases |effects|
  {
    CrashInv(s, b)
    && (effects != [] ==> TearsSafely(s, effects[0], b) && Safe(Apply(s, effects[0]), effects[1..], b))
  }

  // The batch's snapshots, the last one excepted, are older than a technical segment with this id.
  ghost predicate Ordered(b: Batch, technicalId: Id) {
    forall i :: 0 <= i < |b.snapshots| - 1 ==>
      Older(SnapshotSegment(b, b.snapshots[i]), TechnicalSegment(b, technicalId))
  }

  // ---------------------------------------------------------------- sequences of effects

  lemma {:induction false} SafeAt(s: Store, effects: seq<Effect>, b: Batch, done: nat)
    requires Safe(s, effects, b)
    ensures CrashInv(Crashed(s, effects, done), b)
    decreases |effects|
  {
    hide CrashInv, Apply;
    if effects != [] && done > 0 {
      SafeAt(Apply(s, effects[0]), effects[1..], b, done - 1);
      if done < |effects| {
        assert effects[..done][0] == effects[0] && effects[..done][1..] == effects[1..][..done - 1];
      }
    }
  }

  lemma {:induction false} SafeStop(s: Store, effects: seq<Effect>, b: Batch, stop: Stop)
    requires Safe(s, effects, b)
    ensures CrashInv(StoppedAt(s, effects, stop), b)
    decreases |effects|
  {
    hide CrashInv, Apply;
    SafeAt(s, effects, b, stop.done);
    if stop.done < |effects| {
      if stop.done == 0 {
        assert effects[..0] == [];
      } else {
        SafeStop(Apply(s, effects[0]), effects[1..], b, Stop(stop.done - 1, stop.torn));
        assert effects[..stop.done][0] == effects[0] && effects[..stop.done][1..] == effects[1..][..stop.done - 1];
        assert effects[1..][stop.done - 1] == effects[stop.done];
      }
    }
  }

  lemma {:induction false} SafeAppend(s: Store, first: seq<Effect>, second: seq<Effect>, b: Batch)
    requires Safe(s, first, b) && Safe(Run(s, first), second, b)
    ensures Safe(s, first + second, b)
    decreases |first|
  {
    hide CrashInv, Apply, TearsSafely;
    if first == [] {
      assert first + second == second;
    } else {
      assert (first + second)[0] == first[0] && (first + second)[1..] == first[1..] + second;
      SafeAppend(Apply(s, first[0]), first[1..], second, b);
    }
  }

  lemma SafeNothing(s: Store, b: Batch)
    requires CrashInv(s, b)
    ensures Safe(s, [], b)
  {}

  lemma SafeOne(s: Store, e: Effect, b: Batch)
    requires CrashInv(s, b) && CrashInv(Apply(s, e), b) && !e.WriteFile?
    ensures Safe(s, [e], b)
  {
    assert [e][1..] == [];
  }

  lemma SafeTwo(s: Store, e: Effect, f: Effect, b: Batch)
    requires CrashInv(s, b) && CrashInv(Apply(s, e), b) && CrashInv(Apply(Apply(s, e), f), b)
    requires !e.WriteFile? && !f.WriteFile?
    ensures Safe(s, [e, f], b)
  {
    hide CrashInv, Apply;
    assert [e, f][1..] == [f];
    SafeOne(Apply(s, e), f, b);
  }

  lemma SafeThree(s: Store, e: Effect, f: Effect, g: Effect, b: Batch)
    requires CrashInv(s, b) && CrashInv(Apply(s, e), b) && CrashInv(Apply(Apply(s, e), f), b)
    requires CrashInv(Apply(Apply(Apply(s, e), f), g), b)
    requires TearsSafely(s, e, b) && !f.WriteFile? && !g.WriteFile?
    ensures Safe(s, [e, f, g], b)
  {
    hide CrashInv, Apply;
    assert [e, f, g][1..] == [f, g];
    SafeTwo(Apply(s, e), f, g, b);
  }

  lemma SafeEnd(s: Store, effects: seq<Effect>, b: Batch)
    requires Safe(s, effects, b)
    ensures CrashInv(Run(s, effects), b)
  {
    SafeAt(s, effects, b, |effects|);
  }

  // ---------------------------------------------------------------- effects on other segments

  // Same records, and no file of the batch lost or changed.
  ghost predicate OwnUntouched(s: Store, t: Store, b: Batch) {
    && t.WellFormed()
    && (forall r <- t.records :: r in s.records) && (forall r <- s.records :: Own(b, r) ==> r in t.records)
    && (forall r <- s.records :: Own(b, r) ==>
          && (PathOf(r) in t.files <==> PathOf(r) in s.files)
          && (PathOf(r) in s.files ==> t.files[PathOf(r)] == s.files[PathOf(r)]))
  }

  lemma UntouchedKeepsInv(s: Store, t: Store, b: Batch)
    requires CrashInv(s, b) && OwnUntouched(s, t, b)
    ensures CrashInv(t, b)
  {
    assert CrashLoose(t, b) by { hide Store.WellFormed, Anchored, InOrder, AllInPlace; }
    assert Anchored(t, b);
    assert InOrder(s, b) ==> InOrder(t, b);
    assert AllInPlace(s, b) ==> AllInPlace(t, b);
  }

  lemma UnlinkOther(s: Store, b: Batch, path: Path)
    requires CrashInv(s, b) && forall r <- s.records :: Own(b, r) ==> PathOf(r) != path
    ensures CrashInv(Apply(s, Unlink(path)), b)
  {
    UntouchedKeepsInv(s, Apply(s, Unlink(path)), b);
  }

  // Index files and the counter do not matter to the invariant.
  lemma SameRecordsAndFiles(s: Store, t: Store, b: Batch)
    requires CrashInv(s, b) && t.records == s.records && t.files == s.files
    ensures CrashInv(t, b)
  {
    UntouchedKeepsInv(s, t, b);
  }

  lemma DeleteOthers(s: Store, b: Batch, ids: set<Id>)
    requires CrashInv(s, b) && forall r <- s.records :: r.id in ids ==> !Own(b, r)
    ensures CrashInv(Apply(s, DeleteRecords(ids)), b)
  {
    WithoutKeepsOrder(s.records, ids);
    UntouchedKeepsInv(s, Apply(s, DeleteRecords(ids)), b);
  }

  // Every listed segment is a record that is not the batch's.
  ghost predicate Others(s: Store, list: seq<Segment>, b: Batch) {
    forall g <- list :: g in s.records && !Own(b, g)
  }

  lemma OtherPath(s: Store, g: Segment, b: Batch)
    requires DistinctIds(s.records) && g in s.records && !Own(b, g)
    ensures forall r <- s.records :: Own(b, r) ==> PathOf(r) != PathOf(g)
  {
    forall r | r in s.records && Own(b, r) ensures r.id != g.id {
      if r.id == g.id { SameIdSameRecord(s.records, r, g); }
    }
  }

  lemma {:induction false} OtherRemovalsSafe(s: Store, list: seq<Segment>, b: Batch)
    requires CrashInv(s, b) && Others(s, list, b)
    ensures Safe(s, Removals(list), b)
    decreases |list|
  {
    hide CrashInv, Safe;
    if list == [] {
      SafeNothing(s, b);
    } else {
      var path := PathOf(list[0]);
      var unlinked := Apply(s, Unlink(path));
      var removed := Apply(unlinked, RemoveIndex(path));
      InvIsWellFormed(s, b);
      OtherPath(s, list[0], b);
      UnlinkOther(s, b, path);
      SameRecordsAndFiles(unlinked, removed, b);
      SafeTwo(s, Unlink(path), RemoveIndex(path), b);
      RunTwo(s, Unlink(path), RemoveIndex(path));
      OtherRemovalsSafe(removed, list[1..], b);
      SafeAppend(s, [Unlink(path), RemoveIndex(path)], Removals(list[1..]), b);
    }
  }

  lemma InvIsWellFormed(s: Store, b: Batch)
    requires CrashInv(s, b)
    ensures s.WellFormed()
  {}

  lemma OtherDeletionSafe(s: Store, list: seq<Segment>, b: Batch)
    requires CrashInv(s, b) && Others(s, list, b)
    ensures Safe(s, Deletion(list), b)
  {
    hide CrashInv, Safe;
    OtherRemovalsSafe(s, list, b);
    SafeEnd(s, Removals(list), b);
    RunRemovals(s, list);
    var removed := Run(s, Removals(list));
    InvIsWellFormed(s, b);
    forall r | r in removed.records && r.id in Ids(list) ensures !Own(b, r) {
      var g :| g in list && g.id == r.id;
      SameIdSameRecord(s.records, r, g);
    }
    DeleteOthers(removed, b, Ids(list));
    SafeOne(removed, DeleteRecords(Ids(list)), b);
    SafeAppend(s, Removals(list), [DeleteRecords(Ids(list))], b);
  }

  // After one page of distinct records the rest of them is still recorded.
  lemma RestStays(s: Store, list: seq<Segment>, n: nat, b: Batch)
    requires DistinctIds(list) && n <= |list| && Others(s, list, b)
    ensures Others(s.Delete(list[..n]), list[n..], b) && Others(s, list[..n], b) && DistinctIds(list[n..])
  {
    forall g | g in list[n..] ensures g in s.Delete(list[..n]).records { PrefixIdsApart(list, n, g); }
  }

  lemma {:induction false} CountPagesSafe(s: Store, list: seq<Segment>, b: Batch)
    requires CrashInv(s, b) && Others(s, list, b) && DistinctIds(list)
    ensures Safe(s, CountPages(list), b)
    decreases |list|
  {
    hide CrashInv, Safe, DistinctIds, Store.Delete;
    if list == [] {
      SafeNothing(s, b);
    } else {
      PageSplits(list);
      var page := Take(list, PAGE_LIMIT);
      RestStays(s, list, |page|, b);
      ReversedMembers(page);
      OtherDeletionSafe(s, Reversed(page), b);
      SafeEnd(s, DeleteListed(page), b);
      RunDeleteListed(s, page);
      CountPagesSafe(s.Delete(page), list[|page|..], b);
      SafeAppend(s, DeleteListed(page), CountPages(list[|page|..]), b);
    }
  }

  lemma {:induction false} BytePagesSafe(s: Store, list: seq<Segment>, b: Batch)
    requires CrashInv(s, b) && Others(s, list, b) && DistinctIds(list)
    ensures Safe(s, BytePages(list), b)
    decreases |list|
  {
    hide CrashInv, Safe, DistinctIds, Store.Delete;
    if list == [] {
      SafeNothing(s, b);
    } else {
      PageSplits(list);
      var page := Take(list, PAGE_LIMIT);
      RestStays(s, list, |page|, b);
      OtherDeletionSafe(s, page, b);
      SafeEnd(s, Deletion(page), b);
      RunDeletion(s, page);
      BytePagesSafe(s.Delete(page), list[|page|..], b);
      SafeAppend(s, Deletion(page), BytePages(list[|page|..]), b);
    }
  }

  lemma CountedSafe(s: Store, removed: nat, b: Batch)
    requires CrashInv(s, b)
    ensures Safe(s, Counted(removed), b)
  {
    if removed > 0 {
      SameRecordsAndFiles(s, Apply(s, CountDrops(removed)), b);
      SafeOne(s, CountDrops(removed), b);
    }
  }

  // Making room is safe at every step when it evicts none of the batch's segments.
  lemma RoomSafe(s: Store, item: Item, policy: Policy, b: Batch)
    requires policy.maxSegments > 0 && CrashInv(s, b)
    requires forall r <- s.records :: Own(b, r) ==> r in RoomFor(s, item, policy).records
    ensures Safe(s, RoomEffects(s, item.segment.kind, |item.bytes|, policy), b)
  {
    hide CrashInv, Safe, Run, DistinctIds, CountPages, BytePages, Counted;
    var kind, incoming, quota := item.segment.kind, |item.bytes|, policy.QuotaFor(item.segment.kind);
    var overflow := s.CountEvicted(policy.maxSegments);
    var trimmed := s.Delete(overflow);
    var run := trimmed.ByteEvicted(kind, incoming, quota);
    InvIsWellFormed(s, b);
    EvictedAreOthers(s, item, policy, b);
    CountPagesSafe(s, overflow, b);
    SafeEnd(s, CountPages(overflow), b);
    RunCountPages(s, overflow);
    CountedSafe(trimmed, |overflow|, b);
    SafeAppend(s, CountPages(overflow), Counted(|overflow|), b);
    SafeEnd(s, CountStep(s, policy), b);
    RunCountStep(s, policy);
    var counted := Run(s, CountStep(s, policy));
    CounterIsIrrelevant(trimmed, counted.quotaDrops, kind, incoming, quota);
    ByteStepSafe(counted, kind, incoming, quota, b);
    SafeAppend(s, CountStep(s, policy), ByteStep(trimmed, kind, incoming, quota), b);
  }

  lemma ByteStepSafe(s: Store, kind: Kind, incoming: nat, quota: nat, b: Batch)
    requires CrashInv(s, b) && Others(s, s.ByteEvicted(kind, incoming, quota), b)
    requires DistinctIds(s.ByteEvicted(kind, incoming, quota))
    ensures Safe(s, ByteStep(s, kind, incoming, quota), b)
  {
    hide CrashInv, Safe, Run, DistinctIds, Store.ByteEvicted;
    var run := s.ByteEvicted(kind, incoming, quota);
    BytePagesSafe(s, run, b);
    SafeEnd(s, BytePages(run), b);
    CountedSafe(Run(s, BytePages(run)), |run|, b);
    SafeAppend(s, BytePages(run), Counted(|run|), b);
  }

  lemma EvictedAreOthers(s: Store, item: Item, policy: Policy, b: Batch)
    requires policy.maxSegments > 0 && s.WellFormed()
    requires forall r <- s.records :: Own(b, r) ==> r in RoomFor(s, item, policy).records
    ensures var overflow := s.CountEvicted(policy.maxSegments);
      var trimmed := s.Delete(overflow);
      var run := trimmed.ByteEvicted(item.segment.kind, |item.bytes|, policy.QuotaFor(item.segment.kind));
      && Others(s, overflow, b) && DistinctIds(overflow) && Others(trimmed, run, b) && DistinctIds(run)
  {
    hide Store.ByteEvicted, Sorted;
    var overflow := s.CountEvicted(policy.maxSegments);
    var trimmed := s.Delete(overflow);
    var kind, incoming, quota := item.segment.kind, |item.bytes|, policy.QuotaFor(item.segment.kind);
    var run := trimmed.ByteEvicted(kind, incoming, quota);
    DeleteKeepsWellFormed(s, overflow);
    RunMembers(trimmed, kind, incoming, quota);
    forall g | g in overflow ensures g in s.records && !Own(b, g) { assert g.id in Ids(overflow); }
    forall g | g in run ensures g in trimmed.records && !Own(b, g) { assert g.id in Ids(run) && g in s.records; }
  }

  lemma RunMembers(s: Store, kind: Kind, incoming: nat, quota: nat)
    requires s.WellFormed()
    ensures DistinctIds(s.ByteEvicted(kind, incoming, quota))
    ensures forall g <- s.ByteEvicted(kind, incoming, quota) :: g in s.records
  {
    OfClassDistinct(s.records, kind);
    var list, run := OfClass(s.records, kind), s.ByteEvicted(kind, incoming, quota);
    PrefixDistinct(list, |run|);
    forall g | g in run ensures g in s.records { assert g in list; }
  }

  // ---------------------------------------------------------------- the batch's own deletion

  // The technical segment, if it is listed, goes last.
  ghost predicate TechnicalLast(list: seq<Segment>, b: Batch) {
    forall i :: 0 <= i < |list| - 1 ==> !IsTechnicalOf(b, list[i])
  }

  // Every file the batch still has belongs to a listed record.
  ghost predicate CoversOwn(s: Store, list: seq<Segment>, b: Batch) {
    && (forall g <- list :: g in s.records && Own(b, g))
    && (forall r <- s.records :: Own(b, r) && PathOf(r) in s.files ==> r in list)
  }

  lemma UnlinkOwn(s: Store, list: seq<Segment>, b: Batch)
    requires CrashInv(s, b) && InOrder(s, b) && CoversOwn(s, list, b) && TechnicalLast(list, b) && list != []
    ensures var t := Apply(s, Unlink(PathOf(list[0])));
      CrashInv(t, b) && InOrder(t, b) && CoversOwn(t, list[1..], b) && TechnicalLast(list[1..], b)
  {
    var t := Apply(s, Unlink(PathOf(list[0])));
    forall r | r in t.records && Own(b, r) && PathOf(r) in t.files
      ensures r in list[1..]
      ensures exists q :: q in t.records && IsTechnicalOf(b, q) && PathOf(q) in t.files
    {
      var i :| 0 <= i < |list| && list[i] == r;
      assert i > 0 && r == list[1..][i - 1];
      var q :| q in s.records && IsTechnicalOf(b, q) && PathOf(q) in s.files;
      assert q in list && q != list[0];
      if PathOf(q) == PathOf(list[0]) { SameIdSameRecord(s.records, q, list[0]); }
    }
    assert CrashLoose(t, b);
  }

  lemma {:induction false} OwnRemovalsSafe(s: Store, list: seq<Segment>, b: Batch)
    requires CrashInv(s, b) && InOrder(s, b) && CoversOwn(s, list, b) && TechnicalLast(list, b)
    ensures Safe(s, Removals(list), b)
    decreases |list|
  {
    hide CrashInv, Safe, InOrder, CoversOwn, TechnicalLast;
    if list == [] {
      SafeNothing(s, b);
    } else {
      var path := PathOf(list[0]);
      var unlinked := Apply(s, Unlink(path));
      var removed := Apply(unlinked, RemoveIndex(path));
      UnlinkOwn(s, list, b);
      SameRecordsAndFiles(unlinked, removed, b);
      OnlyIndexesDiffer(unlinked, removed, list[1..], b);
      SafeTwo(s, Unlink(path), RemoveIndex(path), b);
      RunTwo(s, Unlink(path), RemoveIndex(path));
      OwnRemovalsSafe(removed, list[1..], b);
      SafeAppend(s, [Unlink(path), RemoveIndex(path)], Removals(list[1..]), b);
    }
  }

  lemma OnlyIndexesDiffer(s: Store, t: Store, list: seq<Segment>, b: Batch)
    requires t.records == s.records && t.files == s.files
    ensures InOrder(s, b) ==> InOrder(t, b)
    ensures CoversOwn(s, list, b) ==> CoversOwn(t, list, b)
  {}

  lemma OwnDeletionSafe(s: Store, list: seq<Segment>, b: Batch)
    requires CrashInv(s, b) && InOrder(s, b) && CoversOwn(s, list, b) && TechnicalLast(list, b)
    ensures Safe(s, Deletion(list), b)
  {
    hide Safe, Run;
    OwnRemovalsSafe(s, list, b);
    SafeEnd(s, Removals(list), b);
    RunRemovals(s, list);
    var removed := Run(s, Removals(list));
    forall r | r in removed.records && Own(b, r) ensures PathOf(r) !in removed.files {}
    DeleteFileless(removed, Ids(list), b);
    SafeOne(removed, DeleteRecords(Ids(list)), b);
    SafeAppend(s, Removals(list), [DeleteRecords(Ids(list))], b);
  }

  lemma DeleteFileless(s: Store, ids: set<Id>, b: Batch)
    requires CrashInv(s, b) && InOrder(s, b) && forall r <- s.records :: Own(b, r) ==> PathOf(r) !in s.files
    ensures CrashInv(Apply(s, DeleteRecords(ids)), b)
  {
    WithoutKeepsOrder(s.records, ids);
    var t := Apply(s, DeleteRecords(ids));
    assert CrashLoose(t, b);
    assert Anchored(t, b) && InOrder(t, b);
  }

  // ---------------------------------------------------------------- the persist loop

  lemma RecordedIsSafe(s: Store, b: Batch, id: Id, j: nat)
    requires Recorded(s, b, id, j) && ValidBatch(b) && id !in SnapshotIds(b) && Ordered(b, id)
    ensures CrashInv(s, b)
    ensures j < |Items(b, id)| ==> InOrder(s, b)
  {
    hide Recorded, LooseInv, CrashLoose, Anchored, InOrder, AllInPlace, Ordered;
    RecordedIsInv(s, b, id, j);
    LooseIsCrashLoose(s, b);
    RecordedIsAnchored(s, b, id, j);
    if j < |Items(b, id)| { RecordedIsInOrder(s, b, id, j); } else { RecordedIsInPlace(s, b, id, j); }
  }

  lemma LooseIsCrashLoose(s: Store, b: Batch)
    requires LooseInv(s, b)
    ensures CrashLoose(s, b)
  {}

  lemma RecordedIsAnchored(s: Store, b: Batch, id: Id, j: nat)
    requires Recorded(s, b, id, j) && ValidBatch(b)
    ensures Anchored(s, b)
  {
    forall r | r in s.records && Own(b, r)
      ensures exists t :: t in s.records && IsTechnicalOf(b, t) && PathOf(t) in s.files
    {
      RecordedItem(s, b, id, j, r);
      assert IsTechnicalOf(b, Items(b, id)[0].segment);
    }
  }

  lemma RecordedIsInPlace(s: Store, b: Batch, id: Id, j: nat)
    requires Recorded(s, b, id, j) && j >= |Items(b, id)|
    ensures AllInPlace(s, b)
  {
    forall i | 0 <= i < |b.snapshots| ensures SnapshotSegment(b, b.snapshots[i]) == Items(b, id)[i + 1].segment {}
    assert IsTechnicalOf(b, Items(b, id)[0].segment);
  }

  lemma RecordedIsInOrder(s: Store, b: Batch, id: Id, j: nat)
    requires Recorded(s, b, id, j) && ValidBatch(b) && Ordered(b, id) && j < |Items(b, id)|
    ensures InOrder(s, b)
  {
    hide Older, ValidBatch, Store.WellFormed;
    forall t, r | t in s.records && r in s.records && IsTechnicalOf(b, t) && Own(b, r) && r != t ensures Older(r, t) {
      RecordedItem(s, b, id, j, t);
      var i :| 0 <= i < j && r == Items(b, id)[i].segment;
      assert i > 0 && Items(b, id)[i].segment == SnapshotSegment(b, b.snapshots[i - 1]);
    }
  }

  lemma PartialIsSafe(s: Store, b: Batch, id: Id, j: nat)
    requires Partial(s, b, id, j) && ValidBatch(b) && id !in SnapshotIds(b) && Ordered(b, id)
    ensures Recorded(s, b, id, j) && CrashInv(s, b)
  {
    RecordedIsSafe(s, b, id, j);
  }

  // Whatever is in an item's file while there is no record of it.
  lemma AnyContent(s: Store, b: Batch, id: Id, j: nat, content: Content)
    requires Partial(s, b, id, j) && ValidBatch(b) && id !in SnapshotIds(b) && j < |Items(b, id)|
    ensures Recorded(s.WriteContent(Items(b, id)[j].segment, content), b, id, j)
  {
    var items := Items(b, id);
    forall i | 0 <= i < j ensures PathOf(items[i].segment) != PathOf(items[j].segment) { ItemsDistinct(b, id, i, j); }
  }

  lemma StepsSafe(s: Store, b: Batch, id: Id, j: nat, policy: Policy)
    requires ValidBatch(b) && id !in SnapshotIds(b) && policy.maxSegments > 0 && j < |Items(b, id)| && Ordered(b, id)
    requires Partial(s, b, id, j)
    requires forall r <- s.records :: Own(b, r) ==> r in RoomFor(s, Items(b, id)[j], policy).records
    ensures Safe(RoomFor(s, Items(b, id)[j], policy), Steps(Items(b, id)[j]), b)
  {
    hide CrashInv, Safe, Recorded, Ordered, RoomFor;
    var item := Items(b, id)[j];
    var room := RoomFor(s, item, policy);
    RecordedIsSafe(s, b, id, j);
    InvIsWellFormed(s, b);
    RoomShrinks(s, item, policy);
    ShrunkKeepsPartial(s, room, b, id, j);
    RoomAndItem(s, b, id, j, policy);
    RecordedIsSafe(room, b, id, j);
    RecordedIsSafe(room.WriteContent(item.segment, item.bytes), b, id, j);
    RecordedIsSafe(room.WriteContent(item.segment, item.bytes).CreateRecord(item.segment), b, id, j + 1);
    RecordedIsSafe(Next(s, item, policy), b, id, j + 1);
    forall content ensures CrashInv(Apply(room, WriteFile(PathOf(item.segment), content)), b) {
      AnyContent(room, b, id, j, content);
      RecordedIsSafe(room.WriteContent(item.segment, content), b, id, j);
    }
    SafeThree(room, WriteFile(PathOf(item.segment), item.bytes), CreateRecord(item.segment),
              WriteIndex(item.segment), b);
  }

  function SegmentsOf(items: seq<Item>): (segments: seq<Segment>)
    ensures |segments| == |items|
  {
    seq(|items|, i requires 0 <= i < |items| => items[i].segment)
  }

  lemma CreatedCovers(s: Store, b: Batch, id: Id, j: nat)
    requires Recorded(s, b, id, j)
    ensures CoversOwn(s, Reversed(SegmentsOf(Items(b, id)[..j])), b)
  {
    hide Store.WellFormed, Reversed;
    var items := Items(b, id);
    var created := SegmentsOf(items[..j]);
    ReversedMembers(created);
    forall r | r in s.records && Own(b, r) ensures r in created {
      var i :| 0 <= i < j && r == items[i].segment;
      assert created[i] == r;
    }
    forall g | g in created ensures g in s.records && Own(b, g) {
      var i :| 0 <= i < j && created[i] == g;
      assert g == items[i].segment;
    }
  }

  lemma CreatedTechnicalLast(b: Batch, id: Id, j: nat)
    requires j < |Items(b, id)|
    ensures TechnicalLast(Reversed(SegmentsOf(Items(b, id)[..j])), b)
  {
    hide IsTechnicalOf, Items;
    var created := SegmentsOf(Items(b, id)[..j]);
    forall i | 0 <= i < j - 1 ensures !IsTechnicalOf(b, Reversed(created)[i]) {
      ItemIs(b, id, j - 1 - i);
      assert Reversed(created)[i] == created[j - 1 - i] == Items(b, id)[j - 1 - i].segment;
    }
  }

  // The rollback deletes snapshots before the technical segment, which was created first.
  lemma RollbackSafe(s: Store, b: Batch, id: Id, j: nat)
    requires Recorded(s, b, id, j) && ValidBatch(b) && id !in SnapshotIds(b) && Ordered(b, id) && j < |Items(b, id)|
    ensures Safe(s, DeleteListed(SegmentsOf(Items(b, id)[..j])), b)
  {
    hide Safe, Recorded, Ordered, CrashInv, InOrder, CoversOwn, TechnicalLast;
    RecordedIsSafe(s, b, id, j);
    CreatedCovers(s, b, id, j);
    CreatedTechnicalLast(b, id, j);
    OwnDeletionSafe(s, Reversed(SegmentsOf(Items(b, id)[..j])), b);
  }

  // One accepted item.
  lemma ItemSafe(s: Store, b: Batch, id: Id, j: nat, policy: Policy)
    requires ValidBatch(b) && id !in SnapshotIds(b) && policy.maxSegments > 0 && j < |Items(b, id)| && Ordered(b, id)
    requires Partial(s, b, id, j) && KeepsOwn(s, Items(b, id)[j..], b, policy) && Fits(Items(b, id)[j], policy)
    ensures var item, next := Items(b, id)[j], Next(s, Items(b, id)[j], policy);
      && CanPersist(s, item, policy) && Safe(s, PersistEffects(s, item, policy), b)
      && Partial(next, b, id, j + 1) && KeepsOwn(next, Items(b, id)[j + 1..], b, policy)
  {
    hide CrashInv, Safe, Recorded, Partial, Ordered, RoomFor, Run, RoomEffects, Steps, Unobstructed, Own, Persisted;
    var item := Items(b, id)[j];
    assert Items(b, id)[j..][0] == item && Items(b, id)[j..][1..] == Items(b, id)[j + 1..];
    PartialIsSafe(s, b, id, j);
    RoomAndItem(s, b, id, j, policy);
    RoomSafe(s, item, policy, b);
    RoomIs(s, item, policy);
    RunRoom(s, item.segment.kind, |item.bytes|, policy);
    StepsSafe(s, b, id, j, policy);
    SafeAppend(s, RoomEffects(s, item.segment.kind, |item.bytes|, policy), Steps(item), b);
  }

  // An item over its quota, and the rollback.
  lemma RefusalSafe(s: Store, b: Batch, id: Id, j: nat, policy: Policy)
    requires ValidBatch(b) && id !in SnapshotIds(b) && policy.maxSegments > 0 && j < |Items(b, id)| && Ordered(b, id)
    requires Partial(s, b, id, j) && !Fits(Items(b, id)[j], policy)
    ensures Safe(s, PersistEffects(s, Items(b, id)[j], policy) + DeleteListed(SegmentsOf(Items(b, id)[..j])), b)
  {
    hide CrashInv, Safe, Recorded, Partial, Ordered, Run, DeleteListed, SegmentsOf;
    PartialIsSafe(s, b, id, j);
    var counted := Apply(s, CountDrops(1));
    SameRecordsAndFiles(s, counted, b);
    SafeOne(s, CountDrops(1), b);
    RunOne(s, CountDrops(1));
    RecordedOnlyByFiles(s, counted, b, id, j);
    RollbackSafe(counted, b, id, j);
    SafeAppend(s, [CountDrops(1)], DeleteListed(SegmentsOf(Items(b, id)[..j])), b);
  }

  lemma {:induction false} LoopSafe(s: Store, b: Batch, id: Id, j: nat, policy: Policy)
    requires ValidBatch(b) && id !in SnapshotIds(b) && policy.maxSegments > 0 && j <= |Items(b, id)| && Ordered(b, id)
    requires Partial(s, b, id, j) && KeepsOwn(s, Items(b, id)[j..], b, policy)
    ensures Safe(s, LoopEffects(s, Items(b, id)[j..], SegmentsOf(Items(b, id)[..j]), policy), b)
    decreases |Items(b, id)| - j
  {
    hide CrashInv, Safe, Recorded, Partial, Ordered, RoomFor, Run, PersistEffects, DeleteListed, Unobstructed, Next;
    hide Fits;
    hide ValidBatch, Own, SnapshotIds, KeepsOwn;
    var items := Items(b, id);
    PartialIsSafe(s, b, id, j);
    if j == |items| {
      SafeNothing(s, b);
    } else {
      var item, rest, created := items[j], items[j..], SegmentsOf(items[..j]);
      assert rest[0] == item && rest[1..] == items[j + 1..];
      if Fits(item, policy) {
        ItemSafe(s, b, id, j, policy);
        RunPersist(s, item, policy);
        LoopSafe(Next(s, item, policy), b, id, j + 1, policy);
        assert SegmentsOf(items[..j + 1]) == created + [item.segment];
        var later := LoopEffects(Next(s, item, policy), rest[1..], created + [item.segment], policy);
        SafeAppend(s, PersistEffects(s, item, policy), later, b);
      } else {
        RefusalSafe(s, b, id, j, policy);
      }
    }
  }

  lemma RecordedOnlyByFiles(s: Store, t: Store, b: Batch, id: Id, j: nat)
    requires Recorded(s, b, id, j) && t.records == s.records && t.files == s.files
    ensures Recorded(t, b, id, j)
  {}

  // ---------------------------------------------------------------- the whole upload

  lemma {:induction false} OwnSorted(records: seq<Segment>, b: Batch)
    requires Sorted(records)
    ensures Sorted(OwnRecords(records, b))
  {
    if records != [] {
      OwnSorted(records[1..], b);
      var rest := OwnRecords(records[1..], b);
      forall j | 0 <= j < |rest| ensures Older(records[0], rest[j]) {
        assert rest[j] in rest && rest[j] in records[1..];
      }
    }
  }

  lemma {:induction false} LeftoverSafe(s: Store, b: Batch, n: nat)
    requires CrashInv(s, b) && n <= |b.snapshots|
    ensures Safe(s, LeftoverEffects(s.records, b, n), b)
  {
    hide CrashInv, Safe, Run;
    if n == 0 {
      SafeNothing(s, b);
    } else {
      LeftoverSafe(s, b, n - 1);
      var before := LeftoverEffects(s.records, b, n - 1);
      SafeEnd(s, before, b);
      RunLeftover(s, b, n - 1);
      var segment, t := SnapshotSegment(b, b.snapshots[n - 1]), Run(s, before);
      var path := PathOf(segment);
      if segment.id in Ids(s.records) {
        assert before + [] == before;
      } else {
        UnlinkOther(t, b, path);
        SameRecordsAndFiles(Apply(t, Unlink(path)), Apply(Apply(t, Unlink(path)), RemoveIndex(path)), b);
        SafeTwo(t, Unlink(path), RemoveIndex(path), b);
        SafeAppend(s, before, [Unlink(path), RemoveIndex(path)], b);
      }
    }
  }

  lemma ClearingSafe(s: Store, b: Batch)
    requires CrashInv(s, b) && LooseInv(s, b) && ValidBatch(b) && InOrder(s, b)
    ensures Safe(s, ClearingEffects(s, b), b)
  {
    hide Safe, CrashInv, LooseInv, InOrder, ValidBatch, Removals, Reversed, CoversOwn, TechnicalLast, IsTechnicalOf;
    var found := TechnicalOf(s.records, b);
    if found.Some? {
      var own := OwnRecords(s.records, b);
      InvIsWellFormed(s, b);
      ListsAllOwn(s, b, found.value);
      ReversedTwice(own);
      OwnTechnicalLast(s, b);
      OwnCovers(s, b);
      OwnDeletionSafe(s, own, b);
    } else {
      SafeNothing(s, b);
    }
  }

  lemma OwnCovers(s: Store, b: Batch)
    ensures CoversOwn(s, OwnRecords(s.records, b), b)
  {}

  lemma OwnTechnicalLast(s: Store, b: Batch)
    requires s.WellFormed() && InOrder(s, b)
    ensures TechnicalLast(OwnRecords(s.records, b), b)
  {
    var own := OwnRecords(s.records, b);
    OwnSorted(s.records, b);
    forall i | 0 <= i < |own| - 1 ensures !IsTechnicalOf(b, own[i]) {
      assert own[i] in own && own[|own| - 1] in own && Older(own[i], own[|own| - 1]);
    }
  }

  // Main result: wherever an upload stops, nothing of the batch has been lost that `initialize` cannot put right.
  lemma UploadSafe(s: Store, b: Batch, id: Id, policy: Policy)
    requires BatchInv(s, b) && ValidBatch(b) && policy.maxSegments > 0
    requires Answered(s, b) ==> CrashInv(s, b)
    requires !Answered(s, b) ==>
               InOrder(s, b) && FreshId(s, b, id) && Ordered(b, id) && KeepsOwn(Prepare(s, b), Items(b, id), b, policy)
    ensures Safe(s, UploadEffects(s, b, id, policy), b)
  {
    hide Safe, CrashInv, BatchInv, LooseInv, NoStrandedSnapshot, Answered, KeepsOwn, FreshId, Ordered, Run, Prepare;
    hide InOrder;
    if Answered(s, b) {
      SafeNothing(s, b);
    } else {
      SettledIsSafe(s, b);
      ClearingSafe(s, b);
      SafeEnd(s, ClearingEffects(s, b), b);
      RunClearing(s, b);
      var cleaned := Cleared(s, b);
      var leftovers := LeftoverEffects(cleaned.records, b, |b.snapshots|);
      LeftoverSafe(cleaned, b, |b.snapshots|);
      SafeAppend(s, ClearingEffects(s, b), leftovers, b);
      RunLeftover(cleaned, b, |b.snapshots|);
      RunAppend(s, ClearingEffects(s, b), leftovers);
      PrepareIs(s, b);
      PrepareClears(s, b, id);
      assert Items(b, id)[0..] == Items(b, id) && SegmentsOf(Items(b, id)[..0]) == [];
      FreshMeans(s, b, id);
      LoopSafe(Prepare(s, b), b, id, 0, policy);
      SafeAppend(s, ClearingEffects(s, b) + leftovers, LoopEffects(Prepare(s, b), Items(b, id), [], policy), b);
    }
  }

  lemma SettledIsSafe(s: Store, b: Batch)
    requires BatchInv(s, b) && InOrder(s, b)
    ensures CrashInv(s, b) && LooseInv(s, b)
  {
    if TechnicalOf(s.records, b).Some? {
      var t := TechnicalOf(s.records, b).value;
      assert Own(b, t) && HasContent(s, b, t);
    }
  }

  lemma PrepareIs(s: Store, b: Batch)
    ensures Prepare(s, b) == ClearUnindexed(Cleared(s, b), b, |b.snapshots|)
  {}

  lemma FreshMeans(s: Store, b: Batch, id: Id)
    requires FreshId(s, b, id)
    ensures id !in SnapshotIds(b)
  {}

  // ---------------------------------------------------------------- `initialize`

  // Records without a file may go.
  lemma LosesFileless(s: Store, t: Store, b: Batch)
    requires CrashInv(s, b) && t.WellFormed() && t.files == s.files
    requires forall r <- t.records :: r in s.records
    requires forall r <- s.records :: PathOf(r) in s.files ==> r in t.records
    ensures CrashInv(t, b)
  {
    assert CrashLoose(t, b) by { hide Store.WellFormed, Anchored, InOrder, AllInPlace; }
    assert Anchored(t, b);
    assert InOrder(s, b) ==> InOrder(t, b);
    assert AllInPlace(s, b) ==> AllInPlace(t, b);
  }

  lemma RepairSafe(s: Store, r: Segment, at: int, b: Batch)
    requires CrashInv(s, b) && forall q <- s.records :: q.id == r.id ==> q == r
    ensures Safe(s, Repair(s, r, at), b)
  {
    hide CrashInv, Safe;
    var path := PathOf(r);
    var unindexed := Apply(s, RemoveIndex(path));
    if at < r.expiresAt && path !in s.files {
      SameRecordsAndFiles(s, unindexed, b);
      InvIsWellFormed(s, b);
      WithoutKeepsOrder(s.records, {r.id});
      LosesFileless(unindexed, Apply(unindexed, DeleteRecords({r.id})), b);
      SafeTwo(s, RemoveIndex(path), DeleteRecords({r.id}), b);
    } else if at < r.expiresAt && (path !in s.indexes || s.indexes[path] != IndexPayload(r)) {
      SameRecordsAndFiles(s, Apply(s, WriteIndex(r)), b);
      SafeOne(s, WriteIndex(r), b);
    } else {
      SafeNothing(s, b);
    }
  }

  lemma {:induction false} RepairAllSafe(s: Store, n: nat, at: int, b: Batch)
    requires CrashInv(s, b) && n <= |s.records|
    ensures Safe(s, RepairAll(s, s.records[..n], at), b)
    ensures forall r <- ReconcileAll(s, s.records[..n], at).records :: r in s.records
  {
    hide CrashInv, Safe, Repair, Run;
    if n == 0 {
      SafeNothing(s, b);
    } else {
      var r, before := s.records[n - 1], RepairAll(s, s.records[..n - 1], at);
      assert s.records[..n][..n - 1] == s.records[..n - 1];
      RepairAllSafe(s, n - 1, at, b);
      SafeEnd(s, before, b);
      RunRepairAll(s, s.records[..n - 1], at);
      InvIsWellFormed(s, b);
      var t := ReconcileAll(s, s.records[..n - 1], at);
      forall q | q in t.records && q.id == r.id ensures q == r { SameIdSameRecord(s.records, q, r); }
      RepairSafe(t, r, at, b);
      SafeAppend(s, before, Repair(t, r, at), b);
    }
  }

  // `initialize` may stop anywhere, too.
  lemma InitializeSafe(s: Store, at: int, b: Batch)
    requires CrashInv(s, b)
    ensures Safe(s, InitializeEffects(s, at), b)
  {
    assert s.records[..|s.records|] == s.records;
    RepairAllSafe(s, |s.records|, at, b);
  }
}
