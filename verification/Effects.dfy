// The file and repository operations of an upload and of `initialize` one by one, in the order in which the code
// performs them. A crash leaves the effects of some prefix, or breaks off a content write.

module Effects {
  import opened Options
  import opened Segments
  import opened SegmentStore
  import opened BatchRecovery

  datatype Effect =
    | Unlink(path: Path)
    | RemoveIndex(path: Path)
    | DeleteRecords(ids: set<Id>)
    | WriteFile(path: Path, content: Content)
    | CreateRecord(segment: Segment)
    | WriteIndex(segment: Segment)
    | CountDrops(count: nat)

  function Apply(s: Store, e: Effect): Store {
    match e
    case Unlink(path) => s.(files := s.files - {path})
    case RemoveIndex(path) => s.(indexes := s.indexes - {path})
    case DeleteRecords(ids) => s.(records := Without(s.records, ids))
    case WriteFile(path, content) => s.(files := s.files[path := content])
    case CreateRecord(segment) => s.CreateRecord(segment)
    case WriteIndex(segment) => s.WriteIndex(segment)
    case CountDrops(count) => s.(quotaDrops := s.quotaDrops + count)
  }

  function Run(s: Store, effects: seq<Effect>): Store
    decreases |effects|
  {
    if effects == [] then s else Run(Apply(s, effects[0]), effects[1..])
  }

  function Reversed(list: seq<Segment>): (r: seq<Segment>)
    ensures |r| == |list| && forall i :: 0 <= i < |list| ==> r[i] == list[|list| - 1 - i]
  {
    if list == [] then [] else Reversed(list[1..]) + [list[0]]
  }

  // removeStoredFile for each segment: its content file, then its index file.
  function Removals(order: seq<Segment>): (effects: seq<Effect>)
    ensures |effects| == 2 * |order|
  {
    if order == [] then []
    else [Unlink(PathOf(order[0])), RemoveIndex(PathOf(order[0]))] + Removals(order[1..])
  }

  // The files one after the other, then all the records at once.
  function Deletion(order: seq<Segment>): seq<Effect> {
    Removals(order) + [DeleteRecords(Ids(order))]
  }

  // deleteStoredSegments goes through its list from the end.
  function DeleteListed(listed: seq<Segment>): seq<Effect> {
    Deletion(Reversed(listed))
  }

  // The count limit deletes a page at a time, each page newest first.
  function CountPages(list: seq<Segment>): seq<Effect> {
    if list == [] then []
    else var page := Take(list, PAGE_LIMIT); DeleteListed(page) + CountPages(list[|page|..])
  }

  // The byte quota deletes a page at a time, oldest first.
  function BytePages(list: seq<Segment>): seq<Effect> {
    if list == [] then []
    else var page := Take(list, PAGE_LIMIT); Deletion(page) + BytePages(list[|page|..])
  }

  function Counted(removed: nat): seq<Effect> {
    if removed > 0 then [CountDrops(removed)] else []
  }

  function CountStep(s: Store, policy: Policy): seq<Effect>
    requires policy.maxSegments > 0
  {
    var overflow := s.CountEvicted(policy.maxSegments);
    CountPages(overflow) + Counted(|overflow|)
  }

  function ByteStep(s: Store, kind: Kind, incoming: nat, quota: nat): seq<Effect> {
    var run := s.ByteEvicted(kind, incoming, quota);
    BytePages(run) + Counted(|run|)
  }

  // enforceQuota for a segment no larger than its quota.
  function RoomEffects(s: Store, kind: Kind, incoming: nat, policy: Policy): seq<Effect>
    requires policy.maxSegments > 0
  {
    CountStep(s, policy)
    + ByteStep(s.Delete(s.CountEvicted(policy.maxSegments)), kind, incoming, policy.QuotaFor(kind))
  }

  function Steps(item: Item): seq<Effect> {
    [WriteFile(PathOf(item.segment), item.bytes), CreateRecord(item.segment), WriteIndex(item.segment)]
  }

  // A refused record leaves neither content nor index.
  function TakenBack(item: Item): seq<Effect> {
    var path := PathOf(item.segment);
    [WriteFile(path, item.bytes), RemoveIndex(path), Unlink(path)]
  }

  // persistSegment, including what it takes back when the item is refused.
  function PersistEffects(s: Store, item: Item, policy: Policy): seq<Effect>
    requires policy.maxSegments > 0
  {
    if !Fits(item, policy) then [CountDrops(1)]
    else
      var room := RoomFor(s, item, policy);
      RoomEffects(s, item.segment.kind, |item.bytes|, policy)
      + if Unobstructed(room, item) then Steps(item)
        else if PathOf(item.segment) in room.files then []
        else TakenBack(item)
  }

  function LoopEffects(s: Store, items: seq<Item>, created: seq<Segment>, policy: Policy): seq<Effect>
    requires policy.maxSegments > 0
    decreases |items|
  {
    if items == [] then []
    else PersistEffects(s, items[0], policy)
         + if CanPersist(s, items[0], policy) then
             LoopEffects(Next(s, items[0], policy), items[1..], created + [items[0].segment], policy)
           else DeleteListed(created)
  }

  // removeUnindexedPreparedFile for the first n snapshots.
  function LeftoverEffects(records: seq<Segment>, b: Batch, n: nat): seq<Effect>
    requires n <= |b.snapshots|
  {
    if n == 0 then []
    else
      var segment := SnapshotSegment(b, b.snapshots[n - 1]);
      LeftoverEffects(records, b, n - 1)
      + if segment.id in Ids(records) then [] else [Unlink(PathOf(segment)), RemoveIndex(PathOf(segment))]
  }

  // The incomplete batch is listed newest first, so its oldest file goes first.
  function ClearingEffects(s: Store, b: Batch): seq<Effect> {
    if TechnicalOf(s.records, b).Some? then DeleteListed(Reversed(ListedOwn(s.records, b))) else []
  }

  function UploadEffects(s: Store, b: Batch, technicalId: Id, policy: Policy): seq<Effect>
    requires policy.maxSegments > 0
  {
    if Answered(s, b) then []
    else ClearingEffects(s, b)
         + LeftoverEffects(Cleared(s, b).records, b, |b.snapshots|)
         + LoopEffects(Prepare(s, b), Items(b, technicalId), [], policy)
  }

  // What is left when the process stops after so many effects; at the latest after all of them.
  function Crashed(s: Store, effects: seq<Effect>, done: nat): Store {
    Run(s, if done < |effects| then effects[..done] else effects)
  }

  // A crash within a content write leaves the file with anything in it.
  datatype Stop = Stop(done: nat, torn: Option<Content>)

  function StoppedAt(s: Store, effects: seq<Effect>, stop: Stop): Store {
    var t := Crashed(s, effects, stop.done);
    if stop.done < |effects| && effects[stop.done].WriteFile? && stop.torn.Some? then
      Apply(t, WriteFile(effects[stop.done].path, stop.torn.value))
    else t
  }

  // What `initialize` does about one record, and about one after the other.
  function Repair(s: Store, r: Segment, at: int): seq<Effect> {
    if r.expiresAt <= at then []
    else if PathOf(r) !in s.files then [RemoveIndex(PathOf(r)), DeleteRecords({r.id})]
    else if PathOf(r) !in s.indexes || s.indexes[PathOf(r)] != IndexPayload(r) then [WriteIndex(r)]
    else []
  }

  function RepairAll(s: Store, listed: seq<Segment>, at: int): seq<Effect> {
    if listed == [] then []
    else
      var last := |listed| - 1;
      RepairAll(s, listed[..last], at) + Repair(ReconcileAll(s, listed[..last], at), listed[last], at)
  }

  function InitializeEffects(s: Store, at: int): seq<Effect> {
    RepairAll(s, s.records, at)
  }

  // ---------------------------------------------------------------- what the effects add up to

  lemma {:induction false} RunAppend(s: Store, a: seq<Effect>, b: seq<Effect>)
    ensures Run(s, a + b) == Run(Run(s, a), b)
    decreases |a|
  {
    if a == [] {
      assert a + b == b;
    } else {
      assert (a + b)[0] == a[0] && (a + b)[1..] == a[1..] + b;
      RunAppend(Apply(s, a[0]), a[1..], b);
    }
  }

  lemma RunOne(s: Store, e: Effect)
    ensures Run(s, [e]) == Apply(s, e)
  {
    assert [e][1..] == [];
  }

  lemma RunTwo(s: Store, e: Effect, f: Effect)
    ensures Run(s, [e, f]) == Apply(Apply(s, e), f)
  {
    assert [e, f] == [e] + [f];
    RunAppend(s, [e], [f]);
    RunOne(s, e);
    RunOne(Apply(s, e), f);
  }

  lemma RunThree(s: Store, e: Effect, f: Effect, g: Effect)
    ensures Run(s, [e, f, g]) == Apply(Apply(Apply(s, e), f), g)
  {
    assert [e, f, g] == [e] + [f, g];
    RunAppend(s, [e], [f, g]);
    RunOne(s, e);
    RunTwo(Apply(s, e), f, g);
  }

  lemma ReversedTwice(list: seq<Segment>)
    ensures Reversed(Reversed(list)) == list
  {}

  lemma ReversedMembers(list: seq<Segment>)
    ensures Ids(Reversed(list)) == Ids(list) && Paths(Reversed(list)) == Paths(list)
    ensures forall s :: s in Reversed(list) <==> s in list
  {
    forall s | s in list ensures s in Reversed(list) {
      var i :| 0 <= i < |list| && list[i] == s;
      assert Reversed(list)[|list| - 1 - i] == s;
    }
    forall s | s in Reversed(list) ensures s in list {}
  }

  lemma {:induction false} RunRemovals(s: Store, order: seq<Segment>)
    ensures Run(s, Removals(order)) == s.(files := s.files - Paths(order), indexes := s.indexes - Paths(order))
    decreases |order|
  {
    if order == [] {
      assert Paths([]) == {} && s.files - {} == s.files && s.indexes - {} == s.indexes;
    } else {
      var path := PathOf(order[0]);
      RunAppend(s, [Unlink(path), RemoveIndex(path)], Removals(order[1..]));
      RunTwo(s, Unlink(path), RemoveIndex(path));
      RunRemovals(Apply(Apply(s, Unlink(path)), RemoveIndex(path)), order[1..]);
      assert order == [order[0]] + order[1..];
      IdsAppend([order[0]], order[1..]);
      assert Paths([order[0]]) == {path};
      assert s.files - {path} - Paths(order[1..]) == s.files - Paths(order);
      assert s.indexes - {path} - Paths(order[1..]) == s.indexes - Paths(order);
    }
  }

  lemma RunDeletion(s: Store, order: seq<Segment>)
    ensures Run(s, Deletion(order)) == s.Delete(order)
  {
    RunAppend(s, Removals(order), [DeleteRecords(Ids(order))]);
    RunRemovals(s, order);
    RunOne(Run(s, Removals(order)), DeleteRecords(Ids(order)));
  }

  lemma RunDeleteListed(s: Store, listed: seq<Segment>)
    ensures Run(s, DeleteListed(listed)) == s.Delete(listed)
  {
    RunDeletion(s, Reversed(listed));
    ReversedMembers(listed);
  }

  lemma PageSplits(list: seq<Segment>)
    requires list != []
    ensures var page := Take(list, PAGE_LIMIT);
      0 < |page| <= |list| && page == list[..|page|] && list == page + list[|page|..] && |list[|page|..]| < |list|
  {}

  lemma {:induction false} RunCountPages(s: Store, list: seq<Segment>)
    ensures Run(s, CountPages(list)) == s.Delete(list)
    decreases |list|
  {
    hide Store.Delete, Run;
    if list == [] {
      DeleteNothing(s);
      RunNothing(s);
    } else {
      PageSplits(list);
      var page := Take(list, PAGE_LIMIT);
      var rest := list[|page|..];
      RunAppend(s, DeleteListed(page), CountPages(rest));
      RunDeleteListed(s, page);
      RunCountPages(s.Delete(page), rest);
      DeleteTwice(s, page, rest);
    }
  }

  lemma RunNothing(s: Store)
    ensures Run(s, []) == s
  {}

  lemma {:induction false} RunBytePages(s: Store, list: seq<Segment>)
    ensures Run(s, BytePages(list)) == s.Delete(list)
    decreases |list|
  {
    hide Store.Delete, Run;
    if list == [] {
      DeleteNothing(s);
      RunNothing(s);
    } else {
      PageSplits(list);
      var page := Take(list, PAGE_LIMIT);
      var rest := list[|page|..];
      RunAppend(s, Deletion(page), BytePages(rest));
      RunDeletion(s, page);
      RunBytePages(s.Delete(page), rest);
      DeleteTwice(s, page, rest);
    }
  }

  lemma RunCounted(s: Store, removed: nat)
    ensures Run(s, Counted(removed)) == s.(quotaDrops := s.quotaDrops + removed)
  {
    if removed > 0 { RunOne(s, CountDrops(removed)); }
  }

  lemma RunCountStep(s: Store, policy: Policy)
    requires policy.maxSegments > 0
    ensures var overflow := s.CountEvicted(policy.maxSegments);
      Run(s, CountStep(s, policy)) == s.Delete(overflow).(quotaDrops := s.quotaDrops + |overflow|)
  {
    hide Store.CountEvicted, Run;
    var overflow := s.CountEvicted(policy.maxSegments);
    RunAppend(s, CountPages(overflow), Counted(|overflow|));
    RunCountPages(s, overflow);
    RunCounted(s.Delete(overflow), |overflow|);
  }

  lemma RunByteStep(s: Store, kind: Kind, incoming: nat, quota: nat)
    ensures var run := s.ByteEvicted(kind, incoming, quota);
      Run(s, ByteStep(s, kind, incoming, quota)) == s.Delete(run).(quotaDrops := s.quotaDrops + |run|)
  {
    hide Store.ByteEvicted, Run;
    var run := s.ByteEvicted(kind, incoming, quota);
    RunAppend(s, BytePages(run), Counted(|run|));
    RunBytePages(s, run);
    RunCounted(s.Delete(run), |run|);
  }

  lemma CounterIsIrrelevant(s: Store, drops: nat, kind: Kind, incoming: nat, quota: nat)
    ensures ByteStep(s.(quotaDrops := drops), kind, incoming, quota) == ByteStep(s, kind, incoming, quota)
    ensures s.(quotaDrops := drops).ByteEvicted(kind, incoming, quota) == s.ByteEvicted(kind, incoming, quota)
  {}

  lemma RunRoom(s: Store, kind: Kind, incoming: nat, policy: Policy)
    requires policy.maxSegments > 0
    ensures Run(s, RoomEffects(s, kind, incoming, policy)) == s.MakeRoom(kind, incoming, policy)
  {
    hide Store.ByteEvicted, Store.CountEvicted, ByteStep, CountStep, Run;
    var overflow := s.CountEvicted(policy.maxSegments);
    var trimmed := s.Delete(overflow);
    var counted := trimmed.(quotaDrops := s.quotaDrops + |overflow|);
    var quota := policy.QuotaFor(kind);
    RunAppend(s, CountStep(s, policy), ByteStep(trimmed, kind, incoming, quota));
    RunCountStep(s, policy);
    CounterIsIrrelevant(trimmed, counted.quotaDrops, kind, incoming, quota);
    RunByteStep(counted, kind, incoming, quota);
  }

  lemma RunSteps(room: Store, item: Item)
    ensures Run(room, Steps(item)) == Persisted(room, item)
  {
    RunThree(room, WriteFile(PathOf(item.segment), item.bytes), CreateRecord(item.segment), WriteIndex(item.segment));
  }

  lemma RunTakenBack(room: Store, item: Item)
    requires PathOf(item.segment) !in room.files
    ensures Run(room, TakenBack(item)) == room.(indexes := room.indexes - {PathOf(item.segment)})
  {
    var path := PathOf(item.segment);
    RunThree(room, WriteFile(path, item.bytes), RemoveIndex(path), Unlink(path));
    assert room.files[path := item.bytes] - {path} == room.files;
  }

  // The effects of one item leave what persistSegment leaves.
  lemma RunPersist(s: Store, item: Item, policy: Policy)
    requires policy.maxSegments > 0
    ensures Run(s, PersistEffects(s, item, policy))
         == if CanPersist(s, item, policy) then Next(s, item, policy) else RefusedPersist(s, item, policy)
  {
    hide Run, RoomEffects, RoomFor, Unobstructed, Persisted, Steps, TakenBack;
    if !Fits(item, policy) {
      RunOne(s, CountDrops(1));
    } else {
      var room := RoomFor(s, item, policy);
      var effects := RoomEffects(s, item.segment.kind, |item.bytes|, policy);
      RoomIs(s, item, policy);
      RunRoom(s, item.segment.kind, |item.bytes|, policy);
      if Unobstructed(room, item) {
        RunAppend(s, effects, Steps(item));
        RunSteps(room, item);
      } else if PathOf(item.segment) in room.files {
        assert effects + [] == effects;
      } else {
        RunAppend(s, effects, TakenBack(item));
        RunTakenBack(room, item);
      }
    }
  }

  lemma RoomIs(s: Store, item: Item, policy: Policy)
    requires policy.maxSegments > 0
    ensures RoomFor(s, item, policy) == s.MakeRoom(item.segment.kind, |item.bytes|, policy)
  {}

  lemma {:induction false} RunLoop(s: Store, items: seq<Item>, created: seq<Segment>, policy: Policy)
    requires policy.maxSegments > 0
    ensures Run(s, LoopEffects(s, items, created, policy)) == PersistLoop(s, items, created, policy)
    decreases |items|
  {
    hide Run, PersistEffects, CanPersist, Next, RefusedPersist, DeleteListed, Store.Delete;
    if items == [] {
      RunNothing(s);
    } else {
      RunPersist(s, items[0], policy);
      var first := PersistEffects(s, items[0], policy);
      if CanPersist(s, items[0], policy) {
        var next, longer := Next(s, items[0], policy), created + [items[0].segment];
        RunAppend(s, first, LoopEffects(next, items[1..], longer, policy));
        RunLoop(next, items[1..], longer, policy);
      } else {
        RunAppend(s, first, DeleteListed(created));
        RunDeleteListed(RefusedPersist(s, items[0], policy), created);
      }
    }
  }

  lemma {:induction false} RunLeftover(s: Store, b: Batch, n: nat)
    requires n <= |b.snapshots|
    ensures Run(s, LeftoverEffects(s.records, b, n)) == ClearUnindexed(s, b, n)
    ensures ClearUnindexed(s, b, n).records == s.records
  {
    hide Run;
    if n == 0 {
      RunNothing(s);
    } else {
      RunLeftover(s, b, n - 1);
      var path := PathOf(SnapshotSegment(b, b.snapshots[n - 1]));
      var before, removal := LeftoverEffects(s.records, b, n - 1), [Unlink(path), RemoveIndex(path)];
      RunAppend(s, before, []);
      RunAppend(s, before, removal);
      RunNothing(Run(s, before));
      RunTwo(Run(s, before), Unlink(path), RemoveIndex(path));
    }
  }

  lemma RunClearing(s: Store, b: Batch)
    ensures Run(s, ClearingEffects(s, b)) == Cleared(s, b)
  {
    var own := ListedOwn(s.records, b);
    RunDeleteListed(s, Reversed(own));
    ReversedMembers(own);
    RunNothing(s);
  }

  // The effects, performed to the last one, are the upload.
  lemma EffectsAreTheUpload(s: Store, b: Batch, id: Id, policy: Policy)
    requires policy.maxSegments > 0
    ensures Run(s, UploadEffects(s, b, id, policy)) == Upload(s, b, id, policy)
  {
    hide Run, ClearingEffects, LeftoverEffects, LoopEffects, Cleared, PersistLoop, Answered;
    if Answered(s, b) {
      RunNothing(s);
    } else {
      var cleaned := Cleared(s, b);
      var leftovers := LeftoverEffects(cleaned.records, b, |b.snapshots|);
      var loop := LoopEffects(Prepare(s, b), Items(b, id), [], policy);
      RunAppend(s, ClearingEffects(s, b) + leftovers, loop);
      RunAppend(s, ClearingEffects(s, b), leftovers);
      RunClearing(s, b);
      RunLeftover(cleaned, b, |b.snapshots|);
      RunLoop(Prepare(s, b), Items(b, id), [], policy);
    }
  }

  lemma RunRepair(s: Store, r: Segment, at: int)
    ensures Run(s, Repair(s, r, at)) == ReconcileOne(s, r, at)
  {
    hide Run;
    RunNothing(s);
    if at < r.expiresAt {
      if PathOf(r) !in s.files {
        RunTwo(s, RemoveIndex(PathOf(r)), DeleteRecords({r.id}));
      } else if PathOf(r) in s.indexes && s.indexes[PathOf(r)] == IndexPayload(r) {
        assert s.indexes[PathOf(r) := IndexPayload(r)] == s.indexes;
      } else {
        RunOne(s, WriteIndex(r));
      }
    }
  }

  lemma {:induction false} RunRepairAll(s: Store, listed: seq<Segment>, at: int)
    ensures Run(s, RepairAll(s, listed, at)) == ReconcileAll(s, listed, at)
    decreases |listed|
  {
    hide Run, Repair, ReconcileOne;
    if listed == [] {
      RunNothing(s);
    } else {
      var last := |listed| - 1;
      var t := ReconcileAll(s, listed[..last], at);
      RunRepairAll(s, listed[..last], at);
      RunAppend(s, RepairAll(s, listed[..last], at), Repair(t, listed[last], at));
      RunRepair(t, listed[last], at);
    }
  }

  // Performing the operations of a whole `initialize` leaves what it leaves.
  lemma InitializeEffectsAreIt(s: Store, at: int)
    ensures Run(s, InitializeEffects(s, at)) == Reconcile(s, at)
  {
    RunRepairAll(s, s.records, at);
  }
}
