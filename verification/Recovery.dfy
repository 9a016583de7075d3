/** Flush, reopen and crash: the checkpoint a flush publishes and the manager a reopen rebuilds
    both show the map that the running store shows. */
module Recovery {
  import opened Keys
  import opened Segments
  import opened Managers
  import opened Stores

  // ----- Ordered insertion ---------------------------------------------------------------

  lemma {:induction false} PositionAfter(front: seq<Segment>, later: seq<Segment>, min: nat)
    requires forall i :: 0 <= i < |front| ==> front[i].docs != [] && MinID(front[i]) < min
    requires forall i :: 0 <= i < |later| ==> later[i].docs != [] && min <= MinID(later[i])
    ensures InsertPosition(front + later, min) == |front|
    decreases |front|
  {
    if front != [] {
      assert (front + later)[1..] == front[1..] + later;
      PositionAfter(front[1..], later, min);
    } else {
      assert front + later == later;
    }
  }

  /** Each block of a well-formed layout spans MinID to MaxID. */
  lemma BlockSpan(s: Segment, maxDocs: nat)
    requires Block(s.docs, maxDocs)
    ensures MaxID(s) == MinID(s) + |s.docs| - 1
  {
  }

  /** Two segments of one layout neither share an ID nor overlap, and are ordered by minimum. */
  lemma Apart(all: seq<Segment>, i: nat, n: nat, maxDocs: nat)
    requires SegmentsOK(all, maxDocs) && i < |all| && n < |all| && i != n
    ensures all[i].docs != [] && all[n].docs != []
    ensures all[i].id != all[n].id && !Overlaps(all[n], all[i])
    ensures i < n ==> MinID(all[i]) < MinID(all[n])
    ensures n < i ==> MinID(all[n]) <= MinID(all[i])
  {
    BlockSpan(all[i], maxDocs);
    BlockSpan(all[n], maxDocs);
  }

  ghost predicate Clear(s: Segment, others: seq<Segment>) {
    forall i :: 0 <= i < |others| ==> others[i].docs != [] && others[i].id != s.id && !Overlaps(s, others[i])
  }

  lemma AddClear(front: seq<Segment>, s: Segment, later: seq<Segment>)
    requires s.docs != [] && Clear(s, front) && Clear(s, later)
    requires forall i :: 0 <= i < |front| ==> MinID(front[i]) < MinID(s)
    requires forall i :: 0 <= i < |later| ==> MinID(s) <= MinID(later[i])
    ensures AddImmutable(front + later, s) == Ok(front + [s] + later)
  {
    PositionAfter(front, later, MinID(s));
    var both := front + later;
    assert both[..|front|] == front && both[|front|..] == later;
    assert forall i :: 0 <= i < |both| ==> both[i] == if i < |front| then front[i] else later[i - |front|];
  }

  lemma AddBetween(front: seq<Segment>, s: Segment, later: seq<Segment>, maxDocs: nat)
    requires SegmentsOK(front + [s] + later, maxDocs)
    ensures AddImmutable(front + later, s) == Ok(front + [s] + later)
  {
    var all, n := front + [s] + later, |front|;
    assert all[n] == s;
    forall i | 0 <= i < n
      ensures front[i].docs != [] && front[i].id != s.id && !Overlaps(s, front[i]) && MinID(front[i]) < MinID(s)
    {
      assert front[i] == all[i];
      Apart(all, i, n, maxDocs);
    }
    forall i | 0 <= i < |later|
      ensures later[i].docs != [] && later[i].id != s.id && !Overlaps(s, later[i]) && MinID(s) <= MinID(later[i])
    {
      assert later[i] == all[n + 1 + i];
      Apart(all, n + 1 + i, n, maxDocs);
    }
    assert Block(all[n].docs, maxDocs);
    AddClear(front, s, later);
  }

  /** Adding ordered segments one at a time puts them, in order, before the later ones. */
  lemma {:induction false} AddAllMerges(front: seq<Segment>, more: seq<Segment>, later: seq<Segment>, maxDocs: nat)
    requires SegmentsOK(front + more + later, maxDocs)
    ensures AddAll(front + later, more) == Ok(front + more + later)
    decreases |more|
  {
    if more == [] {
      assert front + more + later == front + later;
    } else {
      var s, rest := more[0], more[1..];
      assert front + more + later == (front + [s]) + rest + later;
      KeepSublist(front + [s], rest, later, maxDocs);
      AddBetween(front, s, later, maxDocs);
      AddAllMerges(front + [s], rest, later, maxDocs);
    }
  }

  lemma KeepSublist(a: seq<Segment>, b: seq<Segment>, c: seq<Segment>, maxDocs: nat)
    requires SegmentsOK(a + b + c, maxDocs)
    ensures SegmentsOK(a + c, maxDocs)
  {
    var all, part := a + b + c, a + c;
    assert forall i :: 0 <= i < |a| ==> part[i] == all[i];
    assert forall i :: |a| <= i < |part| ==> part[i] == all[i + |b|];
  }

  // ----- Open ----------------------------------------------------------------------------

  lemma CheckpointValid(manifest: Manifest)
    requires CheckpointOK(manifest)
    ensures ManifestValid(manifest)
  {
    forall i | 0 <= i < |manifest.persisted|
      ensures manifest.persisted[i].docs != []
      ensures |manifest.persisted[i].docs| - 1 <= MaxID(manifest.persisted[i]) - MinID(manifest.persisted[i])
    {
      BlockSpan(manifest.persisted[i], manifest.maxDocs);
    }
  }

  lemma FreshWritingFits(m: Manager, maxDocs: nat, next: WriteSegment)
    requires SegmentsOK(m.immutable, maxDocs) && next.maxDocs > 0
    requires forall i :: 0 <= i < |m.immutable| ==>
               MaxID(m.immutable[i]) < next.minDocID && m.immutable[i].id != next.id
    ensures WritingFits(m.immutable, next)
  {
  }

  lemma OpenBuildsCheckpoint(manifest: Manifest)
    requires CheckpointOK(manifest)
    ensures OpenCheckpoint(manifest) == Ok(Checkpoint(manifest))
  {
    hide Bijection, Index, Flatten, AddAll, ManifestValid, SegmentsOK;
    var m := Checkpoint(manifest);
    CheckpointValid(manifest);
    InstallsBack(m, manifest.maxDocs);
  }

  /** A well-formed layout can be rebuilt segment by segment. */
  lemma InstallsBack(m: Manager, maxDocs: nat)
    requires Layout(m, maxDocs)
    ensures AddAll([], m.immutable) == Ok(m.immutable)
    ensures m.writing.maxDocs > 0 && WritingFits(m.immutable, m.writing)
    ensures forall i :: 0 <= i < |m.immutable| ==> m.immutable[i].docs != []
  {
    assert [] + m.immutable + [] == m.immutable;
    AddAllMerges([], m.immutable, [], maxDocs);
    FreshWritingFits(m, maxDocs, m.writing);
  }

  lemma InvAccepted(m: Manager, maxDocs: nat)
    requires ManagerInv(m, maxDocs)
    ensures Accepted(m)
  {
    AcceptedIffBijection(Index(AllDocs(m)), m.primary, m.deletes);
  }

  /** Opening a well-formed manifest never fails on its own account: it is exactly replay. */
  lemma OpenIsReplay(manifest: Manifest, log: seq<Operation>)
    requires CheckpointOK(manifest) && Replay(Checkpoint(manifest), log).Ok?
    ensures Open(manifest, log) == Replay(Checkpoint(manifest), log)
  {
    OpenBuildsCheckpoint(manifest);
    ReplayKeeps(Checkpoint(manifest), manifest.maxDocs, log);
    InvAccepted(Replay(Checkpoint(manifest), log).value, manifest.maxDocs);
  }

  // ----- Crash -----------------------------------------------------------------------------

  /** Records a crash may leave behind, in log order. */
  function Survivors(s: Store): seq<Operation> {
    s.wal.records + s.wal.torn
  }

  /** Reopening after a crash that kept the first `kept` records. What was synced before is all
      that is known to be durable afterwards. */
  function Reopen(s: Store, kept: nat, syncEvery: nat): Result<Store, StorageError>
    requires kept <= |Survivors(s)|
  {
    var log := Survivors(s)[..kept];
    match Open(s.manifest, log)
    case Err(e) => Err(e)
    case Ok(manager) =>
      Ok(Store.Store(s.manifest, manager, Wal(log, [], if s.wal.synced < kept then s.wal.synced else kept, 0, syncEvery, false), false, 0))
  }

  /** Any crash reopens, and shows the checkpoint plus exactly the records that survived. */
  lemma CrashRecovers(s: Store, kept: nat, syncEvery: nat)
    requires StoreInv(s) && s.wal.synced <= kept <= |Survivors(s)|
    ensures Reopen(s, kept, syncEvery).Ok?
    ensures var t := Reopen(s, kept, syncEvery).value;
            && StoreInv(t)
            && t.wal.synced == s.wal.synced
            && Contents(t.manager) == ApplyChanges(Contents(Checkpoint(s.manifest)), Survivors(s)[..kept])
  {
    var log := Survivors(s)[..kept];
    ReplayPrefix(Checkpoint(s.manifest), Survivors(s), kept);
    OpenIsReplay(s.manifest, log);
    ReplayKeeps(Checkpoint(s.manifest), s.manifest.maxDocs, log);
    assert log + [] == log;
  }

  /** With nothing lost, the recovered manager is the one that was in memory. */
  lemma CleanReopenIsIdentity(s: Store, syncEvery: nat)
    requires StoreInv(s)
    ensures Reopen(s, |s.wal.records|, syncEvery).Ok?
    ensures Reopen(s, |s.wal.records|, syncEvery).value.manager == s.manager
  {
    CrashRecovers(s, |s.wal.records|, syncEvery);
    assert Survivors(s)[..|s.wal.records|] == s.wal.records;
    OpenIsReplay(s.manifest, s.wal.records);
  }

  // ----- Flush -----------------------------------------------------------------------------

  lemma NextFreeIDValue(w: WriteSegment, maxDocs: nat)
    requires WritingOK(w, maxDocs)
    ensures NextFreeID(w).Ok? ==> NextFreeID(w).value == w.minDocID + |w.docs|
  {
  }

  lemma SegmentsAppend(segments: seq<Segment>, s: Segment, maxDocs: nat)
    requires SegmentsOK(segments, maxDocs) && Block(s.docs, maxDocs)
    requires forall i :: 0 <= i < |segments| ==> MaxID(segments[i]) < MinID(s) && segments[i].id != s.id
    ensures SegmentsOK(segments + [s], maxDocs)
  {
    var all := segments + [s];
    assert forall i :: 0 <= i < |segments| ==> all[i] == segments[i];
  }

  lemma SealedBlock(w: WriteSegment, maxDocs: nat)
    requires WritingOK(w, maxDocs) && w.docs != []
    ensures Block(w.docs, maxDocs)
  {
  }

  /** Sealing a writing segment extends a well-formed layout at its end. */
  lemma SealKeepsSegments(m: Manager, maxDocs: nat)
    requires Layout(m, maxDocs) && m.writing.docs != []
    ensures SegmentsOK(m.immutable + [Segment(m.writing.id, m.writing.docs)], maxDocs)
    ensures Flatten(m.immutable + [Segment(m.writing.id, m.writing.docs)]) == AllDocs(m)
  {
    var sealed := Segment(m.writing.id, m.writing.docs);
    SealedBlock(m.writing, maxDocs);
    SegmentsAppend(m.immutable, sealed, maxDocs);
    FlattenConcat(m.immutable, [sealed]);
    FlattenOne(sealed);
  }

  /** The next writing segment starts right after the last document, within the ID space. */
  lemma NextFreeIDFollows(s: Store)
    requires StoreInv(s)
    ensures s.manager.writing.maxDocs == s.manifest.maxDocs > 0
    ensures NextFreeID(s.manager.writing).Ok? ==>
              NextFreeID(s.manager.writing).value == s.manager.writing.minDocID + |s.manager.writing.docs|
    ensures NextFreeID(s.manager.writing).Err? ==> NextFreeID(s.manager.writing).error == IDSpaceExhausted
  {
    LiveManager(s);
  }

  lemma RotateSealed(m: Manager, maxDocs: nat, next: WriteSegment)
    requires next.maxDocs > 0 && m.writing.docs != [] && next.id != m.writing.id
    requires SegmentsOK(Rotated(m, next).immutable, maxDocs)
    requires WritingFits(Rotated(m, next).immutable, next)
    ensures RotateWriting(m, Segment(m.writing.id, m.writing.docs), next) == Ok(Rotated(m, next))
  {
    var sealed, n := Segment(m.writing.id, m.writing.docs), |m.immutable|;
    var all := Rotated(m, next).immutable;
    assert all + [] == all && m.immutable + [] == m.immutable;
    forall i | 0 <= i < n
      ensures m.immutable[i].id != sealed.id && !Overlaps(sealed, m.immutable[i])
    {
      assert all[i] == m.immutable[i] && all[n] == sealed;
      Apart(all, i, n, maxDocs);
    }
    AddBetween(m.immutable, sealed, [], maxDocs);
  }

  /** Rotation after a published flush cannot fail, and moves no document. */
  lemma RotateMoves(m: Manager, maxDocs: nat, next: WriteSegment)
    requires Layout(m, maxDocs)
    requires WritingOK(next, maxDocs) && next.docs == [] && next.minDocID == m.writing.minDocID + |m.writing.docs|
    requires next.id != m.writing.id && forall i :: 0 <= i < |m.immutable| ==> m.immutable[i].id != next.id
    ensures Rotate(m, next) == Ok(Rotated(m, next))
    ensures Layout(Rotated(m, next), maxDocs)
    ensures AllDocs(Rotated(m, next)) == AllDocs(m)
  {
    RotatedSegments(m, maxDocs, next);
    FreshWritingFits(Rotated(m, next), maxDocs, next);
    if m.writing.docs != [] {
      RotateSealed(m, maxDocs, next);
    }
    hide SegmentsOK, Flatten, WritingFits, RotateWriting, WritingOK, MaxID;
  }

  /** The rotated segments keep their layout and documents, and lie below the next writing segment. */
  lemma RotatedSegments(m: Manager, maxDocs: nat, next: WriteSegment)
    requires Layout(m, maxDocs) && next.minDocID == m.writing.minDocID + |m.writing.docs|
    requires next.id != m.writing.id && forall i :: 0 <= i < |m.immutable| ==> m.immutable[i].id != next.id
    ensures var r := Rotated(m, next).immutable;
            && SegmentsOK(r, maxDocs)
            && Flatten(r) == AllDocs(m)
            && forall i :: 0 <= i < |r| ==> MaxID(r[i]) < next.minDocID && r[i].id != next.id
  {
    hide Flatten;
    var r := Rotated(m, next).immutable;
    if m.writing.docs != [] {
      SealKeepsSegments(m, maxDocs);
      hide SegmentsOK;
      forall i | 0 <= i < |r| ensures MaxID(r[i]) < next.minDocID && r[i].id != next.id {
        if i < |m.immutable| {
          assert r[i] == m.immutable[i];
        }
      }
    }
  }

  /** What rotation leaves: the writing segment sealed at the end, unless it was empty. */
  function Rotated(m: Manager, next: WriteSegment): Manager {
    Manager(if m.writing.docs == [] then m.immutable else m.immutable + [Segment(m.writing.id, m.writing.docs)],
            next, m.primary, m.deletes)
  }

  /** The manifest a flush publishes is a well-formed checkpoint of the rotated manager. */
  lemma FlushPublishes(s: Store, nextID: nat, next: WriteSegment)
    requires StoreInv(s) && nextID >= s.manifest.nextSegmentID
    requires WritingOK(next, s.manifest.maxDocs) && next.docs == [] && next.id == nextID
    requires next.minDocID == s.manager.writing.minDocID + |s.manager.writing.docs|
    ensures Rotate(s.manager, next) == Ok(Rotated(s.manager, next))
    ensures AllDocs(Rotated(s.manager, next)) == AllDocs(s.manager)
    ensures var manifest := FlushedManifest(s, nextID, next.minDocID);
            CheckpointOK(manifest) && ManifestValid(manifest) && Checkpoint(manifest) == Rotated(s.manager, next)
  {
    hide Flatten, Index, Contents, Replay;
    LiveManager(s);
    RotateMoves(s.manager, s.manifest.maxDocs, next);
    var manifest := FlushedManifest(s, nextID, next.minDocID);
    assert Checkpoint(manifest) == Rotated(s.manager, next);
    CheckpointValid(manifest);
  }

  lemma SyncKeeps(s: Store, fails: bool)
    requires StoreInv(s)
    ensures var (wal, outcome) := SyncWal(s.wal, fails);
            && StoreInv(s.(wal := wal))
            && wal.records == s.wal.records
            && s.wal.synced <= wal.synced
            && (outcome.Done? ==> wal.torn == [] && wal.synced == |wal.records|)
  {
  }

  /** A store at its checkpoint with an empty log meets the invariant. */
  lemma CleanStore(s: Store)
    ensures CheckpointOK(s.manifest) && s.wal == EmptyWal(s.wal.syncEvery) && s.manager == Checkpoint(s.manifest)
            ==> StoreInv(s)
  {
  }

  lemma FlushToKeeps(s: Store, next: WriteSegment, aborts: bool)
    requires StoreInv(s) && s.wal.torn == []
    requires NextWriting.requires(s) && NextWriting(s) == Ok(next)
    ensures next.maxDocs > 0
    ensures var (t, outcome) := FlushTo(s, next, aborts);
            && outcome in {Done, Failed(PublishFailed)}
            && (outcome.Failed? ==> t == s)
            && (outcome.Done? ==> StoreInv(t) && t.wal == EmptyWal(s.wal.syncEvery) && t.poisoned == s.poisoned
                                  && t.manager == Rotated(s.manager, next) && t.manager == Checkpoint(t.manifest)
                                  && t.manifest.generation == s.manifest.generation + 1)
            && AllDocs(t.manager) == AllDocs(s.manager)
  {
    LiveManager(s);
    NextFreeIDValue(s.manager.writing, s.manifest.maxDocs);
    FlushPublishes(s, next.id, next);
    var t := FlushTo(s, next, aborts).0;
    CleanStore(t);
  }

  /** Flush keeps the invariant and the map, in memory and on disk; once CURRENT has moved it
      cannot fail, so it never poisons the handle. */
  lemma FlushKeeps(s: Store, fate: PublishFate)
    requires StoreInv(s)
    ensures s.manager.writing.maxDocs > 0
    ensures var (t, outcome) := Flush(s, fate);
            && StoreInv(t)
            && t.poisoned == s.poisoned
            && AllDocs(t.manager) == AllDocs(s.manager)
            && t.manager.primary == s.manager.primary && t.manager.deletes == s.manager.deletes
            && (outcome.Failed? ==> outcome.error in {Poisoned, SyncFailed, IDSpaceExhausted, PublishFailed})
            && (outcome.Done? ==> t.wal.records == [] && t.wal.torn == [] && t.manager == Checkpoint(t.manifest))
  {
    LiveManager(s);
    SyncKeeps(s, fate.syncFails);
    var (wal, synced) := SyncWal(s.wal, fate.syncFails);
    var t := s.(wal := wal);
    SegmentOrExhausted(t);
    hide StoreInv, NextWriting, FlushTo, AllDocs;
    if s.poisoned || synced.Failed? {
    } else if t.manager.writing.docs == [] && wal.records == [] {
      NothingToFlush(t);
    } else if NextWriting(t).Ok? {
      FlushToKeeps(t, NextWriting(t).value, fate.aborts);
    }
  }

  lemma SegmentOrExhausted(s: Store)
    requires StoreInv(s) && s.manager.writing.maxDocs > 0
    ensures NextWriting(s).Ok? || NextWriting(s) == Err(IDSpaceExhausted)
  {
    LiveManager(s);
  }

  /** An empty log has no torn record either once it is synced, and its store shows its checkpoint. */
  lemma NothingToFlush(s: Store)
    requires StoreInv(s) && s.wal.records == [] && !s.wal.poisoned
    ensures s.manager == Checkpoint(s.manifest) && s.wal.torn == []
  {
    hide CheckpointOK;
  }
}
