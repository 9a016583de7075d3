/** Split-phase compaction: Begin captures sealed segments and deletions, Prepare writes
    replacements while the store keeps changing, Commit swaps them in. */
module Compactions {
  import opened Common
  import opened Keys
  import opened Segments
  import opened Managers
  import opened Runs
  import opened Stores
  import opened Recovery
  import opened Rewrites

  datatype Compaction = Compaction(manifest: Manifest, inputs: seq<Segment>, deletes: set<nat>,
                                   outputs: seq<Segment>, purged: seq<nat>,
                                   prepared: bool, changed: bool, committed: bool, closed: bool)

  function Begin(s: Store): Result<Compaction, StorageError> {
    if s.poisoned then Err(Poisoned)
    else if s.wal.records != [] || s.manager.writing.docs != [] then Err(FlushFirst)
    else if s.manifest.generation >= MAX_UINT64 then Err(IDSpaceExhausted)
    else Ok(Compaction(s.manifest, s.manager.immutable, s.manager.deletes, [], [], false, false, false, false))
  }

  // ----- Prepare -------------------------------------------------------------------------------

  function PurgedIDs(docs: seq<Document>, deletes: set<nat>): seq<nat> {
    if docs == [] then []
    else
      var front, last := PurgedIDs(docs[..|docs| - 1], deletes), docs[|docs| - 1];
      if last.docID in deletes then front + [last.docID] else front
  }

  /** Replacement blocks for the captured inputs. */
  function Replacements(p: Compaction): seq<seq<Document>> {
    DocumentRuns(Without(Flatten(p.inputs), p.deletes), p.manifest.maxDocs)
  }

  predicate SameBounds(s: Segment, block: seq<Document>) {
    && s.docs != [] && block != []
    && MinID(s) == block[0].docID && MaxID(s) == block[|block| - 1].docID && |s.docs| == |block|
  }

  predicate LayoutChanged(inputs: seq<Segment>, blocks: seq<seq<Document>>) {
    |blocks| != |inputs| || exists i :: 0 <= i < |blocks| && !SameBounds(inputs[i], blocks[i])
  }

  /** A read or a write fails partway, nothing fails, or all is done and the cancelled context's error
      is returned all the same. */
  datatype PrepareFate = ReadFails(seen: nat) | WriteFails(written: nat) | Completes | CancelledLate

  function Ending(fate: PrepareFate): Outcome {
    if fate.CancelledLate? then Failed(Cancelled) else Done
  }

  function Prefix<T>(s: seq<T>, n: nat): seq<T> {
    if n <= |s| then s[..n] else s
  }

  function Prepare(s: Store, p: Compaction, fate: PrepareFate): (Store, Compaction, Outcome) {
    if p.closed || p.prepared then (s, p, Failed(InvalidCall))
    else
      var docs := Flatten(p.inputs);
      if fate.ReadFails? then
        (s, p.(purged := p.purged + PurgedIDs(Prefix(docs, fate.seen), p.deletes)), Failed(PublishFailed))
      else
        var blocks := Replacements(p);
        var purged := p.purged + PurgedIDs(docs, p.deletes);
        var q := p.(purged := purged, changed := purged != [] || LayoutChanged(p.inputs, blocks));
        if !q.changed then (s, q.(prepared := true), Ending(fate))
        else WriteReplacements(s, q, blocks, fate)
  }

  /** Reserve a segment ID per block and write the replacement segments. */
  function WriteReplacements(s: Store, q: Compaction, blocks: seq<seq<Document>>, fate: PrepareFate): (Store, Compaction, Outcome) {
    if s.poisoned then (s, q, Failed(Poisoned))
    else
      var firstID := Max(s.manifest.nextSegmentID, s.reservedNextSegmentID);
      if |blocks| + firstID > MAX_UINT64 then (s, q, Failed(IDSpaceExhausted))
      else
        var segments := SegmentsFrom(firstID, blocks);
        var t := s.(reservedNextSegmentID := firstID + |blocks|);
        if fate.WriteFails? then (t, q.(outputs := q.outputs + Prefix(segments, fate.written)), Failed(PublishFailed))
        else (t, q.(outputs := q.outputs + segments, prepared := true), Ending(fate))
  }

  // ----- Commit --------------------------------------------------------------------------------

  function IDsOf(segments: seq<Segment>): set<nat> {
    set s | s in segments :: s.id
  }

  /** Every captured input is still installed, unchanged. */
  predicate InputsIntact(inputs: seq<Segment>, segments: seq<Segment>) {
    && (forall s :: s in segments && s.id in IDsOf(inputs) ==> s in inputs)
    && (forall s :: s in inputs ==> s.id in IDsOf(segments))
  }

  function Remaining(segments: seq<Segment>, ids: set<nat>): seq<Segment> {
    if segments == [] then []
    else if segments[0].id in ids then Remaining(segments[1..], ids)
    else [segments[0]] + Remaining(segments[1..], ids)
  }

  function ToSet(ids: seq<nat>): set<nat> {
    set id | id in ids
  }

  /** The manager with the captured inputs replaced and the purged deletions dropped. */
  function Compacted(m: Manager, p: Compaction): Result<Manager, StorageError>
    requires m.writing.maxDocs > 0
  {
    match AddAll([], Remaining(m.immutable, IDsOf(p.inputs)) + p.outputs)
    case Err(e) => Err(e)
    case Ok(segments) =>
      if WritingFits(segments, m.writing) then
        Ok(Manager(segments, m.writing, m.primary, m.deletes - ToSet(p.purged)))
      else Err(SegmentConflict)
  }

  /** Deletions checkpointed before Begin leave the durable snapshot with their documents; the
      IDMap checkpoint, the writing segment and the WAL stay as they are. */
  function CompactedManifest(s: Store, p: Compaction, segments: seq<Segment>): Manifest {
    s.manifest.(persisted := segments,
                nextSegmentID := Max(s.manifest.nextSegmentID, s.reservedNextSegmentID),
                deleteSnapshot := s.manifest.deleteSnapshot - ToSet(p.purged))
  }

  function Commit(s: Store, p: Compaction, fate: PublishFate): (Store, Compaction, Outcome)
    requires s.manager.writing.maxDocs > 0
  {
    if !p.prepared || !p.changed || p.closed || p.committed then (s, p, Failed(InvalidCall))
    else if s.poisoned then (s, p, Failed(Poisoned))
    else if s.manifest.schema != p.manifest.schema then (s, p, Failed(SchemaChanged))
    else if !InputsIntact(p.inputs, s.manager.immutable) then (s, p, Failed(InputChanged))
    else
      match Compacted(s.manager, p)
      case Err(e) => (s, p, Failed(e))
      case Ok(manager) =>
        Install(s, p, manager, CompactedManifest(s, p, manager.immutable), fate)
  }

  /** Check the next manifest, sync the log, publish, swap. */
  function Install(s: Store, p: Compaction, manager: Manager, next: Manifest, fate: PublishFate): (Store, Compaction, Outcome) {
    if !ManifestValid(next) then (s, p, Failed(ManifestCorrupt))
    else
      var (wal, synced) := SyncWal(s.wal, fate.syncFails);
      var t := s.(wal := wal);
      if synced.Failed? then (t, p, synced)
      else
        match Publish(s.manifest, next, fate.aborts)
        case Err(e) => (t, p, Failed(e))
        case Ok(manifest) => (t.(manifest := manifest, manager := manager), p.(committed := true), Done)
  }

  // ----- Replay over a compacted checkpoint ---------------------------------------------------

  function Swap(m: Manager, segments: seq<Segment>, purged: set<nat>): Manager {
    Manager(segments, m.writing, m.primary, m.deletes - purged)
  }

  /** No record can name a purged document: purged IDs stay deleted, live keys never reach a
      deleted ID, and a record only hides what its key reaches. So replay commutes with purging. */
  lemma ApplyCommutesWithSwap(m: Manager, op: Operation, segments: seq<Segment>, purged: set<nat>)
    requires ApplyRecovered(m, op).Ok?
    requires purged <= m.deletes && forall key :: key in m.primary ==> m.primary[key] !in m.deletes
    ensures ApplyRecovered(Swap(m, segments, purged), op) == Ok(Swap(ApplyRecovered(m, op).value, segments, purged))
  {
    var r := ApplyRecovered(m, op).value;
    var hidden := r.deletes - m.deletes;
    var t := Swap(m, segments, purged);
    if op.key in m.primary {
      assert m.primary[op.key] !in purged;
      assert (m.deletes + {m.primary[op.key]}) - purged == (m.deletes - purged) + {m.primary[op.key]};
    }
    assert (m.deletes + {}) - purged == (m.deletes - purged) + {};
  }

  lemma {:induction false} ReplayCommutesWithSwap(m: Manager, maxDocs: nat, log: seq<Operation>,
                                                  segments: seq<Segment>, purged: set<nat>)
    requires ManagerInv(m, maxDocs) && Replay(m, log).Ok? && purged <= m.deletes
    ensures Replay(Swap(m, segments, purged), log) == Ok(Swap(Replay(m, log).value, segments, purged))
  {
    hide Layout, Index, Flatten, ApplyRecovered;
    if log != [] {
      var front := log[..|log| - 1];
      ReplayCommutesWithSwap(m, maxDocs, front, segments, purged);
      var before := Replay(m, front).value;
      ReplayKeeps(m, maxDocs, front);
      ReplayFrame(m, front);
      ApplyCommutesWithSwap(before, log[|log| - 1], segments, purged);
    }
  }

  // ----- Purging -------------------------------------------------------------------------------

  lemma {:induction false} PurgedIDsAre(docs: seq<Document>, deletes: set<nat>)
    ensures ToSet(PurgedIDs(docs, deletes)) == Index(docs).Keys * deletes
    ensures PurgedIDs(docs, deletes) == [] <==> Index(docs).Keys * deletes == {}
  {
    if docs != [] {
      var front, last := docs[..|docs| - 1], docs[|docs| - 1];
      PurgedIDsAre(front, deletes);
      assert Index(docs).Keys == Index(front).Keys + {last.docID};
      if last.docID in deletes {
        assert ToSet(PurgedIDs(docs, deletes)) == ToSet(PurgedIDs(front, deletes)) + {last.docID};
      }
    }
  }

  /** Dropping deleted versions together with their marks keeps the bijection and the map. */
  lemma PurgeKeepsBijection(index: map<nat, Document>, primary: map<Bytes, nat>, deletes: set<nat>, purged: set<nat>)
    requires Bijection(index, primary, deletes) && purged <= deletes
    ensures Bijection(index - purged, primary, deletes - purged)
    ensures Visible(index - purged, primary) == Visible(index, primary)
  {
  }

  lemma {:induction false} WithoutMembers(docs: seq<Document>, purged: set<nat>)
    ensures forall d :: d in Without(docs, purged) <==> d in docs && d.docID !in purged
  {
    if docs != [] {
      WithoutMembers(docs[..|docs| - 1], purged);
      assert docs == docs[..|docs| - 1] + [docs[|docs| - 1]];
    }
  }

  lemma {:induction false} WithoutAscends(docs: seq<Document>, purged: set<nat>)
    requires Ascending(docs)
    ensures Ascending(Without(docs, purged))
  {
    if docs != [] {
      var front, last := docs[..|docs| - 1], docs[|docs| - 1];
      WithoutAscends(front, purged);
      WithoutMembers(front, purged);
      var kept := Without(front, purged);
      forall i | 0 <= i < |kept| ensures kept[i].docID < last.docID {
        assert kept[i] in front;
      }
    }
  }

  lemma {:induction false} WithoutNothing(docs: seq<Document>, purged: set<nat>)
    requires forall d :: d in docs ==> d.docID !in purged
    ensures Without(docs, purged) == docs
  {
    if docs != [] {
      var front := docs[..|docs| - 1];
      assert docs == front + [docs[|docs| - 1]];
      WithoutNothing(front, purged);
    }
  }
}
