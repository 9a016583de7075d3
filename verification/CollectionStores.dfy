/** The store handle as the program keeps it: fields that every operation updates step by step.
    Each method is tied to the store function of the same name, about which the recovery, history
    and compaction results are proved. */
module CollectionStores {
  import opened Common
  import opened Keys
  import opened Segments
  import opened Managers
  import opened Runs
  import opened Stores
  import opened Recovery
  import opened Rewrites

  datatype WriteInput = WriteInput(key: Bytes, payload: Bytes)

  /** A batch is the fold of its single writes. */
  function WriteAll(s: Store, kind: OperationKind, inputs: seq<WriteInput>, fates: seq<AppendFate>): (Store, seq<WriteResult>)
    requires |inputs| == |fates|
  {
    if inputs == [] then (s, [])
    else
      var last := |inputs| - 1;
      var (t, results) := WriteAll(s, kind, inputs[..last], fates[..last]);
      var (u, result) := Write(t, kind, inputs[last].key, inputs[last].payload, fates[last]);
      (u, results + [result])
  }

  /** What an acknowledged write means to a reader; a rejected one means nothing. */
  lemma WriteShows(s: Store, kind: OperationKind, key: Bytes, payload: Bytes, fate: AppendFate)
    requires StoreInv(s)
    ensures var (t, result) := Write(s, kind, key, payload, fate);
            Contents(t.manager) ==
              (if result.Rejected? then Contents(s.manager)
               else if kind.Delete? then Contents(s.manager) - {key}
               else Contents(s.manager)[key := payload])
    ensures !Write(s, kind, key, payload, fate).1.Rejected? ==>
              (kind.Insert? ==> key !in Contents(s.manager)) && (kind.Update? || kind.Delete? ==> key in Contents(s.manager))
  {
    hide Contents, CheckpointOK, Replay, ManagerInv, ApplyRecovered, ApplyOnline, Append;
    LiveManager(s);
    var admitted := Admit(s.manager, kind, key, payload);
    if admitted.Ok? {
      OnlineIsRecovered(s.manager, kind, key, payload);
      ApplyRecoveredKeeps(s.manager, s.manifest.maxDocs, admitted.value);
      ShownKeys(s.manager, s.manifest.maxDocs);
    }
  }

  lemma ShownKeys(m: Manager, maxDocs: nat)
    requires ManagerInv(m, maxDocs)
    ensures Contents(m).Keys == m.primary.Keys
  {
  }

  /** What a reopen leaves in memory and on disk. */
  lemma AdoptedStore(crashed: Store, kept: nat, syncEvery: nat, manager: Manager)
    requires StoreInv(crashed) && crashed.wal.synced <= kept <= |Survivors(crashed)|
    requires Open(crashed.manifest, Survivors(crashed)[..kept]) == Ok(manager)
    ensures Reopen(crashed, kept, syncEvery).Ok?
    ensures var s := Reopen(crashed, kept, syncEvery).value;
      && StoreInv(s)
      && s == Store.Store(crashed.manifest, manager,
                          Wal(Survivors(crashed)[..kept], [], crashed.wal.synced, 0, syncEvery, false), false, 0)
  {
    CrashRecovers(crashed, kept, syncEvery);
    hide StoreInv, Open, Survivors, Contents;
  }

  class CollectionStore {
    var manifest: Manifest
    var manager: Manager
    var wal: Wal
    var poisoned: bool
    var reservedNextSegmentID: nat

    ghost function View(): Store
      reads this
    {
      Store.Store(manifest, manager, wal, poisoned, reservedNextSegmentID)
    }

    ghost predicate Valid()
      reads this
    {
      StoreInv(View())
    }

    /** The key to payload map that readers see. */
    ghost function Shown(): map<Bytes, Bytes>
      reads this
    {
      Contents(manager)
    }

    /** Adopt what OpenCollection recovered from a store's durable state after a crash. */
    constructor Adopt(ghost crashed: Store, ghost kept: nat, manifest: Manifest, manager: Manager, log: seq<Operation>,
                      synced: nat, syncEvery: nat)
      requires StoreInv(crashed) && crashed.wal.synced == synced <= kept <= |Survivors(crashed)|
      requires manifest == crashed.manifest && log == Survivors(crashed)[..kept] && Open(manifest, log) == Ok(manager)
      ensures Valid() && View() == Reopen(crashed, kept, syncEvery).value
    {
      AdoptedStore(crashed, kept, syncEvery, manager);
      hide StoreInv, Reopen, Open, Survivors;
      this.manifest, this.manager := manifest, manager;
      wal := Wal(log, [], synced, 0, syncEvery, false);
      poisoned := false;
      reservedNextSegmentID := 0;
    }

    constructor Create(schema: Bytes, maxDocs: nat, syncEvery: nat)
      requires 0 < maxDocs <= MAX_UINT64 + 1
      ensures Valid() && Shown() == map[]
      ensures manifest.schema == schema && manifest.maxDocs == maxDocs && wal == EmptyWal(syncEvery) && !poisoned
    {
      manifest := Manifest(1, schema, maxDocs, [], 0, 0, map[], {}, 1);
      manager := Manager([], WriteSegment(0, 0, maxDocs, []), map[], {});
      wal := EmptyWal(syncEvery);
      poisoned := false;
      reservedNextSegmentID := 0;
      new;
      assert AllDocs(manager) == [];
      CleanStore(View());
    }

    /** WAL.Append followed by the automatic synchronization. */
    method AppendRecord(op: Operation, fate: AppendFate) returns (outcome: AppendOutcome)
      modifies this`wal
      ensures (wal, outcome) == Append(old(wal), op, fate)
    {
      if WRITE_OPERATION_OVERHEAD + |op.key| + |op.payload| > MAX_WAL_RECORD_SIZE {
        return NotLogged(WalRecordTooLarge);
      }
      if wal.poisoned || fate.Refuse? || |wal.records| >= MAX_UINT64 {
        return NotLogged(WalRefused);
      }
      if fate.Tear? {
        wal := wal.(torn := [op], poisoned := true);
        return NotLogged(WalRefused);
      }
      wal := wal.(records := wal.records + [op], dirty := wal.dirty + 1);
      if wal.syncEvery > 0 && wal.dirty >= wal.syncEvery {
        if fate.syncFails {
          wal := wal.(poisoned := true);
          return LoggedUnsynced;
        }
        wal := wal.(synced := |wal.records|, dirty := 0);
      }
      outcome := Logged;
    }

    /** insertOneLocked. */
    method InsertOne(key: Bytes, payload: Bytes, fate: AppendFate) returns (result: WriteResult)
      requires Valid()
      modifies this`manager, this`wal, this`poisoned
      ensures Valid()
      ensures (View(), result) == Write(old(View()), Insert, key, payload, fate)
      ensures Shown() == if result.Rejected? then old(Shown()) else old(Shown())[key := payload]
      ensures key in old(Shown()) ==> result.Rejected?
    {
      hide StoreInv, Contents, Append, ValidUtf8, RuneWidth;
      WriteKeepsInv(View(), Insert, key, payload, fate);
      WriteShows(View(), Insert, key, payload, fate);
      if poisoned {
        return Rejected(Poisoned);
      }
      if !ValidPrimaryKey(key) {
        return Rejected(InvalidKey);
      }
      if |payload| > MAX_DOCUMENT_PAYLOAD_SIZE {
        return Rejected(PayloadTooLarge);
      }
      if key in manager.primary {
        return Rejected(KeyExists);
      }
      var next := manager.writing.NextDocumentID();
      if next.Err? {
        return Rejected(next.error);
      }
      var docID := next.value;
      var outcome := AppendRecord(Operation(Insert, docID, key, payload), fate);
      if outcome.NotLogged? {
        return Rejected(outcome.error);
      }
      var applied := manager.writing.ApplyExpected(docID, key, payload);
      if applied.Err? {
        poisoned := true;
        return Rejected(applied.error);
      }
      manager := manager.(writing := applied.value);
      manager := manager.(primary := manager.primary[key := docID]);
      if outcome.LoggedUnsynced? {
        poisoned := true;
        return WrittenUnsynced(docID);
      }
      result := Written(docID);
    }

    /** upsertOneLocked and updateOneLocked: the replaced version is hidden before the IDMap moves. */
    method ReplaceOne(kind: OperationKind, key: Bytes, payload: Bytes, fate: AppendFate) returns (result: WriteResult)
      requires Valid() && (kind.Upsert? || kind.Update?)
      modifies this`manager, this`wal, this`poisoned
      ensures Valid()
      ensures (View(), result) == Write(old(View()), kind, key, payload, fate)
      ensures Shown() == if result.Rejected? then old(Shown()) else old(Shown())[key := payload]
      ensures kind.Update? && key !in old(Shown()) ==> result.Rejected?
    {
      hide StoreInv, Contents, Append, ValidUtf8, RuneWidth;
      WriteKeepsInv(View(), kind, key, payload, fate);
      WriteShows(View(), kind, key, payload, fate);
      if poisoned {
        return Rejected(Poisoned);
      }
      if !ValidPrimaryKey(key) {
        return Rejected(InvalidKey);
      }
      if |payload| > MAX_DOCUMENT_PAYLOAD_SIZE {
        return Rejected(PayloadTooLarge);
      }
      var existed := key in manager.primary;
      if kind.Update? && !existed {
        return Rejected(KeyNotFound);
      }
      var next := manager.writing.NextDocumentID();
      if next.Err? {
        return Rejected(next.error);
      }
      var docID := next.value;
      var outcome := AppendRecord(Operation(kind, docID, key, payload), fate);
      if outcome.NotLogged? {
        return Rejected(outcome.error);
      }
      var applied := manager.writing.ApplyExpected(docID, key, payload);
      if applied.Err? {
        poisoned := true;
        return Rejected(applied.error);
      }
      manager := manager.(writing := applied.value);
      if existed {
        manager := manager.(deletes := manager.deletes + {manager.primary[key]});
      }
      manager := manager.(primary := manager.primary[key := docID]);
      if outcome.LoggedUnsynced? {
        poisoned := true;
        return WrittenUnsynced(docID);
      }
      result := Written(docID);
    }

    /** deleteOneLocked. */
    method DeleteOne(key: Bytes, fate: AppendFate) returns (result: WriteResult)
      requires Valid()
      modifies this`manager, this`wal, this`poisoned
      ensures Valid()
      ensures (View(), result) == Write(old(View()), Delete, key, [], fate)
      ensures Shown() == if result.Rejected? then old(Shown()) else old(Shown()) - {key}
      ensures key !in old(Shown()) ==> result.Rejected?
    {
      hide StoreInv, Contents, Append, ValidUtf8, RuneWidth;
      WriteKeepsInv(View(), Delete, key, [], fate);
      WriteShows(View(), Delete, key, [], fate);
      if poisoned {
        return Rejected(Poisoned);
      }
      if !ValidPrimaryKey(key) {
        return Rejected(InvalidKey);
      }
      if key !in manager.primary {
        return Rejected(KeyNotFound);
      }
      var docID := manager.primary[key];
      var outcome := AppendRecord(Operation(Delete, docID, key, []), fate);
      if outcome.NotLogged? {
        return Rejected(outcome.error);
      }
      manager := manager.(deletes := manager.deletes + {docID});
      manager := manager.(primary := manager.primary - {key});
      if outcome.LoggedUnsynced? {
        poisoned := true;
        return WrittenUnsynced(docID);
      }
      result := Written(docID);
    }

    /** One write of a batch; a delete ignores the payload. */
    method WriteOne(kind: OperationKind, key: Bytes, payload: Bytes, fate: AppendFate) returns (result: WriteResult)
      requires Valid()
      modifies this`manager, this`wal, this`poisoned
      ensures Valid()
      ensures (View(), result) == Write(old(View()), kind, key, payload, fate)
    {
      hide StoreInv, Contents, Write;
      match kind
      case Insert => result := InsertOne(key, payload, fate);
      case Delete =>
        DeleteIgnoresPayload(View(), key, payload, fate);
        result := DeleteOne(key, fate);
      case _ => result := ReplaceOne(kind, key, payload, fate);
    }

    /** Insert, Upsert, Update and Delete over a batch: one result per input, in order; once the
        context is cancelled, from `cancelledAt` on, the rest are refused without being tried. */
    method WriteBatch(kind: OperationKind, inputs: seq<WriteInput>, fates: seq<AppendFate>, cancelledAt: nat)
      returns (results: seq<WriteResult>)
      requires Valid() && |fates| == |inputs|
      modifies this`manager, this`wal, this`poisoned
      ensures Valid()
      ensures var n := if cancelledAt < |inputs| then cancelledAt else |inputs|;
              var (t, done) := WriteAll(old(View()), kind, inputs[..n], fates[..n]);
              View() == t && results == done + seq(|inputs| - n, _ => Rejected(WalRefused))
    {
      hide StoreInv, Contents, Write;
      results := [];
      var index := 0;
      while index < |inputs| && index < cancelledAt
        invariant Valid() && index <= |inputs| && (index <= cancelledAt)
        invariant (View(), results) == WriteAll(old(View()), kind, inputs[..index], fates[..index])
      {
        assert inputs[..index + 1][..index] == inputs[..index] && fates[..index + 1][..index] == fates[..index];
        var result := WriteOne(kind, inputs[index].key, inputs[index].payload, fates[index]);
        results := results + [result];
        index := index + 1;
      }
      ghost var n := index;
      ghost var done := results;
      while index < |inputs|
        invariant n <= index <= |inputs|
        invariant results == done + seq(index - n, _ => Rejected(WalRefused))
      {
        results := results + [Rejected(WalRefused)];
        index := index + 1;
      }
    }

    /** WAL.Sync. */
    method SyncLog(fails: bool) returns (outcome: Outcome)
      modifies this`wal
      ensures (wal, outcome) == SyncWal(old(wal), fails)
    {
      if wal.poisoned {
        return Failed(SyncFailed);
      }
      if fails {
        wal := wal.(poisoned := true);
        return Failed(SyncFailed);
      }
      wal := wal.(synced := |wal.records|, dirty := 0);
      outcome := Done;
    }

    /** VersionManager.Publish: `aborts` is any failure before CURRENT is replaced. */
    method PublishManifest(next: Manifest, aborts: bool) returns (outcome: Outcome)
      modifies this`manifest
      ensures match Stores.Publish(old(manifest), next, aborts)
              case Err(e) => outcome == Failed(e) && manifest == old(manifest)
              case Ok(published) => outcome == Done && manifest == published
    {
      if !ManifestValid(next) {
        return Failed(ManifestCorrupt);
      }
      if aborts || manifest.generation >= MAX_UINT64 {
        return Failed(PublishFailed);
      }
      manifest := next.(generation := manifest.generation + 1);
      outcome := Done;
    }

    /** Flush: sync, seal, checkpoint, publish, then rotate segment, WAL and IDMap. */
    method Flush(fate: PublishFate) returns (outcome: Outcome)
      requires Valid()
      modifies this
      ensures Valid()
      ensures old(manager).writing.maxDocs > 0 && (View(), outcome) == Stores.Flush(old(View()), fate)
      ensures Shown() == old(Shown()) && poisoned == old(poisoned)
      ensures outcome.Done? ==> wal.records == [] && manager == Checkpoint(manifest)
    {
      hide StoreInv, Index, Flatten, FlushTo, Checkpoint;
      FlushKeeps(View(), fate);
      FlushShows(View(), fate);
      LiveManager(View());
      if poisoned {
        return Failed(Poisoned);
      }
      outcome := SyncLog(fate.syncFails);
      if outcome.Failed? {
        return;
      }
      if manager.writing.docs == [] && wal.records == [] {
        return Done;
      }
      var nextID := Max(manifest.nextSegmentID, reservedNextSegmentID);
      if nextID >= MAX_UINT64 {
        return Failed(IDSpaceExhausted);
      }
      var nextDocID := NextFreeID(manager.writing);
      if nextDocID.Err? {
        return Failed(nextDocID.error);
      }
      var created := NewWriteSegment(nextID, nextDocID.value, manifest.maxDocs);
      if created.Err? {
        return Failed(created.error);
      }
      outcome := FlushInto(created.value, fate.aborts);
    }

    /** The commit point of a flush and what follows it. */
    method FlushInto(writing: WriteSegment, aborts: bool) returns (outcome: Outcome)
      requires writing.maxDocs > 0
      modifies this
      ensures (View(), outcome) == FlushTo(old(View()), writing, aborts)
    {
      hide ManifestValid, RotateWriting, WritingFits;
      var next := manifest;
      if manager.writing.docs != [] {
        next := next.(persisted := next.persisted + [Segment(manager.writing.id, manager.writing.docs)]);
      }
      next := next.(writingID := writing.id, writingStart := writing.minDocID);
      next := next.(idMap := manager.primary, deleteSnapshot := manager.deletes, nextSegmentID := writing.id + 1);
      outcome := PublishManifest(next, aborts);
      if outcome.Failed? {
        return;
      }
      var rotated := Rotate(manager, writing);
      if rotated.Err? {
        poisoned := true;
        return Failed(rotated.error);
      }
      manager := rotated.value;
      wal := EmptyWal(wal.syncEvery);
    }

    /** PublishSchema. */
    method PublishSchema(schema: Bytes, aborts: bool) returns (outcome: Outcome)
      requires Valid()
      modifies this`manifest
      ensures Valid() && Shown() == old(Shown())
      ensures (View(), outcome) == Stores.PublishSchema(old(View()), schema, aborts)
    {
      hide ManagerInv, Replay, ManifestValid;
      if poisoned {
        return Failed(Poisoned);
      }
      if manifest.schema == schema {
        return Done;
      }
      ghost var before := Checkpoint(manifest);
      outcome := PublishManifest(manifest.(schema := schema), aborts);
      assert Checkpoint(manifest) == before;
    }

    /** Build the replacement segments and IDMap run by run, check them as an open would, publish,
        then swap manager and WAL. */
    method InstallRewrite(schema: Bytes, docs: seq<Document>, runs: seq<seq<Document>>, next: WriteSegment, aborts: bool)
      returns (outcome: Outcome)
      requires manifest.maxDocs > 0 && next.maxDocs > 0
      requires runs == DocumentRuns(docs, manifest.maxDocs) && Storable(docs)
      modifies this
      ensures (View(), outcome) == RewriteTo(old(View()), schema, docs, next, aborts)
    {
      hide DocumentRuns, KeysOf, Accepted, AddAll, WritingFits, ManifestValid;
      var firstID := Max(manifest.nextSegmentID, reservedNextSegmentID);
      RunsPartition(docs, manifest.maxDocs);
      var segments, primary := BuildRuns(firstID, runs);
      var installed := AddAll([], segments);
      if installed.Err? {
        return Failed(installed.error);
      }
      var candidate := Manager(installed.value, next, primary, {});
      if !WritingFits(candidate.immutable, next) {
        return Failed(SegmentConflict);
      }
      var accepted := ValidateState(AllDocs(candidate), candidate.primary, candidate.deletes);
      AcceptedIffBijection(Index(AllDocs(candidate)), candidate.primary, candidate.deletes);
      AcceptedIs(candidate);
      if !accepted {
        return Failed(CollectionCorrupt);
      }
      outcome := PublishManifest(RewrittenManifest(manifest, candidate, schema), aborts);
      if outcome.Failed? {
        return;
      }
      manager := candidate;
      wal := EmptyWal(wal.syncEvery);
    }

    /** RewriteDocuments: validate against the live snapshot, sync, then install the rewrite. */
    method RewriteDocuments(schema: Bytes, docs: seq<Document>, fate: PublishFate) returns (outcome: Outcome)
      requires Valid()
      modifies this
      ensures Valid()
      ensures old(manager).writing.maxDocs > 0 && (View(), outcome) == Rewrite(old(View()), schema, docs, fate)
      ensures Shown() == if outcome.Done? then PayloadsOf(docs) else old(Shown())
      ensures Shown().Keys == old(Shown()).Keys
    {
      hide StoreInv, DocumentRuns, RewriteTo, RewriteAccepted, Contents, ManagerInv, PayloadsOf, Storable;
      ghost var before := View();
      RewriteKeeps(before, schema, docs, fate);
      RewriteKeepsKeys(before, schema, docs, fate);
      LiveManager(before);
      if poisoned {
        return Failed(Poisoned);
      }
      if !RewriteAccepted(manager, docs) {
        return Failed(RewriteMismatch);
      }
      RewriteStorable(before, docs);
      outcome := SyncLog(fate.syncFails);
      if outcome.Failed? {
        return;
      }
      var nextDocID := NextFreeID(manager.writing);
      if nextDocID.Err? {
        return Failed(nextDocID.error);
      }
      if docs != [] && docs[|docs| - 1].docID >= nextDocID.value {
        return Failed(CollectionCorrupt);
      }
      var runs := RewriteDocumentRuns(docs, manifest.maxDocs);
      var writingID := Max(manifest.nextSegmentID, reservedNextSegmentID) + |runs|;
      if writingID >= MAX_UINT64 {
        return Failed(IDSpaceExhausted);
      }
      var created := NewWriteSegment(writingID, nextDocID.value, manifest.maxDocs);
      if created.Err? {
        return Failed(created.error);
      }
      outcome := InstallRewrite(schema, docs, runs, created.value, fate.aborts);
    }

    /** DocumentByPrimaryKey: resolve the IDMap, skip deleted versions, and check the stored key. */
    method Fetch(key: Bytes) returns (found: seq<Document>)
      requires Valid()
      ensures key in Shown() <==> found != []
      ensures |found| <= 1 && forall d :: d in found ==> d.key == key && key in Shown() && d.payload == Shown()[key]
    {
      hide ManagerInv, Index, Flatten, Replay, CheckpointOK, Bijection;
      LiveManager(View());
      if key !in manager.primary || manager.primary[key] in manager.deletes {
        ShownIs(manager, manifest.maxDocs, key);
        return [];
      }
      ManagerHasLayout(manager, manifest.maxDocs);
      ShownIs(manager, manifest.maxDocs, key);
      found := RetainedDocument(manager, manifest.maxDocs, manager.primary[key]);
      if found != [] && found[0].key != key {
        found := [];
      }
    }
  }

  lemma FlushShows(s: Store, fate: PublishFate)
    requires StoreInv(s) && s.manager.writing.maxDocs > 0
    ensures Contents(Stores.Flush(s, fate).0.manager) == Contents(s.manager)
  {
    hide StoreInv, Stores.Flush, Index;
    FlushKeeps(s, fate);
  }

  lemma AcceptedIs(m: Manager)
    ensures Accepted(m) <==> StateAccepted(Index(AllDocs(m)).Keys, LiveKeys(Index(AllDocs(m)), m.deletes), m.primary, m.deletes)
  {
  }

  lemma DeleteIgnoresPayload(s: Store, key: Bytes, payload: Bytes, fate: AppendFate)
    ensures Write(s, Delete, key, payload, fate) == Write(s, Delete, key, [], fate)
  {
  }

  lemma RewriteKeepsKeys(s: Store, schema: Bytes, docs: seq<Document>, fate: PublishFate)
    requires StoreInv(s) && s.manager.writing.maxDocs > 0
    ensures var (t, outcome) := Rewrite(s, schema, docs, fate);
            && Contents(t.manager).Keys == Contents(s.manager).Keys
            && (outcome.Done? ==> Contents(t.manager) == PayloadsOf(docs))
            && (outcome.Failed? ==> Contents(t.manager) == Contents(s.manager))
  {
    hide StoreInv, Rewrite, ManagerInv, Contents;
    RewriteKeeps(s, schema, docs, fate);
    var (t, outcome) := Rewrite(s, schema, docs, fate);
    LiveManager(s);
    LiveManager(t);
    ShownKeys(s.manager, s.manifest.maxDocs);
    ShownKeys(t.manager, t.manifest.maxDocs);
  }

  lemma RewriteStorable(s: Store, docs: seq<Document>)
    requires StoreInv(s) && RewriteAccepted(s.manager, docs)
    ensures Storable(docs)
  {
    LiveManager(s);
    ManagerIDs(s.manager, s.manifest.maxDocs);
    LiveDocsMembers(AllDocs(s.manager), s.manager.primary, s.manager.deletes);
    var live := LiveDocs(AllDocs(s.manager), s.manager.primary, s.manager.deletes);
    forall d | d in docs ensures d.docID <= MAX_UINT64 {
      var i :| 0 <= i < |docs| && docs[i] == d;
      assert live[i] in live;
    }
  }

  /** Write one run into a fresh write segment and seal it. */
  method BuildSegment(id: nat, run: seq<Document>) returns (segment: Segment)
    requires run != [] && Block(run, |run|) && Storable(run)
    ensures segment == Segment(id, run)
  {
    assert run[|run| - 1] in run;
    var writing := NewWriteSegment(id, run[0].docID, |run|).value;
    for i := 0 to |run|
      invariant writing == WriteSegment(id, run[0].docID, |run|, run[..i])
    {
      assert run[i] in run;
      writing := writing.ApplyExpected(run[i].docID, run[i].key, run[i].payload).value;
    }
    segment := Segment(writing.id, writing.docs);
  }

  /** The replacement segments, under consecutive IDs, and the IDMap of everything written. */
  method BuildRuns(firstID: nat, runs: seq<seq<Document>>) returns (segments: seq<Segment>, primary: map<Bytes, nat>)
    requires exists maximum :: Blocks(runs, maximum)
    requires Storable(Concat(runs))
    ensures segments == SegmentsFrom(firstID, runs)
    ensures primary == KeysOf(Concat(runs))
  {
    hide Concat, KeysOf, Blocks;
    segments, primary := [], map[];
    NoKeys();
    for r := 0 to |runs|
      invariant segments == SegmentsFrom(firstID, runs[..r])
      invariant primary == KeysOf(Concat(runs[..r]))
    {
      var run := runs[r];
      RunFacts(runs, r);
      var segment := BuildSegment(firstID + r, run);
      segments := segments + [segment];
      assert Concat(runs[..r]) + run[..0] == Concat(runs[..r]);
      for i := 0 to |run|
        invariant primary == KeysOf(Concat(runs[..r]) + run[..i])
      {
        KeysOfAppend(Concat(runs[..r]) + run[..i], run[i]);
        assert Concat(runs[..r]) + run[..i] + [run[i]] == Concat(runs[..r]) + run[..i + 1];
        primary := primary[run[i].key := run[i].docID];
      }
      assert run[..|run|] == run;
      ConcatSnoc(runs[..r], run);
      assert runs[..r] + [run] == runs[..r + 1];
    }
    assert runs[..|runs|] == runs;
  }

  lemma NoKeys()
    ensures KeysOf(Concat([])) == map[]
  {
  }

  lemma KeysOfAppend(docs: seq<Document>, d: Document)
    ensures KeysOf(docs + [d]) == KeysOf(docs)[d.key := d.docID]
  {
    assert (docs + [d])[..|docs|] == docs;
  }

  lemma {:induction false} ConcatSnoc(blocks: seq<seq<Document>>, block: seq<Document>)
    ensures Concat(blocks + [block]) == Concat(blocks) + block
    decreases |blocks|
  {
    if blocks == [] {
      assert [] + [block] == [block] && Concat([block][1..]) == [];
    } else {
      assert (blocks + [block])[1..] == blocks[1..] + [block];
      ConcatSnoc(blocks[1..], block);
    }
  }

  lemma RunFacts(runs: seq<seq<Document>>, r: nat)
    requires r < |runs| && Storable(Concat(runs)) && exists maximum :: Blocks(runs, maximum)
    ensures runs[r] != [] && Block(runs[r], |runs[r]|) && Storable(runs[r])
  {
    var maximum :| Blocks(runs, maximum);
    ConcatMembers(runs, r);
  }

  lemma ManagerHasLayout(m: Manager, maxDocs: nat)
    requires ManagerInv(m, maxDocs)
    ensures Layout(m, maxDocs)
  {
  }

  lemma ShownIs(m: Manager, maxDocs: nat, key: Bytes)
    requires ManagerInv(m, maxDocs)
    ensures key in Contents(m) <==> key in m.primary
    ensures key in m.primary ==> m.primary[key] !in m.deletes
    ensures key in m.primary ==>
              m.primary[key] in Index(AllDocs(m)) && Index(AllDocs(m))[m.primary[key]].key == key
              && Contents(m)[key] == Index(AllDocs(m))[m.primary[key]].payload
  {
  }

  lemma {:induction false} IndexConcat(a: seq<Document>, b: seq<Document>)
    ensures Index(a + b) == Index(a) + Index(b)
    decreases |b|
  {
    if b == [] {
      assert a + b == a;
    } else {
      var front, last := b[..|b| - 1], b[|b| - 1];
      IndexConcat(a, front);
      assert a + b == (a + front) + [last];
      IndexAppend(a + front, last);
    }
  }

  /** Positions and IDs of a block determine each other. */
  lemma BlockLookup(docs: seq<Document>, min: nat, id: nat)
    requires forall i :: 0 <= i < |docs| ==> docs[i].docID == min + i
    ensures id in Index(docs) <==> min <= id < min + |docs|
    ensures id in Index(docs) ==> Index(docs)[id] == docs[id - min]
  {
    IndexMembers(docs);
    IndexFinds(docs);
    if min <= id < min + |docs| {
      assert docs[id - min] in docs;
    }
  }

  /** Only the segment whose range holds an ID can hold the document. */
  lemma SegmentLookup(m: Manager, maxDocs: nat, k: nat, id: nat)
    requires Layout(m, maxDocs) && k < |m.immutable|
    requires m.immutable[k].docs != [] && MinID(m.immutable[k]) <= id <= MaxID(m.immutable[k])
    ensures id in Index(AllDocs(m))
    ensures 0 <= id - MinID(m.immutable[k]) < |m.immutable[k].docs|
    ensures Index(AllDocs(m))[id] == m.immutable[k].docs[id - MinID(m.immutable[k])]
  {
    var s := m.immutable[k];
    BlockSpan(s, maxDocs);
    var d := s.docs[id - MinID(s)];
    ManagerIDs(m, maxDocs);
    InFlatten(m.immutable, k);
    assert d in s.docs;
    assert d in AllDocs(m);
    IndexFinds(AllDocs(m));
  }

  lemma {:induction false} InFlatten(segments: seq<Segment>, k: nat)
    requires k < |segments|
    ensures forall d :: d in segments[k].docs ==> d in Flatten(segments)
    decreases |segments|
  {
    var front := segments[..|segments| - 1];
    if k < |front| {
      InFlatten(front, k);
    }
  }

  /** An ID outside every range belongs to no retained document. */
  lemma {:induction false} NoSegmentLookup(segments: seq<Segment>, maxDocs: nat, id: nat)
    requires SegmentsOK(segments, maxDocs)
    requires forall i :: 0 <= i < |segments| ==> !(MinID(segments[i]) <= id <= MaxID(segments[i]))
    ensures id !in Index(Flatten(segments))
  {
    if segments != [] {
      var front, last := segments[..|segments| - 1], segments[|segments| - 1];
      NoSegmentLookup(front, maxDocs, id);
      BlockSpan(last, maxDocs);
      BlockLookup(last.docs, MinID(last), id);
      IndexConcat(Flatten(front), last.docs);
    }
  }

  /** locateImmutableSegment: binary search for the first segment whose maximum reaches the ID. */
  method LocateSegment(segments: seq<Segment>, maxDocs: nat, id: nat) returns (index: nat, found: bool)
    requires SegmentsOK(segments, maxDocs)
    ensures found ==> index < |segments| && MinID(segments[index]) <= id <= MaxID(segments[index])
    ensures !found ==> forall i :: 0 <= i < |segments| ==> !(MinID(segments[i]) <= id <= MaxID(segments[i]))
  {
    forall i | 0 <= i < |segments| ensures MinID(segments[i]) <= MaxID(segments[i]) {
      BlockSpan(segments[i], maxDocs);
    }
    var low, high := 0, |segments|;
    while low < high
      invariant 0 <= low <= high <= |segments|
      invariant forall i :: 0 <= i < low ==> MaxID(segments[i]) < id
      invariant forall i :: high <= i < |segments| ==> id <= MaxID(segments[i])
    {
      var middle := (low + high) / 2;
      if MaxID(segments[middle]) >= id {
        high := middle;
      } else {
        low := middle + 1;
      }
    }
    if low == |segments| {
      return 0, false;
    }
    index, found := low, MinID(segments[low]) <= id;
  }

  /** RetainedDocument: the writing segment first, then the one immutable segment that can hold
      the ID; logical deletions are not consulted. */
  method RetainedDocument(m: Manager, maxDocs: nat, id: nat) returns (found: seq<Document>)
    requires Layout(m, maxDocs)
    ensures found == if id in Index(AllDocs(m)) then [Index(AllDocs(m))[id]] else []
  {
    hide Index, Flatten;
    IndexConcat(Flatten(m.immutable), m.writing.docs);
    BlockLookup(m.writing.docs, m.writing.minDocID, id);
    if m.writing.minDocID <= id && id - m.writing.minDocID < |m.writing.docs| {
      return [m.writing.docs[id - m.writing.minDocID]];
    }
    var index, located := LocateSegment(m.immutable, maxDocs, id);
    if located {
      SegmentLookup(m, maxDocs, index, id);
      found := [m.immutable[index].docs[id - MinID(m.immutable[index])]];
    } else {
      NoSegmentLookup(m.immutable, maxDocs, id);
      found := [];
    }
  }

  // ----- Open ------------------------------------------------------------------------------

  /** replayWriteWAL: decoded records are applied to the recovered manager in log order. */
  method ReplayLog(start: Manager, log: seq<Operation>) returns (result: Result<Manager, StorageError>)
    ensures result == Replay(start, log)
  {
    var m := start;
    for i := 0 to |log|
      invariant Replay(start, log[..i]) == Ok(m)
    {
      ReplayAppend(start, log[..i], log[i]);
      assert log[..i + 1] == log[..i] + [log[i]];
      var applied := RecoverOne(m, log[i]);
      if applied.Err? {
        ReplayStops(start, log, i + 1);
        return applied;
      }
      m := applied.value;
    }
    assert log[..|log|] == log;
    result := Ok(m);
  }

  lemma {:induction false} ReplayStops(start: Manager, log: seq<Operation>, n: nat)
    requires n <= |log| && Replay(start, log[..n]).Err?
    ensures Replay(start, log) == Replay(start, log[..n])
    decreases |log| - n
  {
    if n == |log| {
      assert log[..n] == log;
    } else {
      assert log[..n + 1][..n] == log[..n];
      ReplayStops(start, log, n + 1);
    }
  }

  /** applyRecoveredOperation, field by field. */
  method RecoverOne(start: Manager, op: Operation) returns (result: Result<Manager, StorageError>)
    ensures result == ApplyRecovered(start, op)
  {
    var m := start;
    assert m.deletes + {} == m.deletes;
    if op.kind.Delete? {
      if op.payload != [] {
        return Err(DeleteHasPayload);
      }
      if op.key !in m.primary || m.primary[op.key] != op.docID {
        return Err(KeyNotFound);
      }
      m := m.(deletes := m.deletes + {op.docID});
      if !ValidPrimaryKey(op.key) {
        return Err(InvalidKey);
      }
      m := m.(primary := m.primary - {op.key});
      return Ok(m);
    }
    var existed := op.key in m.primary;
    if op.kind.Insert? && existed {
      return Err(KeyExists);
    }
    if op.kind.Update? && !existed {
      return Err(KeyNotFound);
    }
    var applied := m.writing.ApplyExpected(op.docID, op.key, op.payload);
    if applied.Err? {
      return Err(applied.error);
    }
    m := m.(writing := applied.value);
    if existed {
      m := m.(deletes := m.deletes + {m.primary[op.key]});
    }
    m := m.(primary := m.primary[op.key := op.docID]);
    result := Ok(m);
  }

  /** OpenCollection: install the checkpoint segment by segment, replay the WAL, then check the
      IDMap and delete set against the retained documents. */
  method OpenManager(manifest: Manifest, log: seq<Operation>) returns (result: Result<Manager, StorageError>)
    ensures result == Open(manifest, log)
  {
    hide ManifestValid, AddImmutable, Replay, WritingFits;
    if !ManifestValid(manifest) {
      return Err(ManifestCorrupt);
    }
    ManifestHasDocs(manifest);
    if exists i :: 0 <= i < |manifest.persisted| && manifest.writingStart <= MaxID(manifest.persisted[i]) {
      return Err(CollectionCorrupt);
    }
    var segments: seq<Segment> := [];
    var rest := manifest.persisted;
    while rest != []
      invariant AddAll(segments, rest) == AddAll([], manifest.persisted)
      decreases |rest|
    {
      var added := AddImmutable(segments, rest[0]);
      if added.Err? {
        return Err(added.error);
      }
      segments, rest := added.value, rest[1..];
    }
    var created := NewWriteSegment(manifest.writingID, manifest.writingStart, manifest.maxDocs);
    if created.Err? {
      return Err(created.error);
    }
    if !WritingFits(segments, created.value) {
      return Err(SegmentConflict);
    }
    result := ReplayLog(Manager(segments, created.value, manifest.idMap, manifest.deleteSnapshot), log);
    if result.Ok? {
      var m := result.value;
      var accepted := ValidateState(AllDocs(m), m.primary, m.deletes);
      AcceptedIffBijection(Index(AllDocs(m)), m.primary, m.deletes);
      AcceptedIs(m);
      if !accepted {
        return Err(CollectionCorrupt);
      }
    }
  }

  lemma ManifestHasDocs(manifest: Manifest)
    requires ManifestValid(manifest)
    ensures manifest.maxDocs > 0 && forall i :: 0 <= i < |manifest.persisted| ==> manifest.persisted[i].docs != []
  {
  }
}
