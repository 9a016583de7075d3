/** The collection store as a value: the durable manifest and WAL beside the in-memory manager,
    with one function per operation. The environment's choices (a torn append, a failed sync, an
    abort before publication) are arguments. */
module Stores {
  import opened Common
  import opened Keys
  import opened Segments
  import opened Managers

  const WRITE_OPERATION_OVERHEAD: nat := 28
  const MAX_WAL_RECORD_SIZE: nat := 4 * 1024 * 1024

  /** What CURRENT names: immutable segments plus the checkpointed IDMap and delete set. */
  datatype Manifest = Manifest(generation: nat, schema: Bytes, maxDocs: nat, persisted: seq<Segment>,
                               writingID: nat, writingStart: nat,
                               idMap: map<Bytes, nat>, deleteSnapshot: set<nat>, nextSegmentID: nat)

  /** The WAL file of the writing segment. `synced` records are durable; a failed write may have
      left one complete record in `torn` that the handle never acknowledged. */
  datatype Wal = Wal(records: seq<Operation>, torn: seq<Operation>, synced: nat, dirty: nat,
                     syncEvery: nat, poisoned: bool)

  datatype Store = Store(manifest: Manifest, manager: Manager, wal: Wal, poisoned: bool,
                         reservedNextSegmentID: nat)

  datatype Outcome = Done | Failed(error: StorageError)

  function EmptyWal(syncEvery: nat): Wal {
    Wal([], [], 0, 0, syncEvery, false)
  }

  /** The manager that recovery starts from. */
  function Checkpoint(manifest: Manifest): Manager {
    Manager(manifest.persisted, WriteSegment(manifest.writingID, manifest.writingStart, manifest.maxDocs, []),
            manifest.idMap, manifest.deleteSnapshot)
  }

  // ----- Write-ahead log -----------------------------------------------------------

  datatype AppendFate = Refuse | Tear | Complete(syncFails: bool)

  datatype AppendOutcome = NotLogged(error: StorageError) | Logged | LoggedUnsynced

  function Append(wal: Wal, op: Operation, fate: AppendFate): (Wal, AppendOutcome) {
    if WRITE_OPERATION_OVERHEAD + |op.key| + |op.payload| > MAX_WAL_RECORD_SIZE then (wal, NotLogged(WalRecordTooLarge))
    else if wal.poisoned || fate.Refuse? || |wal.records| >= MAX_UINT64 then (wal, NotLogged(WalRefused))
    else if fate.Tear? then (wal.(torn := [op], poisoned := true), NotLogged(WalRefused))
    else
      var logged := wal.(records := wal.records + [op], dirty := wal.dirty + 1);
      if wal.syncEvery == 0 || wal.dirty + 1 < wal.syncEvery then (logged, Logged)
      else if fate.syncFails then (logged.(poisoned := true), LoggedUnsynced)
      else (logged.(synced := |logged.records|, dirty := 0), Logged)
  }

  function SyncWal(wal: Wal, fails: bool): (Wal, Outcome) {
    if wal.poisoned then (wal, Failed(SyncFailed))
    else if fails then (wal.(poisoned := true), Failed(SyncFailed))
    else (wal.(synced := |wal.records|, dirty := 0), Done)
  }

  // ----- Online writes ---------------------------------------------------------------

  /** The checks made before a write is logged, and the record that is then logged. */
  function Admit(m: Manager, kind: OperationKind, key: Bytes, payload: Bytes): Result<Operation, StorageError> {
    if !ValidPrimaryKey(key) then Err(InvalidKey)
    else if !kind.Delete? && |payload| > MAX_DOCUMENT_PAYLOAD_SIZE then Err(PayloadTooLarge)
    else if kind.Insert? && key in m.primary then Err(KeyExists)
    else if (kind.Update? || kind.Delete?) && key !in m.primary then Err(KeyNotFound)
    else if kind.Delete? then Ok(Operation(Delete, m.primary[key], key, []))
    else
      match m.writing.NextDocumentID()
      case Err(e) => Err(e)
      case Ok(docID) => Ok(Operation(kind, docID, key, payload))
  }

  /** The in-memory application that follows a logged record. */
  function ApplyOnline(m: Manager, op: Operation): Result<Manager, StorageError> {
    if op.kind.Delete? then
      if op.key !in m.primary || m.primary[op.key] != op.docID then Err(KeyNotFound)
      else Ok(m.(deletes := m.deletes + {op.docID}, primary := m.primary - {op.key}))
    else
      match m.writing.ApplyExpected(op.docID, op.key, op.payload)
      case Err(e) => Err(e)
      case Ok(writing) =>
        var deletes := if !op.kind.Insert? && op.key in m.primary then m.deletes + {m.primary[op.key]} else m.deletes;
        Ok(Manager(m.immutable, writing, m.primary[op.key := op.docID], deletes))
  }

  datatype WriteResult = Written(docID: nat) | WrittenUnsynced(docID: nat) | Rejected(error: StorageError)

  function Write(s: Store, kind: OperationKind, key: Bytes, payload: Bytes, fate: AppendFate): (Store, WriteResult) {
    if s.poisoned then (s, Rejected(Poisoned))
    else
      match Admit(s.manager, kind, key, payload)
      case Err(e) => (s, Rejected(e))
      case Ok(op) =>
        var (wal, outcome) := Append(s.wal, op, fate);
        if outcome.NotLogged? then (s.(wal := wal), Rejected(outcome.error))
        else
          match ApplyOnline(s.manager, op)
          case Err(e) => (s.(wal := wal, poisoned := true), Rejected(e))
          case Ok(manager) =>
            if outcome.LoggedUnsynced? then (s.(wal := wal, manager := manager, poisoned := true), WrittenUnsynced(op.docID))
            else (s.(wal := wal, manager := manager), Written(op.docID))
  }

  // ----- Flush -------------------------------------------------------------------------

  /** rewriteNextDocumentID: the first ID after everything the writing segment holds. */
  function NextFreeID(w: WriteSegment): Result<nat, StorageError>
    requires w.maxDocs > 0
  {
    if |w.docs| < w.maxDocs then Ok(w.minDocID + |w.docs|)
    else if w.ReservedMax() >= MAX_UINT64 then Err(IDSpaceExhausted)
    else Ok(w.ReservedMax() + 1)
  }

  predicate ManifestValid(m: Manifest) {
    && m.maxDocs > 0
    && (forall i :: 0 <= i < |m.persisted| ==>
          && m.persisted[i].docs != []
          && |m.persisted[i].docs| - 1 <= MaxID(m.persisted[i]) - MinID(m.persisted[i])
          && m.persisted[i].id < m.nextSegmentID
          && m.persisted[i].id != m.writingID)
    && (forall i, j :: 0 <= i < j < |m.persisted| ==> m.persisted[i].id != m.persisted[j].id)
    && (forall i :: 1 <= i < |m.persisted| ==> MaxID(m.persisted[i - 1]) < MinID(m.persisted[i]))
    && m.writingID < m.nextSegmentID
  }

  datatype PublishFate = PublishFate(syncFails: bool, aborts: bool)

  /** CURRENT moves to `next` unless the generation space, validation or the environment objects. */
  function Publish(current: Manifest, next: Manifest, aborts: bool): Result<Manifest, StorageError> {
    if !ManifestValid(next) then Err(ManifestCorrupt)
    else if aborts || current.generation >= MAX_UINT64 then Err(PublishFailed)
    else Ok(next.(generation := current.generation + 1))
  }

  function FlushedManifest(s: Store, nextID: nat, nextDocID: nat): Manifest {
    var w := s.manager.writing;
    s.manifest.(
      persisted := if w.docs == [] then s.manifest.persisted else s.manifest.persisted + [Segment(w.id, w.docs)],
      writingID := nextID, writingStart := nextDocID,
      idMap := s.manager.primary, deleteSnapshot := s.manager.deletes, nextSegmentID := nextID + 1)
  }

  function Rotate(m: Manager, next: WriteSegment): Result<Manager, StorageError>
    requires next.maxDocs > 0
  {
    if m.writing.docs != [] then RotateWriting(m, Segment(m.writing.id, m.writing.docs), next)
    else if WritingFits(m.immutable, next) then Ok(m.(writing := next))
    else Err(SegmentConflict)
  }

  /** The empty segment that will accept writes once the current one is sealed. */
  function NextWriting(s: Store): Result<WriteSegment, StorageError>
    requires s.manager.writing.maxDocs > 0
  {
    var nextID := Max(s.manifest.nextSegmentID, s.reservedNextSegmentID);
    if nextID >= MAX_UINT64 then Err(IDSpaceExhausted)
    else
      match NextFreeID(s.manager.writing)
      case Err(e) => Err(e)
      case Ok(nextDocID) => NewWriteSegment(nextID, nextDocID, s.manifest.maxDocs)
  }

  function FlushTo(s: Store, next: WriteSegment, aborts: bool): (Store, Outcome)
    requires next.maxDocs > 0
  {
    match Publish(s.manifest, FlushedManifest(s, next.id, next.minDocID), aborts)
    case Err(e) => (s, Failed(e))
    case Ok(manifest) =>
      match Rotate(s.manager, next)
      case Err(e) => (s.(manifest := manifest, poisoned := true), Failed(e))
      case Ok(manager) =>
        (Store(manifest, manager, EmptyWal(s.wal.syncEvery), s.poisoned, s.reservedNextSegmentID), Done)
  }

  function Flush(s: Store, fate: PublishFate): (Store, Outcome)
    requires s.manager.writing.maxDocs > 0
  {
    if s.poisoned then (s, Failed(Poisoned))
    else
      var (wal, synced) := SyncWal(s.wal, fate.syncFails);
      var t := s.(wal := wal);
      if synced.Failed? then (t, synced)
      else if t.manager.writing.docs == [] && wal.records == [] then (t, Done)
      else
        match NextWriting(t)
        case Err(e) => (t, Failed(e))
        case Ok(next) => FlushTo(t, next, fate.aborts)
  }

  // ----- Schema ---------------------------------------------------------------------------

  function PublishSchema(s: Store, schema: Bytes, aborts: bool): (Store, Outcome) {
    if s.poisoned then (s, Failed(Poisoned))
    else if s.manifest.schema == schema then (s, Done)
    else
      match Publish(s.manifest, s.manifest.(schema := schema), aborts)
      case Err(e) => (s, Failed(e))
      case Ok(manifest) => (s.(manifest := manifest), Done)
  }

  // ----- Recovery ------------------------------------------------------------------------

  /** The segments, writing segment, IDMap and delete set a manifest names, before replay. */
  function OpenCheckpoint(manifest: Manifest): Result<Manager, StorageError> {
    if !ManifestValid(manifest) then Err(ManifestCorrupt)
    else if exists i :: 0 <= i < |manifest.persisted| && manifest.writingStart <= MaxID(manifest.persisted[i]) then
      Err(CollectionCorrupt)
    else
      match AddAll([], manifest.persisted)
      case Err(e) => Err(e)
      case Ok(segments) =>
        match NewWriteSegment(manifest.writingID, manifest.writingStart, manifest.maxDocs)
        case Err(e) => Err(e)
        case Ok(writing) =>
          if WritingFits(segments, writing) then Ok(Manager(segments, writing, manifest.idMap, manifest.deleteSnapshot))
          else Err(SegmentConflict)
  }

  predicate Accepted(m: Manager) {
    var index := Index(AllDocs(m));
    StateAccepted(index.Keys, LiveKeys(index, m.deletes), m.primary, m.deletes)
  }

  /** OpenCollection over the manifest and the surviving log. */
  function Open(manifest: Manifest, log: seq<Operation>): Result<Manager, StorageError> {
    match OpenCheckpoint(manifest)
    case Err(e) => Err(e)
    case Ok(start) =>
      match Replay(start, log)
      case Err(e) => Err(e)
      case Ok(m) => if Accepted(m) then Ok(m) else Err(CollectionCorrupt)
  }

  // ----- Invariant -------------------------------------------------------------------------

  ghost predicate CheckpointOK(manifest: Manifest) {
    && ManagerInv(Checkpoint(manifest), manifest.maxDocs)
    && (forall i :: 0 <= i < |manifest.persisted| ==> manifest.persisted[i].id < manifest.nextSegmentID)
    && manifest.writingID < manifest.nextSegmentID
  }

  ghost predicate WalOK(wal: Wal) {
    && wal.synced <= |wal.records|
    && |wal.torn| <= 1
    && (wal.torn != [] ==> wal.poisoned)
  }

  /** The in-memory state is what recovery would compute from the durable state. */
  ghost predicate StoreInv(s: Store) {
    && CheckpointOK(s.manifest)
    && WalOK(s.wal)
    && Replay(Checkpoint(s.manifest), s.wal.records) == Ok(s.manager)
    && Replay(Checkpoint(s.manifest), s.wal.records + s.wal.torn).Ok?
  }

  lemma ReplayFrame(m: Manager, log: seq<Operation>)
    requires Replay(m, log).Ok?
    ensures var r := Replay(m, log).value;
            && r.immutable == m.immutable
            && r.writing.id == m.writing.id && r.writing.minDocID == m.writing.minDocID
            && r.writing.maxDocs == m.writing.maxDocs
            && m.deletes <= r.deletes
  {
    if log != [] {
      ReplayFrame(m, log[..|log| - 1]);
    }
  }

  /** Everything the invariant of the checkpoint gives about the live manager. */
  lemma LiveManager(s: Store)
    requires StoreInv(s)
    ensures ManagerInv(s.manager, s.manifest.maxDocs)
    ensures s.manager.immutable == s.manifest.persisted
    ensures s.manager.writing.id == s.manifest.writingID && s.manager.writing.minDocID == s.manifest.writingStart
    ensures s.manager.writing.maxDocs == s.manifest.maxDocs > 0
    ensures Contents(s.manager) == ApplyChanges(Contents(Checkpoint(s.manifest)), s.wal.records)
    ensures s.manifest.deleteSnapshot <= s.manager.deletes
  {
    ReplayFrame(Checkpoint(s.manifest), s.wal.records);
    ReplayKeeps(Checkpoint(s.manifest), s.manifest.maxDocs, s.wal.records);
  }

  // ----- Online application agrees with recovery ---------------------------------------------

  /** The online write path and the replay path are separate code; on an admitted record they
      compute the same manager and neither fails. */
  lemma OnlineIsRecovered(m: Manager, kind: OperationKind, key: Bytes, payload: Bytes)
    requires Admit(m, kind, key, payload).Ok?
    ensures var op := Admit(m, kind, key, payload).value;
            ApplyOnline(m, op).Ok? && ApplyOnline(m, op) == ApplyRecovered(m, op)
  {
    assert m.deletes + {} == m.deletes;
  }

  lemma LogKeepsInv(s: Store, op: Operation, fate: AppendFate, manager: Manager, poisoned: bool)
    requires StoreInv(s) && ApplyRecovered(s.manager, op) == Ok(manager)
    ensures var (wal, outcome) := Append(s.wal, op, fate);
            && (outcome.NotLogged? ==> StoreInv(s.(wal := wal)))
            && (!outcome.NotLogged? ==> StoreInv(s.(wal := wal, manager := manager, poisoned := poisoned)))
  {
    hide CheckpointOK, Replay, ApplyRecovered;
    ReplayAppend(Checkpoint(s.manifest), s.wal.records, op);
    var wal := Append(s.wal, op, fate).0;
    if wal.torn == [] {
      assert wal.records + wal.torn == wal.records;
    }
  }

  lemma WriteKeepsInv(s: Store, kind: OperationKind, key: Bytes, payload: Bytes, fate: AppendFate)
    requires StoreInv(s)
    ensures StoreInv(Write(s, kind, key, payload, fate).0)
  {
    hide StoreInv, Append, Admit, ApplyRecovered, ApplyOnline;
    var admitted := Admit(s.manager, kind, key, payload);
    if admitted.Ok? {
      OnlineIsRecovered(s.manager, kind, key, payload);
      var manager := ApplyRecovered(s.manager, admitted.value).value;
      LogKeepsInv(s, admitted.value, fate, manager, s.poisoned);
      LogKeepsInv(s, admitted.value, fate, manager, true);
    }
  }
}
