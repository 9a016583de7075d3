/** Whole runs of the store: any interleaving of writes, flushes, rewrites, schema changes and
    compaction steps, with a crash possible between any two, refines an append-only log of
    acknowledged changes of which a crash may drop only an unsynced tail. */
module Histories {
  import opened Keys
  import opened Segments
  import opened Managers
  import opened Runs
  import opened Stores
  import opened Recovery
  import opened Rewrites
  import opened Compactions
  import opened CompactionProofs

  datatype Change =
    | Put(docID: nat, key: Bytes, payload: Bytes)
    | Remove(docID: nat, key: Bytes)
    | ReplaceAll(contents: map<Bytes, Bytes>)

  /** The abstract machine: acknowledged changes, oldest first, and how many are durable. */
  datatype History = History(log: seq<Change>, durable: nat)

  function Effect(contents: map<Bytes, Bytes>, change: Change): map<Bytes, Bytes> {
    match change
    case Put(_, key, payload) => contents[key := payload]
    case Remove(_, key) => contents - {key}
    case ReplaceAll(all) => all
  }

  function Fold(log: seq<Change>): map<Bytes, Bytes> {
    if log == [] then map[] else Effect(Fold(log[..|log| - 1]), log[|log| - 1])
  }

  function ChangeOf(op: Operation): Change {
    if op.kind.Delete? then Remove(op.docID, op.key) else Put(op.docID, op.key, op.payload)
  }

  function Changes(log: seq<Operation>): seq<Change> {
    seq(|log|, i requires 0 <= i < |log| => ChangeOf(log[i]))
  }

  datatype Maintenance = NoCompaction | InProgress(compaction: Compaction)

  /** A running store, the compaction it may have open, the history so far, and how much of that
      history the published checkpoint contains. */
  datatype System = System(store: Store, maintenance: Maintenance, history: History, checkpointed: nat)

  datatype Event =
    | WriteEvent(kind: OperationKind, key: Bytes, payload: Bytes, append: AppendFate)
    | FlushEvent(publish: PublishFate)
    | RewriteEvent(schema: Bytes, docs: seq<Document>, publish: PublishFate)
    | SchemaEvent(schema: Bytes, aborts: bool)
    | BeginEvent
    | PrepareEvent(prepare: PrepareFate)
    | CommitEvent(publish: PublishFate)
    | CloseEvent
    | CrashEvent(kept: nat, syncEvery: nat)

  /** CreateCollection. */
  function Initial(schema: Bytes, maxDocs: nat, syncEvery: nat): System {
    var manifest := Manifest(1, schema, maxDocs, [], 0, 0, map[], {}, 1);
    System(Store.Store(manifest, Checkpoint(manifest), EmptyWal(syncEvery), false, 0), NoCompaction, History([], 0), 0)
  }

  /** The same history seen from a new store state: durability follows the WAL's sync mark. */
  function Observe(sys: System, store: Store, log: seq<Change>): System {
    sys.(store := store, history := History(log, sys.checkpointed + store.wal.synced))
  }

  /** A publication that moved the whole history into the checkpoint. */
  function Published(sys: System, store: Store, log: seq<Change>): System {
    sys.(store := store, history := History(log, |log|), checkpointed := |log|)
  }

  function Acknowledged(before: Store, e: Event): seq<Change>
    requires e.WriteEvent?
  {
    match Write(before, e.kind, e.key, e.payload, e.append).1
    case Rejected(_) => []
    case Written(docID) => [if e.kind.Delete? then Remove(docID, e.key) else Put(docID, e.key, e.payload)]
    case WrittenUnsynced(docID) => [if e.kind.Delete? then Remove(docID, e.key) else Put(docID, e.key, e.payload)]
  }

  function CrashStep(sys: System, kept: nat, syncEvery: nat): System {
    if sys.store.wal.synced <= kept <= |Survivors(sys.store)| && Reopen(sys.store, kept, syncEvery).Ok? && sys.checkpointed <= |sys.history.log| then
      Observe(sys.(maintenance := NoCompaction), Reopen(sys.store, kept, syncEvery).value,
              sys.history.log[..sys.checkpointed] + Changes(Survivors(sys.store)[..kept]))
    else sys
  }

  function Step(sys: System, e: Event): System
    requires sys.store.manager.writing.maxDocs > 0
  {
    var s, log := sys.store, sys.history.log;
    match e
    case WriteEvent(kind, key, payload, append) =>
      Observe(sys, Write(s, kind, key, payload, append).0, log + Acknowledged(s, e))
    case FlushEvent(fate) =>
      var (t, outcome) := Flush(s, fate);
      if outcome.Done? then Published(sys, t, log) else Observe(sys, t, log)
    case RewriteEvent(schema, docs, fate) =>
      var (t, outcome) := Rewrite(s, schema, docs, fate);
      if outcome.Done? then Published(sys, t, log + [ReplaceAll(PayloadsOf(docs))]) else Observe(sys, t, log)
    case SchemaEvent(schema, aborts) =>
      Observe(sys, PublishSchema(s, schema, aborts).0, log)
    case BeginEvent =>
      if sys.maintenance.NoCompaction? && Begin(s).Ok? then sys.(maintenance := InProgress(Begin(s).value)) else sys
    case PrepareEvent(fate) =>
      if sys.maintenance.NoCompaction? then sys
      else
        var (t, q, _) := Prepare(s, sys.maintenance.compaction, fate);
        Observe(sys.(maintenance := InProgress(q)), t, log)
    case CommitEvent(fate) =>
      if sys.maintenance.NoCompaction? then sys
      else
        var (t, q, _) := Commit(s, sys.maintenance.compaction, fate);
        Observe(sys.(maintenance := InProgress(q)), t, log)
    case CloseEvent => sys.(maintenance := NoCompaction)
    case CrashEvent(kept, syncEvery) => CrashStep(sys, kept, syncEvery)
  }

  // ----- Refinement ---------------------------------------------------------------------------

  /** Document IDs of stored versions, in log order, strictly increase and stay below `next`. */
  ghost predicate IDsIncrease(log: seq<Change>, next: nat) {
    && (forall i, j :: 0 <= i < j < |log| && log[i].Put? && log[j].Put? ==> log[i].docID < log[j].docID)
    && (forall i :: 0 <= i < |log| && log[i].Put? ==> log[i].docID < next)
  }

  ghost predicate Refines(s: Store, history: History, checkpointed: nat) {
    && checkpointed <= |history.log|
    && history.log[checkpointed..] == Changes(s.wal.records)
    && history.durable == checkpointed + s.wal.synced
    && Contents(Checkpoint(s.manifest)) == Fold(history.log[..checkpointed])
    && IDsIncrease(history.log[..checkpointed], s.manifest.writingStart)
  }

  ghost predicate SystemInv(sys: System) {
    && StoreInv(sys.store)
    && Refines(sys.store, sys.history, sys.checkpointed)
    && (sys.maintenance.InProgress? ==> Tracks(sys.store, sys.maintenance.compaction))
  }

  lemma FoldAppend(log: seq<Change>, change: Change)
    ensures Fold(log + [change]) == Effect(Fold(log), change)
  {
    assert (log + [change])[..|log|] == log;
  }

  lemma ChangesAppend(log: seq<Operation>, op: Operation)
    ensures Changes(log + [op]) == Changes(log) + [ChangeOf(op)]
  {
  }

  /** Folding logged operations is applying them. */
  lemma {:induction false} FoldChanges(base: seq<Change>, log: seq<Operation>)
    ensures Fold(base + Changes(log)) == ApplyChanges(Fold(base), log)
  {
    if log == [] {
      assert base + Changes(log) == base;
    } else {
      var front, last := log[..|log| - 1], log[|log| - 1];
      FoldChanges(base, front);
      assert log == front + [last];
      ChangesAppend(front, last);
      assert base + Changes(log) == (base + Changes(front)) + [ChangeOf(last)];
      FoldAppend(base + Changes(front), ChangeOf(last));
    }
  }

  /** The map a reader sees is the fold of the whole acknowledged history. */
  lemma ReaderSeesHistory(sys: System)
    requires SystemInv(sys)
    ensures Contents(sys.store.manager) == Fold(sys.history.log)
    ensures sys.history.durable <= |sys.history.log|
  {
    hide Contents, Tracks, Replay;
    LiveManager(sys.store);
    FoldChanges(sys.history.log[..sys.checkpointed], sys.store.wal.records);
    assert sys.history.log == sys.history.log[..sys.checkpointed] + sys.history.log[sys.checkpointed..];
  }

  lemma InitialInv(schema: Bytes, maxDocs: nat, syncEvery: nat)
    requires 0 < maxDocs <= MAX_UINT64 + 1
    ensures SystemInv(Initial(schema, maxDocs, syncEvery))
  {
    var sys := Initial(schema, maxDocs, syncEvery);
    assert AllDocs(Checkpoint(sys.store.manifest)) == [];
    CleanStore(sys.store);
  }

  // ----- Document IDs ------------------------------------------------------------------------

  lemma IDsAppend(log: seq<Change>, change: Change, next: nat)
    requires IDsIncrease(log, next)
    ensures !change.Put? ==> IDsIncrease(log + [change], next)
    ensures change.Put? && change.docID == next ==> IDsIncrease(log + [change], next + 1)
  {
  }

  lemma RecordAdvances(m: Manager, op: Operation)
    requires ApplyRecovered(m, op).Ok?
    ensures var r := ApplyRecovered(m, op).value;
            && r.writing.minDocID == m.writing.minDocID
            && |r.writing.docs| == |m.writing.docs| + (if op.kind.Delete? then 0 else 1)
            && (!op.kind.Delete? ==> op.docID == m.writing.minDocID + |m.writing.docs|)
  {
  }

  /** Replay hands out IDs in log order, each once. */
  lemma {:induction false} ReplayIDs(base: seq<Change>, m: Manager, log: seq<Operation>)
    requires Replay(m, log).Ok? && IDsIncrease(base, m.writing.minDocID + |m.writing.docs|)
    ensures var r := Replay(m, log).value;
            IDsIncrease(base + Changes(log), r.writing.minDocID + |r.writing.docs|)
  {
    if log == [] {
      assert base + Changes(log) == base;
    } else {
      var front, last := log[..|log| - 1], log[|log| - 1];
      ReplayIDs(base, m, front);
      assert log == front + [last];
      ChangesAppend(front, last);
      assert base + Changes(log) == (base + Changes(front)) + [ChangeOf(last)];
      var before := Replay(m, front).value;
      RecordAdvances(before, last);
      IDsAppend(base + Changes(front), ChangeOf(last), before.writing.minDocID + |before.writing.docs|);
    }
  }

  /** In every reachable state the IDs of a surviving history strictly increase, and the next ID
      to be assigned is larger than all of them: none is ever handed out twice. */
  lemma HistoryIDsIncrease(sys: System)
    requires SystemInv(sys)
    ensures IDsIncrease(sys.history.log, sys.store.manager.writing.minDocID + |sys.store.manager.writing.docs|)
  {
    hide Contents, Tracks, Replay, CheckpointOK, IDsIncrease;
    ReplayIDs(sys.history.log[..sys.checkpointed], Checkpoint(sys.store.manifest), sys.store.wal.records);
    assert sys.history.log == sys.history.log[..sys.checkpointed] + sys.history.log[sys.checkpointed..];
  }

  // ----- Steps ------------------------------------------------------------------------------

  /** A write adds to the log what it acknowledges, and never takes back what was synced. */
  lemma WriteLogs(s: Store, e: Event)
    requires StoreInv(s) && e.WriteEvent?
    ensures Changes(Write(s, e.kind, e.key, e.payload, e.append).0.wal.records) == Changes(s.wal.records) + Acknowledged(s, e)
  {
    hide StoreInv, ApplyRecovered, Admit, ApplyOnline;
    var admitted := Admit(s.manager, e.kind, e.key, e.payload);
    if admitted.Ok? {
      OnlineIsRecovered(s.manager, e.kind, e.key, e.payload);
      ChangesAppend(s.wal.records, admitted.value);
      AdmittedChange(s.manager, e.kind, e.key, e.payload);
    }
    hide Changes;
  }

  lemma AdmittedChange(m: Manager, kind: OperationKind, key: Bytes, payload: Bytes)
    requires Admit(m, kind, key, payload).Ok?
    ensures var op := Admit(m, kind, key, payload).value;
            ChangeOf(op) == if kind.Delete? then Remove(op.docID, key) else Put(op.docID, key, payload)
  {
  }

  lemma StepWrite(sys: System, e: Event)
    requires SystemInv(sys) && e.WriteEvent? && sys.store.manager.writing.maxDocs > 0
    ensures SystemInv(Step(sys, e))
  {
    hide Contents, Replay, CheckpointOK, IDsIncrease, Tracks, Fold, IsLive;
    var s := sys.store;
    var t := Write(s, e.kind, e.key, e.payload, e.append).0;
    WriteKeepsInv(s, e.kind, e.key, e.payload, e.append);
    if sys.maintenance.InProgress? {
      TracksWrite(s, sys.maintenance.compaction, e.kind, e.key, e.payload, e.append);
    }
    WriteLogs(s, e);
    WriteFrame(s, e.kind, e.key, e.payload, e.append);
    hide StoreInv, Write, Acknowledged, Changes;
    var ack := Acknowledged(s, e);
    var log := sys.history.log + ack;
    assert log[..sys.checkpointed] == sys.history.log[..sys.checkpointed];
    assert log[sys.checkpointed..] == sys.history.log[sys.checkpointed..] + ack;
  }

  /** Publishing the whole history as the checkpoint keeps the refinement. */
  lemma PublishedRefines(sys: System, t: Store, log: seq<Change>)
    requires StoreInv(t) && t.wal.records == [] && t.wal.synced == 0 && t.manager == Checkpoint(t.manifest)
    requires Contents(t.manager) == Fold(log)
    requires IDsIncrease(log, t.manifest.writingStart)
    ensures Refines(t, Published(sys, t, log).history, |log|)
  {
    assert log[..|log|] == log;
    assert log[|log|..] == [];
  }

  lemma StepFlush(sys: System, e: Event)
    requires SystemInv(sys) && e.FlushEvent? && sys.store.manager.writing.maxDocs > 0
    ensures SystemInv(Step(sys, e))
  {
    hide Contents, Replay, CheckpointOK, IDsIncrease, Tracks, Fold, Flush, IsLive;
    var s := sys.store;
    var (t, outcome) := Flush(s, e.publish);
    FlushKeeps(s, e.publish);
    if sys.maintenance.InProgress? {
      TracksFlush(s, sys.maintenance.compaction, e.publish);
    }
    ReaderSeesHistory(sys);
    HistoryIDsIncrease(sys);
    FlushFrame(s, e.publish);
    if outcome.Done? {
      assert Contents(t.manager) == Contents(s.manager) by { SameContents(s.manager, t.manager); }
      PublishedRefines(sys, t, sys.history.log);
    }
  }

  lemma SameContents(m: Manager, r: Manager)
    requires AllDocs(m) == AllDocs(r) && m.primary == r.primary
    ensures Contents(m) == Contents(r)
  {
  }

  /** A flush that did not complete left the manifest and the records alone; one that did starts
      the next segment right after the last document. */
  lemma FlushFrame(s: Store, fate: PublishFate)
    requires StoreInv(s) && s.manager.writing.maxDocs > 0
    ensures var (t, outcome) := Flush(s, fate);
            && (outcome.Failed? ==> t.manifest == s.manifest && t.wal.records == s.wal.records && s.wal.synced <= t.wal.synced)
            && (outcome.Done? ==> t.manifest.writingStart == s.manager.writing.minDocID + |s.manager.writing.docs|
                                  && t.wal.synced == 0)
  {
    hide Layout, Bijection, Replay, Index, Flatten, ManifestValid, FlushTo;
    LiveManager(s);
    SyncKeeps(s, fate.syncFails);
    NextFreeIDFollows(s);
    var t := s.(wal := SyncWal(s.wal, fate.syncFails).0);
    if NextWriting(t).Ok? && SyncWal(s.wal, fate.syncFails).1.Done? {
      FlushToKeeps(t, NextWriting(t).value, fate.aborts);
      FlushToStart(t, NextWriting(t).value, fate.aborts);
    }
  }

  lemma FlushToStart(s: Store, next: WriteSegment, aborts: bool)
    requires next.maxDocs > 0
    ensures FlushTo(s, next, aborts).1.Done? ==> FlushTo(s, next, aborts).0.manifest.writingStart == next.minDocID
  {
  }

  lemma StepRewrite(sys: System, e: Event)
    requires SystemInv(sys) && e.RewriteEvent? && sys.store.manager.writing.maxDocs > 0
    ensures SystemInv(Step(sys, e))
  {
    hide Contents, Replay, CheckpointOK, IDsIncrease, Tracks, Fold, Rewrite, IsLive, PayloadsOf;
    var s, log := sys.store, sys.history.log;
    var (t, outcome) := Rewrite(s, e.schema, e.docs, e.publish);
    RewriteKeeps(s, e.schema, e.docs, e.publish);
    if sys.maintenance.InProgress? {
      TracksRewrite(s, sys.maintenance.compaction, e.schema, e.docs, e.publish);
    }
    RewriteFrame(s, e.schema, e.docs, e.publish);
    if outcome.Done? {
      var change := ReplaceAll(PayloadsOf(e.docs));
      FoldAppend(log, change);
      HistoryIDsIncrease(sys);
      IDsAppend(log, change, s.manager.writing.minDocID + |s.manager.writing.docs|);
      PublishedRefines(sys, t, log + [change]);
    }
  }

  lemma RewriteFrame(s: Store, schema: Bytes, docs: seq<Document>, fate: PublishFate)
    requires StoreInv(s) && s.manager.writing.maxDocs > 0
    ensures var (t, outcome) := Rewrite(s, schema, docs, fate);
            && (outcome.Failed? ==> s.wal.synced <= t.wal.synced)
            && (outcome.Done? ==> t.manifest.writingStart == s.manager.writing.minDocID + |s.manager.writing.docs|)
  {
    hide Layout, Bijection, Replay, Index, Flatten, ManifestValid, DocumentRuns, KeysOf, RewriteAccepted, RewriteTo;
    LiveManager(s);
    SyncKeeps(s, fate.syncFails);
    NextFreeIDFollows(s);
    var t := s.(wal := SyncWal(s.wal, fate.syncFails).0);
    if RewriteAccepted(s.manager, docs) && RewriteNext(t, docs).Ok? && SyncWal(s.wal, fate.syncFails).1.Done? {
      var next := RewriteNext(t, docs).value;
      RewriteToKeeps(t, schema, docs, next, fate.aborts);
      RewriteToStart(t, schema, docs, next, fate.aborts);
    }
  }

  lemma RewriteToStart(s: Store, schema: Bytes, docs: seq<Document>, next: WriteSegment, aborts: bool)
    requires next.maxDocs > 0
    ensures RewriteTo(s, schema, docs, next, aborts).1.Done? ==>
              RewriteTo(s, schema, docs, next, aborts).0.manifest.writingStart == next.minDocID
  {
    hide DocumentRuns, Accepted, AddAll;
  }

  lemma StepSchema(sys: System, e: Event)
    requires SystemInv(sys) && e.SchemaEvent? && sys.store.manager.writing.maxDocs > 0
    ensures SystemInv(Step(sys, e))
  {
    hide Contents, Replay, ManagerInv, IDsIncrease, Tracks, Fold, IsLive, ManifestValid;
    var s, t := sys.store, PublishSchema(sys.store, e.schema, e.aborts).0;
    assert Checkpoint(t.manifest) == Checkpoint(s.manifest);
    if sys.maintenance.InProgress? {
      TracksSteady(s, t, sys.maintenance.compaction);
    }
  }

  lemma StepMaintenance(sys: System, e: Event)
    requires SystemInv(sys) && sys.store.manager.writing.maxDocs > 0
    requires e.BeginEvent? || e.PrepareEvent? || e.CommitEvent? || e.CloseEvent?
    ensures SystemInv(Step(sys, e))
    ensures Contents(Step(sys, e).store.manager) == Contents(sys.store.manager)
    ensures Step(sys, e).history.log == sys.history.log
  {
    hide Contents, Replay, CheckpointOK, IDsIncrease, Tracks, Fold, Begin, Prepare, Commit, CommitReady, CommitDone;
    var s := sys.store;
    if e.BeginEvent? && sys.maintenance.NoCompaction? && Begin(s).Ok? {
      BeginTracks(s);
    }
    if e.PrepareEvent? && sys.maintenance.InProgress? {
      PrepareTracks(s, sys.maintenance.compaction, e.prepare);
    }
    if e.CommitEvent? && sys.maintenance.InProgress? {
      CommitKeeps(s, sys.maintenance.compaction, e.publish);
      CommitStart(s, sys.maintenance.compaction, e.publish);
    }
  }

  lemma CommitStart(s: Store, p: Compaction, fate: PublishFate)
    requires s.manager.writing.maxDocs > 0
    ensures Commit(s, p, fate).0.manifest.writingStart == s.manifest.writingStart
  {
    hide ManifestValid, Compacted, InputsIntact;
  }

  lemma StepCrash(sys: System, e: Event)
    requires SystemInv(sys) && e.CrashEvent? && sys.store.manager.writing.maxDocs > 0
    ensures SystemInv(Step(sys, e))
    ensures sys.store.wal.synced <= e.kept <= |Survivors(sys.store)| ==> Reopen(sys.store, e.kept, e.syncEvery).Ok?
  {
    hide Contents, Replay, CheckpointOK, IDsIncrease, Tracks, Fold, Open;
    if sys.store.wal.synced <= e.kept <= |Survivors(sys.store)| {
      CrashRecovers(sys.store, e.kept, e.syncEvery);
      var kept := Survivors(sys.store)[..e.kept];
      var base := sys.history.log[..sys.checkpointed];
      var log := base + Changes(kept);
      assert log[..sys.checkpointed] == base && log[sys.checkpointed..] == Changes(kept);
    }
  }

  lemma StepKeepsInv(sys: System, e: Event)
    requires SystemInv(sys)
    ensures sys.store.manager.writing.maxDocs > 0 && SystemInv(Step(sys, e))
  {
    hide SystemInv, Step;
    CapacityPositive(sys);
    match e
    case WriteEvent(_, _, _, _) => StepWrite(sys, e);
    case FlushEvent(_) => StepFlush(sys, e);
    case RewriteEvent(_, _, _) => StepRewrite(sys, e);
    case SchemaEvent(_, _) => StepSchema(sys, e);
    case CrashEvent(_, _) => StepCrash(sys, e);
    case _ => StepMaintenance(sys, e);
  }

  lemma CapacityPositive(sys: System)
    requires SystemInv(sys)
    ensures sys.store.manager.writing.maxDocs > 0
  {
    LiveManager(sys.store);
  }

  /** The log a crash leaves, in terms of the acknowledged history. */
  function AfterCrash(sys: System, kept: nat): seq<Change>
    requires sys.checkpointed + |sys.store.wal.records| == |sys.history.log| && kept <= |Survivors(sys.store)|
  {
    if kept <= |sys.store.wal.records| then sys.history.log[..sys.checkpointed + kept]
    else sys.history.log + Changes(sys.store.wal.torn)
  }

  lemma CrashLog(sys: System, kept: nat)
    requires SystemInv(sys) && kept <= |Survivors(sys.store)|
    ensures sys.checkpointed + |sys.store.wal.records| == |sys.history.log|
    ensures sys.history.log[..sys.checkpointed] + Changes(Survivors(sys.store)[..kept]) == AfterCrash(sys, kept)
  {
    hide Contents, Replay, CheckpointOK, IDsIncrease, Tracks, Fold;
    var w, log, cp := sys.store.wal, sys.history.log, sys.checkpointed;
    assert |log[cp..]| == |w.records|;
    if kept <= |w.records| {
      assert Survivors(sys.store)[..kept] == w.records[..kept];
      assert Changes(w.records[..kept]) == Changes(w.records)[..kept];
      assert log[..cp] + log[cp..][..kept] == log[..cp + kept];
    } else {
      assert |w.torn| == 1;
      assert Survivors(sys.store)[..kept] == w.records + w.torn;
      assert Changes(w.records + w.torn) == Changes(w.records) + Changes(w.torn);
      assert log == log[..cp] + log[cp..];
    }
  }

  /** From any reachable state and for any admissible crash, reopening succeeds and shows the map
      after a prefix of the history that includes everything durable, or after the whole history
      and the one write whose append failed. */
  lemma EveryCrashRecovers(sys: System, kept: nat, syncEvery: nat)
    requires SystemInv(sys) && sys.store.wal.synced <= kept <= |Survivors(sys.store)|
    ensures Reopen(sys.store, kept, syncEvery).Ok?
    ensures sys.checkpointed + |sys.store.wal.records| == |sys.history.log|
    ensures Contents(Reopen(sys.store, kept, syncEvery).value.manager) == Fold(AfterCrash(sys, kept))
    ensures kept <= |sys.store.wal.records| ==> sys.history.durable <= sys.checkpointed + kept
  {
    hide Contents, Replay, CheckpointOK, IDsIncrease, Tracks, Fold, Open, Reopen;
    CrashRecovers(sys.store, kept, syncEvery);
    CrashLog(sys, kept);
    FoldChanges(sys.history.log[..sys.checkpointed], Survivors(sys.store)[..kept]);
  }

  /** What one event may do to the abstract machine. `torn` is the write whose append failed. */
  ghost predicate Allowed(a: History, e: Event, b: History, torn: seq<Change>) {
    && a.durable <= b.durable <= |b.log|
    && match e
       case WriteEvent(kind, key, payload, _) =>
         b.log == a.log || exists docID :: b.log == a.log + [if kind.Delete? then Remove(docID, key) else Put(docID, key, payload)]
       case RewriteEvent(_, docs, _) =>
         b.log == a.log || (b.log == a.log + [ReplaceAll(PayloadsOf(docs))] && b.durable == |b.log|)
       case CrashEvent(_, _) =>
         || b.log == a.log + torn
         || (exists n :: a.durable <= n <= |a.log| && b.log == a.log[..n])
       case _ => b.log == a.log
  }

  lemma SyncedWithin(s: Store)
    requires StoreInv(s)
    ensures s.wal.synced <= |s.wal.records|
  {
  }

  lemma DurablePublishes(sys: System, e: Event)
    requires SystemInv(sys) && sys.store.manager.writing.maxDocs > 0 && (e.FlushEvent? || e.RewriteEvent?)
    ensures sys.history.durable <= Step(sys, e).history.durable
  {
    hide Contents, Replay, CheckpointOK, IDsIncrease, Tracks, Fold, Rewrite, Flush, StoreInv, PayloadsOf;
    ReaderSeesHistory(sys);
    if e.FlushEvent? {
      FlushFrame(sys.store, e.publish);
      assert Flush(sys.store, e.publish).1.Failed? || Step(sys, e).history.durable == |sys.history.log|;
    } else {
      RewriteFrame(sys.store, e.schema, e.docs, e.publish);
      assert Rewrite(sys.store, e.schema, e.docs, e.publish).1.Failed? || Step(sys, e).history.durable == |sys.history.log| + 1;
    }
  }

  lemma DurableGrows(sys: System, e: Event)
    requires SystemInv(sys) && sys.store.manager.writing.maxDocs > 0
    ensures sys.history.durable <= Step(sys, e).history.durable
  {
    hide Contents, Replay, CheckpointOK, IDsIncrease, Tracks, Fold, Open, Reopen, CommitReady, CommitDone, ManifestValid,
      RewriteAccepted, Rewrite, Flush, Compacted, InputsIntact, StoreInv;
    match e
    case CommitEvent(fate) =>
      if sys.maintenance.InProgress? {
        CommitKeeps(sys.store, sys.maintenance.compaction, fate);
      }
    case CrashEvent(kept, syncEvery) =>
      if sys.store.wal.synced <= kept <= |Survivors(sys.store)| {
        CrashRecovers(sys.store, kept, syncEvery);
      }
    case FlushEvent(_) => DurablePublishes(sys, e);
    case RewriteEvent(_, _, _) => DurablePublishes(sys, e);
    case WriteEvent(_, _, _, _) => SyncedWithin(sys.store);
    case _ =>
  }

  /** Every step of the concrete system is a step of the abstract machine. */
  lemma StepIsAllowed(sys: System, e: Event)
    requires SystemInv(sys) && sys.store.manager.writing.maxDocs > 0
    ensures Allowed(sys.history, e, Step(sys, e).history, Changes(sys.store.wal.torn))
  {
    hide Contents, Replay, CheckpointOK, IDsIncrease, Tracks, Fold, Open, Reopen, CommitReady, CommitDone, ManifestValid,
      RewriteAccepted, RewriteTo, FlushTo, Flush, Rewrite, Write, Prepare, Commit, PublishSchema;
    StepKeepsInv(sys, e);
    ReaderSeesHistory(Step(sys, e));
    DurableGrows(sys, e);
    if e.CrashEvent? && sys.store.wal.synced <= e.kept <= |Survivors(sys.store)| {
      CrashRecovers(sys.store, e.kept, e.syncEvery);
      CrashLog(sys, e.kept);
    }
    if e.CrashEvent? {
      assert sys.history.log[..|sys.history.log|] == sys.history.log;
      ReaderSeesHistory(sys);
    }
  }

  // ----- Runs ---------------------------------------------------------------------------------

  ghost function Run(sys: System, events: seq<Event>): (end: System)
    requires SystemInv(sys)
    ensures SystemInv(end)
  {
    if events == [] then sys
    else
      var before := Run(sys, events[..|events| - 1]);
      StepKeepsInv(before, events[|events| - 1]);
      Step(before, events[|events| - 1])
  }

  /** After any sequence of events on a new collection: readers see the fold of the acknowledged
      history, the opening check accepts the state, document IDs were never reused, and every crash
      recovers a prefix that holds all durable changes. */
  lemma EveryRun(schema: Bytes, maxDocs: nat, syncEvery: nat, events: seq<Event>)
    requires 0 < maxDocs <= MAX_UINT64 + 1
    ensures SystemInv(Initial(schema, maxDocs, syncEvery))
    ensures var sys := Run(Initial(schema, maxDocs, syncEvery), events);
            && Contents(sys.store.manager) == Fold(sys.history.log)
            && sys.history.durable <= |sys.history.log|
            && Accepted(sys.store.manager)
            && IDsIncrease(sys.history.log, sys.store.manager.writing.minDocID + |sys.store.manager.writing.docs|)
            && sys.checkpointed + |sys.store.wal.records| == |sys.history.log|
            && forall kept, every :: sys.store.wal.synced <= kept <= |Survivors(sys.store)| ==>
                 Reopen(sys.store, kept, every).Ok?
                 && Contents(Reopen(sys.store, kept, every).value.manager) == Fold(AfterCrash(sys, kept))
  {
    hide Contents, Replay, CheckpointOK, IDsIncrease, Tracks, Fold, Reopen, Run, Step, ManagerInv, Accepted;
    InitialInv(schema, maxDocs, syncEvery);
    var sys := Run(Initial(schema, maxDocs, syncEvery), events);
    ReaderSeesHistory(sys);
    HistoryIDsIncrease(sys);
    LiveManager(sys.store);
    InvAccepted(sys.store.manager, sys.store.manifest.maxDocs);
    CrashLog(sys, 0);
    forall kept, every | sys.store.wal.synced <= kept <= |Survivors(sys.store)|
      ensures Reopen(sys.store, kept, every).Ok?
      ensures Contents(Reopen(sys.store, kept, every).value.manager) == Fold(AfterCrash(sys, kept))
    {
      EveryCrashRecovers(sys, kept, every);
    }
  }
}
