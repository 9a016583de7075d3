/** The sync policy over whole runs: how far the durable mark may lag behind what was acknowledged. */
module Durability {
  import opened Common
  import opened Keys
  import opened Segments
  import opened Managers
  import opened Stores
  import opened Recovery
  import opened Rewrites
  import opened Compactions
  import opened CompactionProofs
  import opened Histories

  /** Records the log holds but never synced. */
  function Unsynced(wal: Wal): int {
    |wal.records| - wal.synced
  }

  /** A usable log that syncs every so many records has fewer than that many since its last sync. */
  ghost predicate Prompt(wal: Wal) {
    !wal.poisoned && wal.syncEvery > 0 ==> wal.dirty < wal.syncEvery
  }

  /** Apart from a backlog of recovered records, what is unsynced is what was appended since. */
  ghost predicate Lags(wal: Wal, backlog: nat) {
    Prompt(wal) && Unsynced(wal) == wal.dirty + backlog
  }

  // ----- One step ----------------------------------------------------------------------------------

  lemma AppendLags(wal: Wal, op: Operation, fate: AppendFate, backlog: nat)
    requires Lags(wal, backlog)
    ensures var w := Append(wal, op, fate).0;
            Lags(w, if w.synced == |w.records| then 0 else backlog) && w.syncEvery == wal.syncEvery
  {
  }

  lemma SyncLags(wal: Wal, fails: bool, backlog: nat)
    requires Lags(wal, backlog)
    ensures var w := SyncWal(wal, fails).0;
            Lags(w, if w.synced == |w.records| then 0 else backlog) && w.syncEvery == wal.syncEvery
  {
  }

  lemma WriteLags(s: Store, kind: OperationKind, key: Bytes, payload: Bytes, fate: AppendFate, backlog: nat)
    requires Lags(s.wal, backlog)
    ensures var w := Write(s, kind, key, payload, fate).0.wal;
            Lags(w, if w.synced == |w.records| then 0 else backlog) && w.syncEvery == s.wal.syncEvery
  {
    hide Append, Lags, ApplyOnline, Admit;
    assert Lags(s.wal, if s.wal.synced == |s.wal.records| then 0 else backlog) by { StillLags(s.wal, backlog); }
    var admitted := Admit(s.manager, kind, key, payload);
    if admitted.Ok? {
      AppendLags(s.wal, admitted.value, fate, backlog);
    }
  }

  lemma StillLags(wal: Wal, backlog: nat)
    requires Lags(wal, backlog)
    ensures Lags(wal, if wal.synced == |wal.records| then 0 else backlog)
  {
  }

  /** A publication leaves the synced log, or starts a new one. */
  lemma PublishedLog(s: Store, wal: Wal, fails: bool, backlog: nat)
    requires Lags(s.wal, backlog)
    requires wal == s.wal || wal == SyncWal(s.wal, fails).0 || wal == EmptyWal(s.wal.syncEvery)
    ensures Lags(wal, if wal.synced == |wal.records| then 0 else backlog) && wal.syncEvery == s.wal.syncEvery
  {
    StillLags(s.wal, backlog);
    SyncLags(s.wal, fails, backlog);
  }

  lemma FlushLog(s: Store, fate: PublishFate)
    requires s.manager.writing.maxDocs > 0
    ensures var w := Flush(s, fate).0.wal;
            w == s.wal || w == SyncWal(s.wal, fate.syncFails).0 || w == EmptyWal(s.wal.syncEvery)
  {
    hide NextWriting, Rotate, Publish;
  }

  lemma RewriteLog(s: Store, schema: Bytes, docs: seq<Document>, fate: PublishFate)
    requires s.manager.writing.maxDocs > 0
    ensures var w := Rewrite(s, schema, docs, fate).0.wal;
            w == s.wal || w == SyncWal(s.wal, fate.syncFails).0 || w == EmptyWal(s.wal.syncEvery)
  {
    hide RewriteAccepted, RewriteNext, RewrittenManager, Publish;
  }

  lemma CommitLog(s: Store, p: Compaction, fate: PublishFate)
    requires s.manager.writing.maxDocs > 0
    ensures var w := Commit(s, p, fate).0.wal;
            w == s.wal || w == SyncWal(s.wal, fate.syncFails).0
  {
    hide InputsIntact, Compacted, ManifestValid, CompactedManifest;
  }

  // ----- Whole runs --------------------------------------------------------------------------------

  /** Whether a crash event is one that can happen. */
  predicate Crashes(sys: System, e: Event) {
    e.CrashEvent? && sys.store.wal.synced <= e.kept <= |Survivors(sys.store)|
  }

  /** What a step leaves of the backlog: a crash starts one from the records it kept without their ever
      being synced, a complete sync ends it. */
  ghost function BacklogAfter(sys: System, e: Event, backlog: nat): nat
    requires SystemInv(sys)
  {
    CapacityPositive(sys);
    if Crashes(sys, e) then e.kept - sys.store.wal.synced
    else
      var w := Step(sys, e).store.wal;
      if w.synced == |w.records| then 0 else backlog
  }

  ghost function Backlog(sys: System, events: seq<Event>): nat
    requires SystemInv(sys)
  {
    if events == [] then 0
    else
      var front := events[..|events| - 1];
      BacklogAfter(Run(sys, front), events[|events| - 1], Backlog(sys, front))
  }

  lemma CrashLags(sys: System, e: Event)
    requires SystemInv(sys) && Crashes(sys, e) && sys.store.manager.writing.maxDocs > 0
    ensures Lags(Step(sys, e).store.wal, e.kept - sys.store.wal.synced)
    ensures Step(sys, e).store.wal.syncEvery == e.syncEvery
  {
    hide Contents, Replay, CheckpointOK, IDsIncrease, Tracks, Fold, Open;
    CrashRecovers(sys.store, e.kept, e.syncEvery);
  }

  lemma PublishLags(sys: System, e: Event, backlog: nat)
    requires SystemInv(sys) && sys.store.manager.writing.maxDocs > 0 && Lags(sys.store.wal, backlog)
    requires e.FlushEvent? || e.RewriteEvent? || e.CommitEvent?
    ensures var w := Step(sys, e).store.wal;
            Lags(w, if w.synced == |w.records| then 0 else backlog) && w.syncEvery == sys.store.wal.syncEvery
  {
    hide SystemInv, Flush, Rewrite, Commit, Lags, SyncWal;
    var s, w := sys.store, Step(sys, e).store.wal;
    match e
    case FlushEvent(fate) =>
      FlushLog(s, fate);
      PublishedLog(s, w, fate.syncFails, backlog);
    case RewriteEvent(schema, docs, fate) =>
      RewriteLog(s, schema, docs, fate);
      PublishedLog(s, w, fate.syncFails, backlog);
    case CommitEvent(fate) =>
      if sys.maintenance.InProgress? {
        CommitLog(s, sys.maintenance.compaction, fate);
      }
      PublishedLog(s, w, fate.syncFails, backlog);
  }

  lemma PreparedLog(s: Store, p: Compaction, fate: PrepareFate)
    ensures Prepare(s, p, fate).0.wal == s.wal
  {
    PrepareShape(s, p, fate);
    hide Prepare;
  }

  lemma SchemaLog(s: Store, schema: Bytes, aborts: bool)
    ensures PublishSchema(s, schema, aborts).0.wal == s.wal
  {
    hide Publish;
  }

  lemma StepLags(sys: System, e: Event, backlog: nat)
    requires SystemInv(sys) && sys.store.manager.writing.maxDocs > 0 && Lags(sys.store.wal, backlog)
    ensures Lags(Step(sys, e).store.wal, BacklogAfter(sys, e, backlog))
    ensures Step(sys, e).store.wal.syncEvery == if Crashes(sys, e) then e.syncEvery else sys.store.wal.syncEvery
  {
    hide SystemInv, Lags, Write, Flush, Rewrite, Commit, Prepare, Begin, PublishSchema, Reopen;
    var s := sys.store;
    StillLags(s.wal, backlog);
    match e
    case WriteEvent(kind, key, payload, append) => WriteLags(s, kind, key, payload, append, backlog);
    case FlushEvent(_) => PublishLags(sys, e, backlog);
    case RewriteEvent(_, _, _) => PublishLags(sys, e, backlog);
    case CommitEvent(_) => PublishLags(sys, e, backlog);
    case PrepareEvent(fate) =>
      if sys.maintenance.InProgress? {
        PreparedLog(s, sys.maintenance.compaction, fate);
      }
    case SchemaEvent(schema, aborts) => SchemaLog(s, schema, aborts);
    case CrashEvent(_, _) =>
      if Crashes(sys, e) {
        CrashLags(sys, e);
      }
    case _ =>
  }

  /** In every run the durable mark lags behind the acknowledged history by the backlog and the records
      appended since the last sync, fewer than the sync interval while the log is usable. */
  lemma {:induction false} EveryRunLags(sys: System, events: seq<Event>)
    requires SystemInv(sys) && Lags(sys.store.wal, 0)
    ensures var end := Run(sys, events);
            && Lags(end.store.wal, Backlog(sys, events))
            && |end.history.log| - end.history.durable == end.store.wal.dirty + Backlog(sys, events)
    decreases |events|
  {
    hide SystemInv, Lags, Step, BacklogAfter;
    if events != [] {
      var front, last := events[..|events| - 1], events[|events| - 1];
      EveryRunLags(sys, front);
      CapacityPositive(Run(sys, front));
      StepLags(Run(sys, front), last, Backlog(sys, front));
    }
    MarkLags(Run(sys, events), Backlog(sys, events));
  }

  lemma MarkLags(sys: System, backlog: nat)
    requires SystemInv(sys) && Lags(sys.store.wal, backlog)
    ensures |sys.history.log| - sys.history.durable == sys.store.wal.dirty + backlog
  {
    hide StoreInv, Tracks, IDsIncrease, Fold, Contents;
    assert |sys.history.log[sys.checkpointed..]| == |Changes(sys.store.wal.records)|;
  }

  /** Without a crash nothing is ever in the backlog, and the interval stays the one given. */
  lemma {:induction false} NoCrashNoBacklog(sys: System, events: seq<Event>)
    requires SystemInv(sys) && Lags(sys.store.wal, 0)
    requires forall i :: 0 <= i < |events| ==> !events[i].CrashEvent?
    ensures Backlog(sys, events) == 0 && Run(sys, events).store.wal.syncEvery == sys.store.wal.syncEvery
    decreases |events|
  {
    hide SystemInv, Lags, Step;
    if events != [] {
      var front, last := events[..|events| - 1], events[|events| - 1];
      NoCrashNoBacklog(sys, front);
      EveryRunLags(sys, front);
      CapacityPositive(Run(sys, front));
      StepLags(Run(sys, front), last, 0);
    }
  }

  /** A collection created to sync every `syncEvery` records loses fewer than that many acknowledged
      changes to its first crash, none when it syncs every record, unless an earlier write, sync or
      append failed and poisoned the log. */
  lemma CreatedStoreLoses(schema: Bytes, maxDocs: nat, syncEvery: nat, events: seq<Event>)
    requires 0 < maxDocs <= MAX_UINT64 + 1 && syncEvery > 0
    requires forall i :: 0 <= i < |events| ==> !events[i].CrashEvent?
    ensures SystemInv(Initial(schema, maxDocs, syncEvery))
    ensures var end := Run(Initial(schema, maxDocs, syncEvery), events);
            !end.store.wal.poisoned ==>
              && |end.history.log| - end.history.durable < syncEvery
              && (syncEvery == 1 ==> end.history.durable == |end.history.log|)
  {
    hide SystemInv, Run, Backlog;
    InitialInv(schema, maxDocs, syncEvery);
    var sys := Initial(schema, maxDocs, syncEvery);
    NoCrashNoBacklog(sys, events);
    EveryRunLags(sys, events);
  }

  /** A store that syncs every record has all of its log durable after each acknowledged write, whatever
      it had recovered before. */
  lemma EveryWriteSynced(s: Store, kind: OperationKind, key: Bytes, payload: Bytes, fate: AppendFate)
    requires s.wal.syncEvery == 1 && Write(s, kind, key, payload, fate).1.Written?
    ensures var w := Write(s, kind, key, payload, fate).0.wal; w.synced == |w.records| == |s.wal.records| + 1
  {
    hide Admit, ApplyOnline;
  }
}
