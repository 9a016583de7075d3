/** When the store's operations go through: every refusal has a cause a caller could have checked. */
module Acceptance {
  import opened Common
  import opened Keys
  import opened Segments
  import opened Managers
  import opened Runs
  import opened Stores
  import opened Recovery
  import opened Rewrites
  import opened Compactions
  import opened CompactionProofs

  // ----- Writes ------------------------------------------------------------------------------------

  /** Key, payload and log record are within their limits. */
  predicate WithinLimits(kind: OperationKind, key: Bytes, payload: Bytes) {
    && ValidPrimaryKey(key)
    && (kind.Delete? || |payload| <= MAX_DOCUMENT_PAYLOAD_SIZE)
    && 28 + |key| + (if kind.Delete? then 0 else |payload|) <= 4 * 1024 * 1024
  }

  /** Neither store nor log is poisoned, the log has room, and so has the writing segment where one is needed. */
  ghost predicate ReadyFor(s: Store, kind: OperationKind) {
    && !s.poisoned && !s.wal.poisoned && |s.wal.records| < MAX_UINT64
    && (kind.Delete? || |s.manager.writing.docs| < s.manifest.maxDocs)
  }

  /** An insert wants a key that readers do not see; an update or a delete one that they see; an upsert
      takes either. */
  ghost predicate KeyFits(s: Store, kind: OperationKind, key: Bytes) {
    && (kind.Insert? ==> key !in Contents(s.manager))
    && (kind.Update? || kind.Delete? ==> key in Contents(s.manager))
  }

  lemma ShownKey(s: Store, key: Bytes)
    requires StoreInv(s)
    ensures key in Contents(s.manager) <==> key in s.manager.primary
    ensures s.manager.writing.maxDocs == s.manifest.maxDocs
  {
    LiveManager(s);
  }

  /** A write is refused by the store, by its admission or by the log, and goes through otherwise. */
  lemma WriteSteps(s: Store, kind: OperationKind, key: Bytes, payload: Bytes, fate: AppendFate)
    ensures var result, admitted := Write(s, kind, key, payload, fate).1, Admit(s.manager, kind, key, payload);
      && (s.poisoned ==> result == Rejected(Poisoned))
      && (!s.poisoned && admitted.Err? ==> result == Rejected(admitted.error))
      && (!s.poisoned && admitted.Ok? ==>
            var outcome := Append(s.wal, admitted.value, fate).1;
            && (outcome.NotLogged? ==> result == Rejected(outcome.error))
            && (outcome.Logged? ==> result == Written(admitted.value.docID)))
  {
    hide Append, ApplyRecovered;
    if Admit(s.manager, kind, key, payload).Ok? {
      OnlineIsRecovered(s.manager, kind, key, payload);
    }
    hide Admit, ApplyOnline;
  }

  lemma Appends(wal: Wal, op: Operation)
    ensures var outcome := Append(wal, op, Complete(false)).1;
      && (outcome.Logged? <==> 28 + |op.key| + |op.payload| <= 4 * 1024 * 1024 && !wal.poisoned && |wal.records| < MAX_UINT64)
      && (outcome.Logged? || outcome == NotLogged(WalRecordTooLarge) || outcome == NotLogged(WalRefused))
      && (outcome == NotLogged(WalRecordTooLarge) <==> 28 + |op.key| + |op.payload| > 4 * 1024 * 1024)
  {
  }

  lemma Admits(m: Manager, kind: OperationKind, key: Bytes, payload: Bytes)
    requires ValidPrimaryKey(key) && (kind.Delete? || |payload| <= MAX_DOCUMENT_PAYLOAD_SIZE)
    requires kind.Delete? || |m.writing.docs| < m.writing.maxDocs
    ensures Admit(m, kind, key, payload) ==
            if kind.Insert? && key in m.primary then Err(KeyExists)
            else if (kind.Update? || kind.Delete?) && key !in m.primary then Err(KeyNotFound)
            else if kind.Delete? then Ok(Operation(Delete, m.primary[key], key, []))
            else Ok(Operation(kind, m.writing.minDocID + |m.writing.docs|, key, payload))
  {
    hide ValidPrimaryKey;
  }

  /** With nothing in its way a write is acknowledged exactly when the key fits, under the next ID or, for
      a delete, the ID of the version it hides; otherwise it is refused for that key alone. */
  lemma WriteAccepted(s: Store, kind: OperationKind, key: Bytes, payload: Bytes)
    requires StoreInv(s) && ReadyFor(s, kind) && WithinLimits(kind, key, payload)
    ensures KeyFits(s, kind, key) ==> (kind.Delete? ==> key in s.manager.primary)
    ensures Write(s, kind, key, payload, Complete(false)).1 ==
            if KeyFits(s, kind, key) then
              Written(if kind.Delete? then s.manager.primary[key]
                      else s.manager.writing.minDocID + |s.manager.writing.docs|)
            else Rejected(if kind.Insert? then KeyExists else KeyNotFound)
  {
    hide StoreInv, Contents, Write, Append, Admit, ValidPrimaryKey;
    ShownKey(s, key);
    Admits(s.manager, kind, key, payload);
    WriteSteps(s, kind, key, payload, Complete(false));
    var admitted := Admit(s.manager, kind, key, payload);
    if admitted.Ok? {
      Appends(s.wal, admitted.value);
    }
  }

  lemma AdmissionErrors(m: Manager, kind: OperationKind, key: Bytes, payload: Bytes)
    ensures var admitted := Admit(m, kind, key, payload);
      && (!ValidPrimaryKey(key) ==> admitted == Err(InvalidKey))
      && (admitted == Err(PayloadTooLarge) ==> !kind.Delete? && |payload| > MAX_DOCUMENT_PAYLOAD_SIZE)
      && (admitted == Err(SegmentFull) ==> !kind.Delete? && |m.writing.docs| >= m.writing.maxDocs)
      && (admitted.Err? ==> admitted.error in {InvalidKey, PayloadTooLarge, KeyExists, KeyNotFound, SegmentFull})
      && (admitted.Ok? ==> admitted.value.key == key && admitted.value.payload == if kind.Delete? then [] else payload)
  {
    hide ValidPrimaryKey;
  }

  /** The cause of each refusal a healthy environment can bring; there is no other. */
  lemma WriteRefused(s: Store, kind: OperationKind, key: Bytes, payload: Bytes)
    requires StoreInv(s)
    ensures var result := Write(s, kind, key, payload, Complete(false)).1;
            && (s.poisoned ==> result == Rejected(Poisoned))
            && (!s.poisoned && !ValidPrimaryKey(key) ==> result == Rejected(InvalidKey))
            && (result == Rejected(PayloadTooLarge) ==> !kind.Delete? && |payload| > MAX_DOCUMENT_PAYLOAD_SIZE)
            && (result == Rejected(SegmentFull) ==> !kind.Delete? && |s.manager.writing.docs| >= s.manifest.maxDocs)
            && (result == Rejected(WalRecordTooLarge) ==> !WithinLimits(kind, key, payload))
            && (result == Rejected(WalRefused) ==> s.wal.poisoned || |s.wal.records| >= MAX_UINT64)
            && (result.Rejected? ==> !ReadyFor(s, kind) || !WithinLimits(kind, key, payload) || !KeyFits(s, kind, key))
  {
    hide StoreInv, Contents, Write, Append, Admit, ValidPrimaryKey;
    ShownKey(s, key);
    AdmissionErrors(s.manager, kind, key, payload);
    WriteSteps(s, kind, key, payload, Complete(false));
    var admitted := Admit(s.manager, kind, key, payload);
    if admitted.Ok? {
      Appends(s.wal, admitted.value);
    }
    if ReadyFor(s, kind) && WithinLimits(kind, key, payload) && KeyFits(s, kind, key) {
      WriteAccepted(s, kind, key, payload);
    }
  }

  // ----- Flush ----------------------------------------------------------------------------------------

  /** Room for one more writing segment after the documents stored so far. */
  ghost predicate RoomAfter(s: Store, newSegments: nat) {
    && Max(s.manifest.nextSegmentID, s.reservedNextSegmentID) + newSegments < MAX_UINT64
    && s.manager.writing.minDocID + |s.manager.writing.docs| + s.manifest.maxDocs - 1 <= MAX_UINT64
  }

  ghost predicate CanPublish(s: Store, fate: PublishFate) {
    !fate.aborts && s.manifest.generation < MAX_UINT64
  }

  ghost predicate CanSync(s: Store, fate: PublishFate) {
    !s.poisoned && !s.wal.poisoned && !fate.syncFails
  }

  lemma NextWritingIff(s: Store)
    requires StoreInv(s)
    ensures s.manager.writing.maxDocs > 0
    ensures NextWriting(s).Ok? <==> RoomAfter(s, 0)
  {
    LiveManager(s);
    hide StoreInv;
  }

  lemma FlushToIff(s: Store, fate: PublishFate)
    requires StoreInv(s) && s.wal.torn == [] && s.manager.writing.maxDocs > 0 && NextWriting(s).Ok?
    ensures NextWriting(s).value.maxDocs > 0
    ensures FlushTo(s, NextWriting(s).value, fate.aborts).1.Done? <==> CanPublish(s, fate)
  {
    hide StoreInv, ManifestValid, Rotate, NextWriting;
    FlushToKeeps(s, NextWriting(s).value, fate.aborts);
  }

  /** A flush is done exactly when the log can be synced and there is nothing to flush, or room in both ID
      spaces and a generation to publish. */
  lemma FlushDoneIff(s: Store, fate: PublishFate)
    requires StoreInv(s)
    ensures s.manager.writing.maxDocs > 0
    ensures Flush(s, fate).1.Done? <==>
            && CanSync(s, fate)
            && ((s.manager.writing.docs == [] && s.wal.records == []) || (RoomAfter(s, 0) && CanPublish(s, fate)))
  {
    LiveManager(s);
    SyncKeeps(s, fate.syncFails);
    var (wal, synced) := SyncWal(s.wal, fate.syncFails);
    var t := s.(wal := wal);
    NextWritingIff(t);
    hide StoreInv, NextWriting, FlushTo, ManagerInv;
    if synced.Done? && NextWriting(t).Ok? {
      FlushToIff(t, fate);
    }
  }

  /** After a flush a compaction can begin, as long as a generation is left for it. */
  lemma FlushedBegins(s: Store, fate: PublishFate)
    requires StoreInv(s) && s.manager.writing.maxDocs > 0 && Flush(s, fate).1.Done?
    ensures var t := Flush(s, fate).0; t.manifest.generation < MAX_UINT64 ==> Begin(t).Ok?
  {
    FlushKeeps(s, fate);
    hide StoreInv, Flush;
    FlushDoneIff(s, fate);
  }

  // ----- Rewrite ----------------------------------------------------------------------------------------

  /** The live documents, in ID order, with payloads a document may have. */
  ghost predicate ReplacesLive(m: Manager, docs: seq<Document>) {
    && SameVersions(docs, LiveDocs(AllDocs(m), m.primary, m.deletes))
    && forall d :: d in docs ==> |d.payload| <= MAX_DOCUMENT_PAYLOAD_SIZE
  }

  lemma LiveVersions(m: Manager, maxDocs: nat, docs: seq<Document>)
    requires ManagerInv(m, maxDocs) && SameVersions(docs, LiveDocs(AllDocs(m), m.primary, m.deletes))
    ensures DistinctKeys(docs) && forall i :: 0 <= i < |docs| ==> ValidPrimaryKey(docs[i].key)
  {
    var live := LiveDocs(AllDocs(m), m.primary, m.deletes);
    ManagerIDs(m, maxDocs);
    LiveDocsAscend(AllDocs(m), m.primary, m.deletes);
    LiveDocsMembers(AllDocs(m), m.primary, m.deletes);
    hide Layout, Flatten, AllDocs, LiveDocs;
    forall i | 0 <= i < |docs|
      ensures ValidPrimaryKey(docs[i].key) && docs[i].key in m.primary && m.primary[docs[i].key] == docs[i].docID
    {
      assert live[i] in live;
    }
  }

  /** A rewrite is admitted exactly when it replaces payloads of the live documents, within their limit. */
  lemma RewriteAcceptedIff(s: Store, docs: seq<Document>)
    requires StoreInv(s)
    ensures RewriteAccepted(s.manager, docs) <==> ReplacesLive(s.manager, docs)
  {
    LiveManager(s);
    hide StoreInv, ManagerInv, SameVersions, DistinctKeys, LiveDocs, AllDocs, ValidPrimaryKey;
    if SameVersions(docs, LiveDocs(AllDocs(s.manager), s.manager.primary, s.manager.deletes)) {
      LiveVersions(s.manager, s.manifest.maxDocs, docs);
    }
    assert forall i :: 0 <= i < |docs| ==> docs[i] in docs;
  }

  lemma RewriteNextIff(s: Store, docs: seq<Document>)
    requires StoreInv(s) && RewriteAccepted(s.manager, docs)
    ensures s.manager.writing.maxDocs > 0
    ensures RewriteNext(s, docs).Ok? <==> RoomAfter(s, |DocumentRuns(docs, s.manifest.maxDocs)|)
  {
    hide StoreInv, RewriteAccepted, DocumentRuns;
    RewriteBelowNext(s, docs);
  }

  lemma RewriteBelowNext(s: Store, docs: seq<Document>)
    requires StoreInv(s) && RewriteAccepted(s.manager, docs)
    ensures var w := s.manager.writing;
      && w.maxDocs == s.manifest.maxDocs > 0 && |w.docs| <= w.maxDocs && w.minDocID + w.maxDocs - 1 <= MAX_UINT64
      && (docs != [] ==> docs[|docs| - 1].docID < w.minDocID + |w.docs|)
  {
    hide StoreInv, RewriteAccepted, KeysOf, PayloadsOf, Index, Bijection, Visible, AllDocs, SegmentsOK, Storable;
    LiveManager(s);
    RewriteDocs(s.manager, s.manifest.maxDocs, docs);
    assert docs != [] ==> docs[|docs| - 1] in docs;
  }

  lemma RewriteToIff(s: Store, schema: Bytes, docs: seq<Document>, fate: PublishFate)
    requires StoreInv(s) && RewriteAccepted(s.manager, docs) && s.manager.writing.maxDocs > 0 && RewriteNext(s, docs).Ok?
    ensures RewriteNext(s, docs).value.maxDocs > 0
    ensures RewriteTo(s, schema, docs, RewriteNext(s, docs).value, fate.aborts).1.Done? <==> CanPublish(s, fate)
  {
    hide StoreInv, ManifestValid, RewriteNext, RewriteAccepted, RewrittenManager, DocumentRuns;
    RewriteToKeeps(s, schema, docs, RewriteNext(s, docs).value, fate.aborts);
    NeverPublishFailed(s, docs, RewriteNext(s, docs).value);
  }

  lemma NeverPublishFailed(s: Store, docs: seq<Document>, next: WriteSegment)
    requires next.maxDocs > 0
    ensures var firstID := Max(s.manifest.nextSegmentID, s.reservedNextSegmentID);
            RewrittenManager(SegmentsFrom(firstID, DocumentRuns(docs, s.manifest.maxDocs)), docs, next) != Err(PublishFailed)
  {
    hide DocumentRuns, Accepted, SegmentsFrom;
    var firstID := Max(s.manifest.nextSegmentID, s.reservedNextSegmentID);
    AddAllErrors([], SegmentsFrom(firstID, DocumentRuns(docs, s.manifest.maxDocs)));
  }

  lemma {:induction false} AddAllErrors(segments: seq<Segment>, more: seq<Segment>)
    ensures AddAll(segments, more) != Err(PublishFailed)
    decreases |more|
  {
    if more != [] && AddImmutable(segments, more[0]).Ok? {
      AddAllErrors(AddImmutable(segments, more[0]).value, more[1..]);
    }
  }

  /** A rewrite is done exactly when it replaces the live documents, the log can be synced, and there is
      room in both ID spaces and a generation to publish. */
  lemma RewriteDoneIff(s: Store, schema: Bytes, docs: seq<Document>, fate: PublishFate)
    requires StoreInv(s)
    ensures s.manager.writing.maxDocs > 0
    ensures Rewrite(s, schema, docs, fate).1.Done? <==>
            && CanSync(s, fate) && ReplacesLive(s.manager, docs)
            && RoomAfter(s, |DocumentRuns(docs, s.manifest.maxDocs)|) && CanPublish(s, fate)
  {
    LiveManager(s);
    RewriteAcceptedIff(s, docs);
    SyncKeeps(s, fate.syncFails);
    hide StoreInv, RewriteNext, RewriteTo, ManagerInv, RewriteAccepted, ReplacesLive, DocumentRuns;
    var (wal, synced) := SyncWal(s.wal, fate.syncFails);
    var t := s.(wal := wal);
    if RewriteAccepted(s.manager, docs) && synced.Done? {
      RewriteNextIff(t, docs);
      if RewriteNext(t, docs).Ok? {
        RewriteToIff(t, schema, docs, fate);
      }
    }
  }

  // ----- Schema --------------------------------------------------------------------------------------------

  /** A schema change is done exactly when it is none, or a generation can be published. */
  lemma SchemaDoneIff(s: Store, schema: Bytes, aborts: bool)
    requires StoreInv(s)
    ensures PublishSchema(s, schema, aborts).1.Done? <==>
            !s.poisoned && (s.manifest.schema == schema || (!aborts && s.manifest.generation < MAX_UINT64))
  {
    hide Replay, ManagerInv;
    CheckpointValid(s.manifest);
  }
}
