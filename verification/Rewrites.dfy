/** Building immutable segments from documents, and RewriteDocuments: every live payload replaced
    in one publication. */
module Rewrites {
  import opened Common
  import opened Keys
  import opened Segments
  import opened Managers
  import opened Runs
  import opened Stores
  import opened Recovery

  // ----- Segments from runs ----------------------------------------------------------------

  function SegmentsFrom(firstID: nat, blocks: seq<seq<Document>>): seq<Segment> {
    seq(|blocks|, i requires 0 <= i < |blocks| => Segment(firstID + i, blocks[i]))
  }

  lemma {:induction false} FlattenSegmentsFrom(firstID: nat, blocks: seq<seq<Document>>)
    ensures Flatten(SegmentsFrom(firstID, blocks)) == Concat(blocks)
    decreases |blocks|
  {
    if blocks != [] {
      var head, rest := Segment(firstID, blocks[0]), SegmentsFrom(firstID + 1, blocks[1..]);
      assert SegmentsFrom(firstID, blocks) == [head] + rest;
      FlattenConcat([head], rest);
      FlattenOne(head);
      FlattenSegmentsFrom(firstID + 1, blocks[1..]);
    }
  }

  lemma {:induction false} ConcatMembers(blocks: seq<seq<Document>>, i: nat)
    requires i < |blocks|
    ensures forall d :: d in blocks[i] ==> d in Concat(blocks)
  {
    if i > 0 {
      ConcatMembers(blocks[1..], i - 1);
    }
  }

  lemma {:induction false} BlocksOrdered(blocks: seq<seq<Document>>, maxDocs: nat, i: nat, j: nat)
    requires Blocks(blocks, maxDocs) && Ascending(Concat(blocks)) && i < j < |blocks|
    ensures blocks[i] != [] && blocks[j] != []
    ensures blocks[i][|blocks[i]| - 1].docID < blocks[j][0].docID
  {
    var docs, b := Concat(blocks), |blocks[0]|;
    ConcatConsumes(blocks);
    if i > 0 {
      BlocksOrdered(blocks[1..], maxDocs, i - 1, j - 1);
    } else {
      var d := blocks[j][0];
      ConcatMembers(blocks[1..], j - 1);
      assert d in blocks[1..][j - 1];
      var k :| 0 <= k < |docs[b..]| && docs[b..][k] == d;
      assert docs[..b][b - 1] == docs[b - 1];
    }
  }

  /** Runs of ascending documents, under fresh consecutive segment IDs, form a valid layout. */
  lemma RunsLayout(docs: seq<Document>, firstID: nat, maxDocs: nat)
    requires Ascending(docs) && maxDocs > 0
    ensures var segments := SegmentsFrom(firstID, DocumentRuns(docs, maxDocs));
            SegmentsOK(segments, maxDocs) && Flatten(segments) == docs
  {
    var blocks := DocumentRuns(docs, maxDocs);
    RunsPartition(docs, maxDocs);
    FlattenSegmentsFrom(firstID, blocks);
    var segments := SegmentsFrom(firstID, blocks);
    forall i, j | 0 <= i < j < |segments| ensures MaxID(segments[i]) < MinID(segments[j]) {
      BlocksOrdered(blocks, maxDocs, i, j);
    }
  }

  // ----- Live documents ----------------------------------------------------------------------

  predicate IsLive(d: Document, primary: map<Bytes, nat>, deletes: set<nat>) {
    d.docID !in deletes && d.key in primary && primary[d.key] == d.docID
  }

  /** Current versions in ascending document-ID order. */
  function LiveDocs(docs: seq<Document>, primary: map<Bytes, nat>, deletes: set<nat>): seq<Document> {
    if docs == [] then []
    else
      var front, last := LiveDocs(docs[..|docs| - 1], primary, deletes), docs[|docs| - 1];
      if IsLive(last, primary, deletes) then front + [last] else front
  }

  lemma {:induction false} LiveDocsMembers(docs: seq<Document>, primary: map<Bytes, nat>, deletes: set<nat>)
    ensures forall d :: d in LiveDocs(docs, primary, deletes) <==> d in docs && IsLive(d, primary, deletes)
  {
    if docs != [] {
      LiveDocsMembers(docs[..|docs| - 1], primary, deletes);
      assert docs == docs[..|docs| - 1] + [docs[|docs| - 1]];
    }
  }

  lemma {:induction false} LiveDocsAscend(docs: seq<Document>, primary: map<Bytes, nat>, deletes: set<nat>)
    requires Ascending(docs)
    ensures Ascending(LiveDocs(docs, primary, deletes))
  {
    if docs != [] {
      var front, last := docs[..|docs| - 1], docs[|docs| - 1];
      LiveDocsAscend(front, primary, deletes);
      LiveDocsMembers(front, primary, deletes);
      var live := LiveDocs(front, primary, deletes);
      forall i | 0 <= i < |live| ensures live[i].docID < last.docID {
        assert live[i] in front;
      }
    }
  }

  function KeysOf(docs: seq<Document>): map<Bytes, nat> {
    if docs == [] then map[] else KeysOf(docs[..|docs| - 1])[docs[|docs| - 1].key := docs[|docs| - 1].docID]
  }

  function PayloadsOf(docs: seq<Document>): map<Bytes, Bytes> {
    if docs == [] then map[] else PayloadsOf(docs[..|docs| - 1])[docs[|docs| - 1].key := docs[|docs| - 1].payload]
  }

  predicate DistinctKeys(docs: seq<Document>) {
    forall i, j :: 0 <= i < j < |docs| ==> docs[i].key != docs[j].key
  }

  lemma {:induction false} KeysOfDomain(docs: seq<Document>)
    ensures forall key :: key in KeysOf(docs) ==> exists i :: 0 <= i < |docs| && docs[i].key == key
  {
    if docs != [] {
      var front := docs[..|docs| - 1];
      KeysOfDomain(front);
      forall key | key in KeysOf(docs) ensures exists i :: 0 <= i < |docs| && docs[i].key == key {
        if key in KeysOf(front) {
          var i :| 0 <= i < |front| && front[i].key == key;
          assert docs[i].key == key;
        } else {
          assert docs[|docs| - 1].key == key;
        }
      }
    }
  }

  lemma LastIsNew(docs: seq<Document>)
    requires docs != [] && DistinctKeys(docs) && Ascending(docs)
    ensures docs[|docs| - 1].docID !in Index(docs[..|docs| - 1])
    ensures docs[|docs| - 1].key !in KeysOf(docs[..|docs| - 1])
  {
    var front, last := docs[..|docs| - 1], docs[|docs| - 1];
    IndexMembers(front);
    KeysOfDomain(front);
    assert forall i :: 0 <= i < |front| ==> front[i] == docs[i] && front[i].docID < last.docID && front[i].key != last.key;
  }

  /** Documents with distinct keys and IDs make a bijective IDMap with nothing deleted. */
  lemma {:induction false} KeysOfBijection(docs: seq<Document>)
    requires DistinctKeys(docs) && Ascending(docs)
    ensures Bijection(Index(docs), KeysOf(docs), {})
    ensures Visible(Index(docs), KeysOf(docs)) == PayloadsOf(docs)
  {
    if docs != [] {
      var front, last := docs[..|docs| - 1], docs[|docs| - 1];
      KeysOfBijection(front);
      LastIsNew(docs);
      StoreKeepsBijection(Index(front), KeysOf(front), {}, last);
      StoreChangesContents(Index(front), KeysOf(front), {}, last);
    }
  }

  lemma {:induction false} KeysOfMaps(docs: seq<Document>)
    requires DistinctKeys(docs)
    ensures forall i :: 0 <= i < |docs| ==> docs[i].key in KeysOf(docs) && KeysOf(docs)[docs[i].key] == docs[i].docID
  {
    if docs != [] {
      var front := docs[..|docs| - 1];
      KeysOfMaps(front);
      forall i | 0 <= i < |docs|
        ensures docs[i].key in KeysOf(docs) && KeysOf(docs)[docs[i].key] == docs[i].docID
      {
        if i < |front| {
          assert front[i] == docs[i];
        }
      }
    }
  }

  /** The live documents of a consistent manager are exactly what its IDMap reaches. */
  lemma LiveIsPrimary(all: seq<Document>, primary: map<Bytes, nat>, deletes: set<nat>)
    requires Bijection(Index(all), primary, deletes)
    ensures var live := LiveDocs(all, primary, deletes);
            && (forall i :: 0 <= i < |live| ==> live[i].key in primary && primary[live[i].key] == live[i].docID)
            && (forall key :: key in primary ==> exists i :: 0 <= i < |live| && live[i].key == key)
  {
    var live := LiveDocs(all, primary, deletes);
    LiveDocsMembers(all, primary, deletes);
    IndexMembers(all);
    forall i | 0 <= i < |live| ensures live[i].key in primary && primary[live[i].key] == live[i].docID {
      assert live[i] in live;
    }
    forall key | key in primary ensures exists i :: 0 <= i < |live| && live[i].key == key {
      var d := Index(all)[primary[key]];
      assert d in live;
      var i :| 0 <= i < |live| && live[i] == d;
    }
  }

  lemma LiveKeysArePrimary(all: seq<Document>, primary: map<Bytes, nat>, deletes: set<nat>, docs: seq<Document>)
    requires Bijection(Index(all), primary, deletes)
    requires SameVersions(docs, LiveDocs(all, primary, deletes)) && DistinctKeys(docs)
    ensures KeysOf(docs) == primary
  {
    hide Bijection, LiveDocs, KeysOf, DistinctKeys;
    LiveIsPrimary(all, primary, deletes);
    KeysOfMaps(docs);
    KeysOfDomain(docs);
    var live := LiveDocs(all, primary, deletes);
    forall key | key in primary ensures key in KeysOf(docs) && KeysOf(docs)[key] == primary[key] {
      var i :| 0 <= i < |live| && live[i].key == key;
      assert docs[i].key == key;
    }
    forall key | key in KeysOf(docs) ensures key in primary {
      var i :| 0 <= i < |docs| && docs[i].key == key;
      assert live[i].key == key;
    }
  }

  // ----- RewriteDocuments ---------------------------------------------------------------------

  /** Same IDs and keys, position by position; payloads may differ. */
  predicate SameVersions(docs: seq<Document>, live: seq<Document>) {
    && |docs| == |live|
    && forall i :: 0 <= i < |docs| ==> docs[i].docID == live[i].docID && docs[i].key == live[i].key
  }

  predicate RewriteAccepted(m: Manager, docs: seq<Document>) {
    && SameVersions(docs, LiveDocs(AllDocs(m), m.primary, m.deletes))
    && (forall i :: 0 <= i < |docs| ==> ValidPrimaryKey(docs[i].key) && |docs[i].payload| <= MAX_DOCUMENT_PAYLOAD_SIZE)
    && DistinctKeys(docs)
  }

  function RewrittenManager(segments: seq<Segment>, docs: seq<Document>, next: WriteSegment): Result<Manager, StorageError>
    requires next.maxDocs > 0
  {
    match AddAll([], segments)
    case Err(e) => Err(e)
    case Ok(immutable) =>
      var m := Manager(immutable, next, KeysOf(docs), {});
      if !WritingFits(immutable, next) then Err(SegmentConflict)
      else if !Accepted(m) then Err(CollectionCorrupt)
      else Ok(m)
  }

  function RewrittenManifest(current: Manifest, m: Manager, schema: Bytes): Manifest {
    current.(schema := schema, persisted := m.immutable, writingID := m.writing.id, writingStart := m.writing.minDocID,
             idMap := m.primary, deleteSnapshot := m.deletes, nextSegmentID := m.writing.id + 1)
  }

  /** The writing segment that follows the rewritten runs. */
  function RewriteNext(s: Store, docs: seq<Document>): Result<WriteSegment, StorageError>
    requires s.manager.writing.maxDocs > 0
  {
    match NextFreeID(s.manager.writing)
    case Err(e) => Err(e)
    case Ok(nextDocID) =>
      if docs != [] && docs[|docs| - 1].docID >= nextDocID then Err(CollectionCorrupt)
      else
        var writingID := Max(s.manifest.nextSegmentID, s.reservedNextSegmentID) + |DocumentRuns(docs, s.manifest.maxDocs)|;
        if writingID >= MAX_UINT64 then Err(IDSpaceExhausted)
        else NewWriteSegment(writingID, nextDocID, s.manifest.maxDocs)
  }

  function RewriteTo(s: Store, schema: Bytes, docs: seq<Document>, next: WriteSegment, aborts: bool): (Store, Outcome)
    requires next.maxDocs > 0
  {
    var firstID := Max(s.manifest.nextSegmentID, s.reservedNextSegmentID);
    match RewrittenManager(SegmentsFrom(firstID, DocumentRuns(docs, s.manifest.maxDocs)), docs, next)
    case Err(e) => (s, Failed(e))
    case Ok(manager) =>
      match Publish(s.manifest, RewrittenManifest(s.manifest, manager, schema), aborts)
      case Err(e) => (s, Failed(e))
      case Ok(manifest) =>
        (Store.Store(manifest, manager, EmptyWal(s.wal.syncEvery), s.poisoned, s.reservedNextSegmentID), Done)
  }

  function Rewrite(s: Store, schema: Bytes, docs: seq<Document>, fate: PublishFate): (Store, Outcome)
    requires s.manager.writing.maxDocs > 0
  {
    if s.poisoned then (s, Failed(Poisoned))
    else if !RewriteAccepted(s.manager, docs) then (s, Failed(RewriteMismatch))
    else
      var (wal, synced) := SyncWal(s.wal, fate.syncFails);
      var t := s.(wal := wal);
      if synced.Failed? then (t, synced)
      else
        match RewriteNext(t, docs)
        case Err(e) => (t, Failed(e))
        case Ok(next) => RewriteTo(t, schema, docs, next, fate.aborts)
  }

  /** The documents of an accepted rewrite ascend, stay below the next ID and carry the IDMap. */
  lemma RewriteDocs(m: Manager, maxDocs: nat, docs: seq<Document>)
    requires ManagerInv(m, maxDocs) && RewriteAccepted(m, docs)
    ensures Ascending(docs)
    ensures forall d :: d in docs ==> d.docID < m.writing.minDocID + |m.writing.docs|
    ensures KeysOf(docs) == m.primary
    ensures Bijection(Index(docs), m.primary, {})
    ensures Visible(Index(docs), m.primary) == PayloadsOf(docs)
  {
    ManagerIDs(m, maxDocs);
    var live := LiveDocs(AllDocs(m), m.primary, m.deletes);
    LiveDocsAscend(AllDocs(m), m.primary, m.deletes);
    LiveDocsMembers(AllDocs(m), m.primary, m.deletes);
    forall i | 0 <= i < |docs| ensures docs[i].docID < m.writing.minDocID + |m.writing.docs| {
      assert live[i] in AllDocs(m);
    }
    LiveKeysArePrimary(AllDocs(m), m.primary, m.deletes, docs);
    KeysOfBijection(docs);
  }

  lemma {:induction false} LastInDocs(segments: seq<Segment>, i: nat, maxDocs: nat)
    requires SegmentsOK(segments, maxDocs) && i < |segments|
    ensures segments[i].docs[|segments[i].docs| - 1] in Flatten(segments)
    decreases |segments|
  {
    var front := segments[..|segments| - 1];
    if i < |front| {
      LastInDocs(front, i, maxDocs);
    }
  }

  lemma RewriteLayout(docs: seq<Document>, firstID: nat, next: WriteSegment, maxDocs: nat)
    requires Ascending(docs) && WritingOK(next, maxDocs) && next.docs == []
    requires forall d :: d in docs ==> d.docID < next.minDocID
    requires next.id == firstID + |DocumentRuns(docs, maxDocs)|
    ensures var r := Manager(SegmentsFrom(firstID, DocumentRuns(docs, maxDocs)), next, KeysOf(docs), {});
            Layout(r, maxDocs) && AllDocs(r) == docs
  {
    var segments := SegmentsFrom(firstID, DocumentRuns(docs, maxDocs));
    RunsLayout(docs, firstID, maxDocs);
    forall i | 0 <= i < |segments| ensures MaxID(segments[i]) < next.minDocID && segments[i].id != next.id {
      LastInDocs(segments, i, maxDocs);
    }
  }

  /** The candidate manager is well formed and shows exactly the new payloads. */
  lemma RewriteBuilds(m: Manager, maxDocs: nat, docs: seq<Document>, firstID: nat, next: WriteSegment)
    requires ManagerInv(m, maxDocs) && RewriteAccepted(m, docs)
    requires WritingOK(next, maxDocs) && next.docs == [] && next.minDocID == m.writing.minDocID + |m.writing.docs|
    requires next.id == firstID + |DocumentRuns(docs, maxDocs)|
    ensures var segments := SegmentsFrom(firstID, DocumentRuns(docs, maxDocs));
            var r := Manager(segments, next, m.primary, {});
            && RewrittenManager(segments, docs, next) == Ok(r)
            && ManagerInv(r, maxDocs)
            && AllDocs(r) == docs
            && Contents(r) == PayloadsOf(docs)
  {
    RewriteDocs(m, maxDocs, docs);
    RewriteLayout(docs, firstID, next, maxDocs);
    var r := Manager(SegmentsFrom(firstID, DocumentRuns(docs, maxDocs)), next, m.primary, {});
    InstallsBack(r, maxDocs);
    InvAccepted(r, maxDocs);
  }

  lemma RewrittenCheckpoint(s: Store, schema: Bytes, r: Manager)
    requires StoreInv(s) && ManagerInv(r, s.manifest.maxDocs) && r.writing.docs == []
    requires forall i :: 0 <= i < |r.immutable| ==> r.immutable[i].id < r.writing.id
    ensures var manifest := RewrittenManifest(s.manifest, r, schema);
            CheckpointOK(manifest) && ManifestValid(manifest) && Checkpoint(manifest) == r
  {
    var manifest := RewrittenManifest(s.manifest, r, schema);
    assert Checkpoint(manifest) == r;
    CheckpointValid(manifest);
  }

  /** The store a published rewrite leaves behind. */
  ghost predicate RewriteDone(s: Store, t: Store, schema: Bytes, docs: seq<Document>) {
    && StoreInv(t)
    && t.wal == EmptyWal(s.wal.syncEvery)
    && t.poisoned == s.poisoned
    && t.manager == Checkpoint(t.manifest)
    && t.manifest.schema == schema
    && t.manifest.generation == s.manifest.generation + 1
    && t.manifest.maxDocs == s.manifest.maxDocs
    && t.manager.primary == s.manager.primary
    && t.manager.deletes == {}
    && Contents(t.manager) == PayloadsOf(docs)
  }

  lemma RewriteToKeeps(s: Store, schema: Bytes, docs: seq<Document>, next: WriteSegment, aborts: bool)
    requires StoreInv(s) && RewriteAccepted(s.manager, docs)
    requires s.manager.writing.maxDocs > 0 && RewriteNext(s, docs) == Ok(next)
    ensures next.maxDocs > 0
    ensures var (t, outcome) := RewriteTo(s, schema, docs, next, aborts);
            if outcome.Failed? then t == s && outcome.error == PublishFailed else RewriteDone(s, t, schema, docs)
  {
    hide Layout, Bijection, Replay, Index, Flatten, DocumentRuns, KeysOf, PayloadsOf, AddAll, RewriteAccepted, ManifestValid;
    LiveManager(s);
    NextFreeIDFollows(s);
    var firstID := Max(s.manifest.nextSegmentID, s.reservedNextSegmentID);
    RewriteBuilds(s.manager, s.manifest.maxDocs, docs, firstID, next);
    var r := Manager(SegmentsFrom(firstID, DocumentRuns(docs, s.manifest.maxDocs)), next, s.manager.primary, {});
    RewrittenCheckpoint(s, schema, r);
    CleanStore(RewriteTo(s, schema, docs, next, aborts).0);
  }

  /** RewriteDocuments either changes nothing the reader sees or shows exactly the new payloads
      under the same keys; only the environment or exhausted ID spaces can stop an accepted one. */
  lemma RewriteKeeps(s: Store, schema: Bytes, docs: seq<Document>, fate: PublishFate)
    requires StoreInv(s)
    ensures s.manager.writing.maxDocs > 0
    ensures var (t, outcome) := Rewrite(s, schema, docs, fate);
            && StoreInv(t)
            && t.poisoned == s.poisoned
            && t.manager.primary == s.manager.primary
            && (outcome.Failed? ==> t.manager == s.manager && t.manifest == s.manifest && t.wal.records == s.wal.records)
            && (outcome.Done? ==> RewriteDone(s, t, schema, docs))
            && (outcome.Failed? && RewriteAccepted(s.manager, docs) ==>
                  outcome.error in {Poisoned, SyncFailed, IDSpaceExhausted, PublishFailed})
  {
    hide Layout, Bijection, Replay, Index, Flatten, DocumentRuns, KeysOf, PayloadsOf, RewriteTo;
    LiveManager(s);
    NextFreeIDFollows(s);
    if RewriteAccepted(s.manager, docs) {
      RewriteStays(s, schema, docs, fate);
      var (t, outcome) := Rewrite(s, schema, docs, fate);
      assert outcome.Done? ==> RewriteDone(s, t, schema, docs);
    }
  }

  lemma RewriteStays(s: Store, schema: Bytes, docs: seq<Document>, fate: PublishFate)
    requires StoreInv(s) && s.manager.writing.maxDocs > 0 && RewriteAccepted(s.manager, docs)
    ensures var (t, outcome) := Rewrite(s, schema, docs, fate);
            && (outcome.Done? ==> RewriteDone(s, t, schema, docs))
            && (outcome.Failed? ==> StoreInv(t) && t.poisoned == s.poisoned && t.manager == s.manager
                                    && t.manifest == s.manifest && t.wal.records == s.wal.records
                                    && outcome.error in {Poisoned, SyncFailed, IDSpaceExhausted, PublishFailed})
  {
    hide Layout, Bijection, Replay, Index, Flatten, DocumentRuns, KeysOf, PayloadsOf, RewriteTo, RewriteAccepted;
    LiveManager(s);
    SyncKeeps(s, fate.syncFails);
    NextFreeIDFollows(s);
    RewriteBelow(s, docs);
    var t := s.(wal := SyncWal(s.wal, fate.syncFails).0);
    if RewriteNext(t, docs).Ok? && SyncWal(s.wal, fate.syncFails).1.Done? {
      RewriteToKeeps(t, schema, docs, RewriteNext(t, docs).value, fate.aborts);
    }
  }

  lemma RewriteBelow(s: Store, docs: seq<Document>)
    requires StoreInv(s) && s.manager.writing.maxDocs > 0 && RewriteAccepted(s.manager, docs)
    ensures docs != [] ==> docs[|docs| - 1].docID < s.manager.writing.minDocID + |s.manager.writing.docs|
  {
    LiveManager(s);
    RewriteDocs(s.manager, s.manifest.maxDocs, docs);
  }
}
