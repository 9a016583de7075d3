/** The segment manager: immutable segments, the writing segment, the IDMap and the delete set,
    with the recovery interpreter that WAL replay runs over it. */
module Managers {
  import opened Keys
  import opened Segments

  datatype Manager = Manager(immutable: seq<Segment>, writing: WriteSegment,
                             primary: map<Bytes, nat>, deletes: set<nat>)

  datatype OperationKind = Insert | Upsert | Update | Delete

  /** One logged mutation. A delete carries the ID it hides and no payload. */
  datatype Operation = Operation(kind: OperationKind, docID: nat, key: Bytes, payload: Bytes)

  function AllDocs(m: Manager): seq<Document> {
    Flatten(m.immutable) + m.writing.docs
  }

  /** The key to payload map a reader sees. */
  function Contents(m: Manager): map<Bytes, Bytes> {
    Visible(Index(AllDocs(m)), m.primary)
  }

  function Visible(index: map<nat, Document>, primary: map<Bytes, nat>): map<Bytes, Bytes> {
    map key | key in primary && primary[key] in index :: index[primary[key]].payload
  }

  // ----- Segment bookkeeping -------------------------------------------------

  function MinID(s: Segment): nat
    requires s.docs != []
  {
    s.docs[0].docID
  }

  function MaxID(s: Segment): nat
    requires s.docs != []
  {
    s.docs[|s.docs| - 1].docID
  }

  predicate Overlaps(a: Segment, b: Segment) {
    a.docs != [] && b.docs != [] && MinID(a) <= MaxID(b) && MinID(b) <= MaxID(a)
  }

  /** Index of the first segment whose minimum ID is at least `min`. */
  function InsertPosition(segments: seq<Segment>, min: nat): (i: nat)
    ensures i <= |segments|
  {
    if segments == [] || (segments[0].docs != [] && MinID(segments[0]) >= min) then 0
    else 1 + InsertPosition(segments[1..], min)
  }

  function AddImmutable(segments: seq<Segment>, s: Segment): Result<seq<Segment>, StorageError> {
    if s.docs == [] then Err(SegmentConflict)
    else if exists i :: 0 <= i < |segments| && segments[i].id == s.id then Err(SegmentConflict)
    else if exists i :: 0 <= i < |segments| && Overlaps(s, segments[i]) then Err(SegmentConflict)
    else
      var at := InsertPosition(segments, MinID(s));
      Ok(segments[..at] + [s] + segments[at..])
  }

  function AddAll(segments: seq<Segment>, more: seq<Segment>): Result<seq<Segment>, StorageError>
    decreases |more|
  {
    if more == [] then Ok(segments)
    else
      match AddImmutable(segments, more[0])
      case Err(e) => Err(e)
      case Ok(next) => AddAll(next, more[1..])
  }

  /** A writing segment fits when its ID is new and its whole reserved range is free. */
  predicate WritingFits(segments: seq<Segment>, w: WriteSegment)
    requires w.maxDocs > 0
  {
    && (forall i :: 0 <= i < |segments| ==> segments[i].id != w.id)
    && (forall i :: 0 <= i < |segments| && segments[i].docs != [] ==>
          w.ReservedMax() < MinID(segments[i]) || MaxID(segments[i]) < w.minDocID)
  }

  function RotateWriting(m: Manager, sealed: Segment, next: WriteSegment): Result<Manager, StorageError>
    requires next.maxDocs > 0
  {
    if m.writing.id != sealed.id || next.id == sealed.id || sealed.docs == [] then Err(SegmentConflict)
    else if exists i :: 0 <= i < |m.immutable| && m.immutable[i].id == sealed.id then Err(SegmentConflict)
    else if exists i :: 0 <= i < |m.immutable| && Overlaps(sealed, m.immutable[i]) then Err(SegmentConflict)
    else if !WritingFits(m.immutable + [sealed], next) then Err(SegmentConflict)
    else
      var at := InsertPosition(m.immutable, MinID(sealed));
      Ok(m.(immutable := m.immutable[..at] + [sealed] + m.immutable[at..], writing := next))
  }

  // ----- Invariants ------------------------------------------------------------

  ghost predicate Block(docs: seq<Document>, maxDocs: nat) {
    && 0 < |docs| <= maxDocs
    && forall i :: 0 <= i < |docs| ==> docs[i].docID == docs[0].docID + i
  }

  /** Ordered, disjoint blocks of consecutive IDs under distinct segment IDs. */
  ghost predicate SegmentsOK(segments: seq<Segment>, maxDocs: nat) {
    && (forall i :: 0 <= i < |segments| ==> Block(segments[i].docs, maxDocs))
    && (forall i, j :: 0 <= i < j < |segments| ==> MaxID(segments[i]) < MinID(segments[j]))
    && (forall i, j :: 0 <= i < j < |segments| ==> segments[i].id != segments[j].id)
  }

  ghost predicate WritingOK(w: WriteSegment, maxDocs: nat) {
    && 0 < maxDocs == w.maxDocs
    && |w.docs| <= maxDocs
    && w.minDocID + maxDocs - 1 <= MAX_UINT64
    && forall i :: 0 <= i < |w.docs| ==> w.docs[i].docID == w.minDocID + i
  }

  ghost predicate Layout(m: Manager, maxDocs: nat) {
    && SegmentsOK(m.immutable, maxDocs)
    && WritingOK(m.writing, maxDocs)
    && (forall i :: 0 <= i < |m.immutable| ==> MaxID(m.immutable[i]) < m.writing.minDocID)
    && (forall i :: 0 <= i < |m.immutable| ==> m.immutable[i].id != m.writing.id)
  }

  /** The IDMap is a bijection between live keys and retained, undeleted versions stored
      under the same key, and only retained versions are marked deleted. */
  ghost predicate Bijection(index: map<nat, Document>, primary: map<Bytes, nat>, deletes: set<nat>) {
    && deletes <= index.Keys
    && (forall key :: key in primary ==>
          primary[key] in index && primary[key] !in deletes && index[primary[key]].key == key)
    && (forall id :: id in index && id !in deletes ==>
          index[id].key in primary && primary[index[id].key] == id)
  }

  /** Every retained version was admitted through the key, payload and ID checks. */
  ghost predicate Storable(docs: seq<Document>) {
    forall d :: d in docs ==>
      ValidPrimaryKey(d.key) && |d.payload| <= MAX_DOCUMENT_PAYLOAD_SIZE && d.docID <= MAX_UINT64
  }

  ghost predicate ManagerInv(m: Manager, maxDocs: nat) {
    && Layout(m, maxDocs)
    && Bijection(Index(AllDocs(m)), m.primary, m.deletes)
    && Storable(AllDocs(m))
  }

  /** Every retained ID lies below the next one to be assigned, and IDs ascend. */
  lemma {:induction false} SegmentIDs(segments: seq<Segment>, maxDocs: nat, bound: nat)
    requires SegmentsOK(segments, maxDocs)
    requires forall i :: 0 <= i < |segments| ==> MaxID(segments[i]) < bound
    ensures Ascending(Flatten(segments))
    ensures forall d :: d in Flatten(segments) ==> d.docID < bound
  {
    if segments != [] {
      var front, last := segments[..|segments| - 1], segments[|segments| - 1];
      SegmentIDs(front, maxDocs, MinID(last));
      forall d | d in last.docs ensures MinID(last) <= d.docID < bound {
        var i :| 0 <= i < |last.docs| && last.docs[i] == d;
        assert last.docs[|last.docs| - 1].docID == last.docs[0].docID + (|last.docs| - 1);
      }
      FollowingAscends(Flatten(front), last.docs, MinID(last), bound);
    }
  }

  /** Documents below a bound, followed by documents from it on, ascend as a whole. */
  lemma FollowingAscends(front: seq<Document>, later: seq<Document>, middle: nat, bound: nat)
    requires Ascending(front) && Ascending(later) && later != []
    requires (forall d :: d in front ==> d.docID < middle) && (forall d :: d in later ==> middle <= d.docID < bound)
    ensures Ascending(front + later) && forall d :: d in front + later ==> d.docID < bound
  {
    var all := front + later;
    assert later[0] in later;
    forall i, j | 0 <= i < j < |all| ensures all[i].docID < all[j].docID {
      if i < |front| <= j {
        assert all[i] in front && all[j] in later;
      }
    }
  }

  lemma ManagerIDs(m: Manager, maxDocs: nat)
    requires Layout(m, maxDocs)
    ensures Ascending(AllDocs(m))
    ensures forall d :: d in AllDocs(m) ==> d.docID < m.writing.minDocID + |m.writing.docs|
    ensures forall id :: id in Index(AllDocs(m)) ==> id < m.writing.minDocID + |m.writing.docs|
  {
    SegmentIDs(m.immutable, maxDocs, m.writing.minDocID);
    var sealed := Flatten(m.immutable);
    forall i, j | 0 <= i < j < |AllDocs(m)|
      ensures AllDocs(m)[i].docID < AllDocs(m)[j].docID
    {
      if i < |sealed| {
        assert sealed[i] in sealed;
      }
    }
    IndexMembers(AllDocs(m));
  }

  // ----- Recovery ----------------------------------------------------------------

  /** What replay does with one decoded record. */
  function ApplyRecovered(m: Manager, op: Operation): Result<Manager, StorageError> {
    match op.kind
    case Insert =>
      if op.key in m.primary then Err(KeyExists) else StoreVersion(m, op)
    case Upsert => StoreVersion(m, op)
    case Update =>
      if op.key !in m.primary then Err(KeyNotFound) else StoreVersion(m, op)
    case Delete =>
      if op.payload != [] then Err(DeleteHasPayload)
      else if op.key !in m.primary || m.primary[op.key] != op.docID then Err(KeyNotFound)
      else if !ValidPrimaryKey(op.key) then Err(InvalidKey)
      else Ok(m.(deletes := m.deletes + {op.docID}, primary := m.primary - {op.key}))
  }

  function StoreVersion(m: Manager, op: Operation): Result<Manager, StorageError> {
    match m.writing.ApplyExpected(op.docID, op.key, op.payload)
    case Err(e) => Err(e)
    case Ok(writing) =>
      var hidden := if op.key in m.primary then {m.primary[op.key]} else {};
      Ok(Manager(m.immutable, writing, m.primary[op.key := op.docID], m.deletes + hidden))
  }

  function Replay(m: Manager, log: seq<Operation>): Result<Manager, StorageError> {
    if log == [] then Ok(m)
    else
      match Replay(m, log[..|log| - 1])
      case Err(e) => Err(e)
      case Ok(before) => ApplyRecovered(before, log[|log| - 1])
  }

  /** Effect of one operation on the map a reader sees. */
  function ApplyChange(contents: map<Bytes, Bytes>, op: Operation): map<Bytes, Bytes> {
    if op.kind.Delete? then contents - {op.key} else contents[op.key := op.payload]
  }

  function ApplyChanges(contents: map<Bytes, Bytes>, log: seq<Operation>): map<Bytes, Bytes> {
    if log == [] then contents
    else ApplyChange(ApplyChanges(contents, log[..|log| - 1]), log[|log| - 1])
  }

  lemma StoreKeepsBijection(index: map<nat, Document>, primary: map<Bytes, nat>, deletes: set<nat>, d: Document)
    requires Bijection(index, primary, deletes)
    requires d.docID !in index
    ensures var hidden := if d.key in primary then {primary[d.key]} else {};
            Bijection(index[d.docID := d], primary[d.key := d.docID], deletes + hidden)
  {
  }

  lemma StoreChangesContents(index: map<nat, Document>, primary: map<Bytes, nat>, deletes: set<nat>, d: Document)
    requires Bijection(index, primary, deletes)
    requires d.docID !in index
    ensures Visible(index[d.docID := d], primary[d.key := d.docID]) == Visible(index, primary)[d.key := d.payload]
  {
  }

  lemma DeleteKeepsBijection(index: map<nat, Document>, primary: map<Bytes, nat>, deletes: set<nat>, key: Bytes)
    requires Bijection(index, primary, deletes)
    requires key in primary
    ensures Bijection(index, primary - {key}, deletes + {primary[key]})
    ensures Visible(index, primary - {key}) == Visible(index, primary) - {key}
  {
  }

  lemma StoreKeepsLayout(m: Manager, maxDocs: nat, op: Operation)
    requires Layout(m, maxDocs) && StoreVersion(m, op).Ok?
    ensures Layout(StoreVersion(m, op).value, maxDocs)
    ensures AllDocs(StoreVersion(m, op).value) == AllDocs(m) + [Document(op.docID, op.key, op.payload)]
    ensures op.docID == m.writing.minDocID + |m.writing.docs|
    ensures op.docID !in Index(AllDocs(m))
  {
    ManagerIDs(m, maxDocs);
  }

  lemma StoreVersionKeeps(m: Manager, maxDocs: nat, op: Operation)
    requires ManagerInv(m, maxDocs) && StoreVersion(m, op).Ok?
    ensures ManagerInv(StoreVersion(m, op).value, maxDocs)
    ensures Contents(StoreVersion(m, op).value) == Contents(m)[op.key := op.payload]
  {
    hide Bijection, Visible, Layout, Index, Flatten;
    var d := Document(op.docID, op.key, op.payload);
    StoreKeepsLayout(m, maxDocs, op);
    StoreKeepsStorable(m, maxDocs, op);
    IndexAppend(AllDocs(m), d);
    StoreKeepsBijection(Index(AllDocs(m)), m.primary, m.deletes, d);
    StoreChangesContents(Index(AllDocs(m)), m.primary, m.deletes, d);
  }

  lemma StoreKeepsStorable(m: Manager, maxDocs: nat, op: Operation)
    requires Layout(m, maxDocs) && Storable(AllDocs(m)) && StoreVersion(m, op).Ok?
    ensures Storable(AllDocs(m) + [Document(op.docID, op.key, op.payload)])
  {
    hide Flatten, SegmentsOK;
  }

  /** Replaying one accepted record keeps the invariant and performs exactly its change. */
  lemma ApplyRecoveredKeeps(m: Manager, maxDocs: nat, op: Operation)
    requires ManagerInv(m, maxDocs) && ApplyRecovered(m, op).Ok?
    ensures ManagerInv(ApplyRecovered(m, op).value, maxDocs)
    ensures Contents(ApplyRecovered(m, op).value) == ApplyChange(Contents(m), op)
  {
    hide Bijection, Visible, Index, Flatten;
    if op.kind.Delete? {
      DeleteKeepsBijection(Index(AllDocs(m)), m.primary, m.deletes, op.key);
    } else {
      StoreVersionKeeps(m, maxDocs, op);
    }
  }

  lemma {:induction false} ReplayKeeps(m: Manager, maxDocs: nat, log: seq<Operation>)
    requires ManagerInv(m, maxDocs) && Replay(m, log).Ok?
    ensures ManagerInv(Replay(m, log).value, maxDocs)
    ensures Contents(Replay(m, log).value) == ApplyChanges(Contents(m), log)
  {
    if log != [] {
      var front := log[..|log| - 1];
      ReplayKeeps(m, maxDocs, front);
      ApplyRecoveredKeeps(Replay(m, front).value, maxDocs, log[|log| - 1]);
    }
  }

  lemma ReplayAppend(m: Manager, log: seq<Operation>, op: Operation)
    ensures Replay(m, log + [op]) ==
            match Replay(m, log) case Err(e) => Err(e) case Ok(before) => ApplyRecovered(before, op)
    ensures forall c :: ApplyChanges(c, log + [op]) == ApplyChange(ApplyChanges(c, log), op)
  {
    assert (log + [op])[..|log|] == log;
  }

  /** A log that replays does so from every prefix. */
  lemma {:induction false} ReplayPrefix(m: Manager, log: seq<Operation>, n: nat)
    requires n <= |log| && Replay(m, log).Ok?
    ensures Replay(m, log[..n]).Ok?
    decreases |log| - n
  {
    if n == |log| {
      assert log[..n] == log;
    } else {
      ReplayPrefix(m, log, n + 1);
      assert log[..n + 1][..n] == log[..n];
    }
  }

  // ----- Consistency check at open -----------------------------------------------

  function Image(primary: map<Bytes, nat>): set<nat> {
    set key | key in primary :: primary[key]
  }

  /** Keys of the retained versions that are not marked deleted. */
  function LiveKeys(index: map<nat, Document>, deletes: set<nat>): map<nat, Bytes> {
    map id | id in index && id !in deletes :: index[id].key
  }

  predicate StateAccepted(known: set<nat>, live: map<nat, Bytes>, primary: map<Bytes, nat>, deletes: set<nat>) {
    && deletes <= known
    && |primary| == |live|
    && forall key :: key in primary ==> primary[key] in live && live[primary[key]] == key
  }

  lemma ImageSplit(primary: map<Bytes, nat>, key: Bytes)
    requires key in primary
    ensures Image(primary) == Image(primary - {key}) + {primary[key]}
  {
    var rest := primary - {key};
    forall x | x in Image(primary) ensures x in Image(rest) + {primary[key]} {
      var k :| k in primary && primary[k] == x;
      if k != key {
        assert k in rest && rest[k] == x;
      }
    }
    forall x | x in Image(rest) ensures x in Image(primary) {
      var k :| k in rest && rest[k] == x;
      assert k in primary && primary[k] == x;
    }
    assert primary[key] in Image(primary);
  }

  /** Distinct keys reach distinct IDs, so the IDMap's image is as large as the IDMap. */
  lemma {:induction false} ImageSize(primary: map<Bytes, nat>, live: map<nat, Bytes>)
    requires forall key :: key in primary ==> primary[key] in live && live[primary[key]] == key
    ensures |Image(primary)| == |primary|
    decreases |primary|
  {
    if primary == map[] {
      assert Image(primary) == {};
    } else {
      var key :| key in primary;
      var rest := primary - {key};
      ImageSplit(primary, key);
      assert rest.Keys == primary.Keys - {key};
      assert |rest| == |rest.Keys| && |primary| == |primary.Keys|;
      ImageSize(rest, live);
    }
  }

  lemma {:induction false} SubsetSize(a: set<nat>, b: set<nat>)
    requires a <= b
    ensures |a| <= |b|
    ensures |a| == |b| ==> a == b
    decreases |a|
  {
    if a != {} {
      var x :| x in a;
      SubsetSize(a - {x}, b - {x});
      assert b == (b - {x}) + {x};
    }
  }

  /** The check run at every open accepts exactly the states with a bijective IDMap. */
  lemma AcceptedIffBijection(index: map<nat, Document>, primary: map<Bytes, nat>, deletes: set<nat>)
    ensures StateAccepted(index.Keys, LiveKeys(index, deletes), primary, deletes) <==> Bijection(index, primary, deletes)
  {
    var live := LiveKeys(index, deletes);
    assert |live.Keys| == |live|;
    if StateAccepted(index.Keys, live, primary, deletes) {
      ImageSize(primary, live);
      assert Image(primary) <= live.Keys;
      SubsetSize(Image(primary), live.Keys);
      forall id | id in index && id !in deletes
        ensures index[id].key in primary && primary[index[id].key] == id
      {
        assert id in Image(primary);
      }
    }
    if Bijection(index, primary, deletes) {
      ImageSize(primary, live);
      forall id | id in live ensures id in Image(primary) {
        assert primary[index[id].key] == id;
      }
      assert Image(primary) == live.Keys;
    }
  }

  lemma LiveAppend(index: map<nat, Document>, deletes: set<nat>, d: Document)
    ensures LiveKeys(index[d.docID := d], deletes) ==
            if d.docID in deletes then LiveKeys(index, deletes) else LiveKeys(index, deletes)[d.docID := d.key]
  {
  }

  /** validateCollectionState: one pass collects retained and live versions, then the delete set
      and the IDMap are checked against them. */
  method ValidateState(docs: seq<Document>, primary: map<Bytes, nat>, deletes: set<nat>) returns (accepted: bool)
    ensures accepted <==> Bijection(Index(docs), primary, deletes)
  {
    var known: set<nat>, live: map<nat, Bytes> := {}, map[];
    for i := 0 to |docs|
      invariant known == Index(docs[..i]).Keys
      invariant live == LiveKeys(Index(docs[..i]), deletes)
    {
      IndexAppend(docs[..i], docs[i]);
      LiveAppend(Index(docs[..i]), deletes, docs[i]);
      assert docs[..i + 1] == docs[..i] + [docs[i]];
      known := known + {docs[i].docID};
      if docs[i].docID !in deletes {
        live := live[docs[i].docID := docs[i].key];
      }
    }
    assert docs[..|docs|] == docs;
    AcceptedIffBijection(Index(docs), primary, deletes);
    accepted := StateAccepted(known, live, primary, deletes);
  }
}
