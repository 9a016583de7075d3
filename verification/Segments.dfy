/** Stored documents, immutable segments and the one write segment. */
module Segments {
  import opened Keys

  datatype Document = Document(docID: nat, key: Bytes, payload: Bytes)

  /** A sealed segment file: its contents never change once written. */
  datatype Segment = Segment(id: nat, docs: seq<Document>)

  datatype StorageError =
    | InvalidKey
    | PayloadTooLarge
    | SegmentFull
    | UnexpectedDocumentID
    | IDSpaceExhausted
    | SegmentConflict
    | KeyExists
    | KeyNotFound
    | DeleteHasPayload
    | Poisoned
    | WalRefused
    | WalRecordTooLarge
    | SyncFailed
    | PublishFailed
    | Cancelled
    | ManifestCorrupt
    | CollectionCorrupt
    | FlushFirst
    | SchemaChanged
    | InputChanged
    | InvalidCall
    | RewriteMismatch

  /** The segment that accepts documents: contiguous IDs from `minDocID`, at most `maxDocs`. */
  datatype WriteSegment = WriteSegment(id: nat, minDocID: nat, maxDocs: nat, docs: seq<Document>) {

    function NextDocumentID(): Result<nat, StorageError> {
      if |docs| >= maxDocs then Err(SegmentFull) else Ok(minDocID + |docs|)
    }

    /** Last ID of the reserved range. */
    function ReservedMax(): nat
      requires maxDocs > 0
    {
      minDocID + maxDocs - 1
    }

    function ApplyExpected(expected: nat, key: Bytes, payload: Bytes): Result<WriteSegment, StorageError> {
      if !ValidPrimaryKey(key) then Err(InvalidKey)
      else if |payload| > MAX_DOCUMENT_PAYLOAD_SIZE then Err(PayloadTooLarge)
      else if |docs| >= maxDocs then Err(SegmentFull)
      else if minDocID + |docs| != expected then Err(UnexpectedDocumentID)
      else Ok(this.(docs := docs + [Document(expected, key, payload)]))
    }
  }

  function NewWriteSegment(id: nat, minDocID: nat, maxDocs: nat): Result<WriteSegment, StorageError> {
    if maxDocs == 0 then Err(InvalidCall)
    else if maxDocs - 1 + minDocID > MAX_UINT64 then Err(IDSpaceExhausted)
    else Ok(WriteSegment(id, minDocID, maxDocs, []))
  }

  function Flatten(segments: seq<Segment>): seq<Document> {
    if segments == [] then []
    else Flatten(segments[..|segments| - 1]) + segments[|segments| - 1].docs
  }

  lemma {:induction false} FlattenConcat(a: seq<Segment>, b: seq<Segment>)
    ensures Flatten(a + b) == Flatten(a) + Flatten(b)
    decreases |b|
  {
    if b == [] {
      assert a + b == a;
    } else {
      var front, last := b[..|b| - 1], b[|b| - 1];
      FlattenConcat(a, front);
      assert (a + b)[..|a + b| - 1] == a + front && (a + b)[|a + b| - 1] == last;
      assert Flatten(a) + (Flatten(front) + last.docs) == (Flatten(a) + Flatten(front)) + last.docs;
    }
  }

  lemma FlattenOne(segment: Segment)
    ensures Flatten([segment]) == segment.docs
  {
    assert [segment][..0] == [];
  }

  /** Every retained version, by document ID. Later entries win, though IDs never repeat. */
  function Index(docs: seq<Document>): map<nat, Document> {
    if docs == [] then map[]
    else
      var last := docs[|docs| - 1];
      Index(docs[..|docs| - 1])[last.docID := last]
  }

  lemma IndexAppend(docs: seq<Document>, d: Document)
    ensures Index(docs + [d]) == Index(docs)[d.docID := d]
  {
    assert (docs + [d])[..|docs|] == docs;
  }

  lemma {:induction false} IndexMembers(docs: seq<Document>)
    ensures forall d :: d in docs ==> d.docID in Index(docs)
    ensures forall id :: id in Index(docs) ==> Index(docs)[id] in docs && Index(docs)[id].docID == id
  {
    if docs != [] {
      IndexMembers(docs[..|docs| - 1]);
    }
  }

  ghost predicate Ascending(docs: seq<Document>) {
    forall i, j :: 0 <= i < j < |docs| ==> docs[i].docID < docs[j].docID
  }

  /** With ascending IDs the index finds every document. */
  lemma {:induction false} IndexFinds(docs: seq<Document>)
    requires Ascending(docs)
    ensures forall d :: d in docs ==> d.docID in Index(docs) && Index(docs)[d.docID] == d
  {
    if docs != [] {
      var front := docs[..|docs| - 1];
      IndexFinds(front);
      assert docs == front + [docs[|docs| - 1]];
    }
  }

  function Without(docs: seq<Document>, purged: set<nat>): seq<Document> {
    if docs == [] then []
    else
      var front := Without(docs[..|docs| - 1], purged);
      var last := docs[|docs| - 1];
      if last.docID in purged then front else front + [last]
  }

  lemma {:induction false} IndexWithout(docs: seq<Document>, purged: set<nat>)
    ensures Index(Without(docs, purged)) == Index(docs) - purged
  {
    if docs != [] {
      var front := docs[..|docs| - 1];
      var last := docs[|docs| - 1];
      IndexWithout(front, purged);
      if last.docID !in purged {
        IndexAppend(Without(front, purged), last);
      }
    }
  }

  lemma {:induction false} WithoutConcat(a: seq<Document>, b: seq<Document>, purged: set<nat>)
    ensures Without(a + b, purged) == Without(a, purged) + Without(b, purged)
    decreases |b|
  {
    if b == [] {
      assert a + b == a;
    } else {
      var front := b[..|b| - 1];
      WithoutConcat(a, front, purged);
      assert (a + b)[..|a + b| - 1] == a + front;
    }
  }
}
