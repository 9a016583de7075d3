/** What holds between a store and a compaction in progress, and why Commit is invisible to
    readers, to recovery and to later maintenance. */
module CompactionProofs {
  import opened Common
  import opened Keys
  import opened Segments
  import opened Managers
  import opened Runs
  import opened Stores
  import opened Recovery
  import opened Rewrites
  import opened Compactions

  // ----- The captured inputs --------------------------------------------------------------------

  ghost predicate Captured(p: Compaction) {
    && SegmentsOK(p.inputs, p.manifest.maxDocs)
    && p.manifest.maxDocs > 0
    && p.deletes <= Index(Flatten(p.inputs)).Keys
    && Storable(Flatten(p.inputs))
  }

  /** The inputs are still the oldest installed segments and their deletions are checkpointed. */
  ghost predicate Extends(s: Store, p: Compaction) {
    && p.inputs <= s.manager.immutable
    && p.deletes <= s.manifest.deleteSnapshot
  }

  /** A rewrite replaced them all in the meantime. */
  ghost predicate Replaced(s: Store, p: Compaction) {
    p.inputs != [] && IDsOf(p.inputs) !! IDsOf(s.manager.immutable)
  }

  ghost predicate InputIDs(s: Store, p: Compaction) {
    forall x :: x in p.inputs ==> x.id < s.manifest.nextSegmentID && x.id != s.manager.writing.id
  }

  ghost predicate OutputIDs(s: Store, p: Compaction) {
    forall x :: x in p.outputs ==>
      x.id < s.reservedNextSegmentID && x.id !in IDsOf(s.manager.immutable) && x.id != s.manager.writing.id
  }

  /** Outputs of one complete preparation. */
  ghost predicate Whole(p: Compaction) {
    p.outputs == SegmentsFrom(if p.outputs == [] then 0 else p.outputs[0].id, Replacements(p))
  }

  /** A preparation retried after a failed one leaves two copies of the first block. */
  ghost predicate Clash(outputs: seq<Segment>) {
    exists i, j :: 0 <= i < j < |outputs| && Overlaps(outputs[j], outputs[i])
  }

  ghost predicate Progress(p: Compaction) {
    && ToSet(p.purged) <= p.deletes
    && (p.prepared ==> ToSet(p.purged) == p.deletes)
    && (p.prepared && p.changed ==> Whole(p) || Clash(p.outputs))
    && (!p.prepared && p.outputs != [] ==> Replacements(p) != [] && p.outputs[0].docs == Replacements(p)[0])
  }

  /** The relation every step of the store keeps with an open compaction. */
  ghost predicate Tracks(s: Store, p: Compaction) {
    && Captured(p)
    && p.manifest.maxDocs == s.manifest.maxDocs
    && Progress(p)
    && (!p.committed ==> (Extends(s, p) || Replaced(s, p)) && InputIDs(s, p) && OutputIDs(s, p))
  }

  lemma BeginTracks(s: Store)
    requires StoreInv(s) && Begin(s).Ok?
    ensures Tracks(s, Begin(s).value) && Extends(s, Begin(s).value)
    ensures Begin(s).value.inputs == s.manager.immutable
  {
    LiveManager(s);
    assert s.wal.records == [];
    assert AllDocs(s.manager) == Flatten(s.manager.immutable);
  }

  /** Closing the handle changes nothing the relation speaks of. */
  lemma CloseTracks(s: Store, p: Compaction)
    requires Tracks(s, p)
    ensures Tracks(s, p.(closed := true))
  {
  }

  // ----- Prepare ---------------------------------------------------------------------------------

  lemma PurgedGrows(p: Compaction, seen: seq<Document>)
    requires Captured(p) && ToSet(p.purged) <= p.deletes && seen <= Flatten(p.inputs)
    ensures ToSet(p.purged + PurgedIDs(seen, p.deletes)) <= p.deletes
    ensures seen == Flatten(p.inputs) ==> ToSet(p.purged + PurgedIDs(seen, p.deletes)) == p.deletes
    ensures seen == Flatten(p.inputs) ==> (p.purged + PurgedIDs(seen, p.deletes) == [] <==> p.deletes == {})
  {
    PurgedIDsAre(seen, p.deletes);
    var both := p.purged + PurgedIDs(seen, p.deletes);
    assert ToSet(both) == ToSet(p.purged) + ToSet(PurgedIDs(seen, p.deletes));
    if seen == Flatten(p.inputs) && both != [] {
      assert both[0] in ToSet(both);
    }
  }

  lemma SegmentsFromIDs(firstID: nat, blocks: seq<seq<Document>>)
    ensures forall x :: x in SegmentsFrom(firstID, blocks) ==> firstID <= x.id < firstID + |blocks|
  {
  }

  lemma FirstBlockClash(earlier: seq<Segment>, later: seq<Segment>, maxDocs: nat)
    requires earlier != [] && later != [] && earlier[0].docs == later[0].docs && Block(earlier[0].docs, maxDocs)
    ensures Clash(earlier + later)
  {
    var both := earlier + later;
    assert both[0] == earlier[0] && both[|earlier|] == later[0];
    BlockSpan(both[0], maxDocs);
    assert Overlaps(both[|earlier|], both[0]);
  }

  lemma ReplacementBlocks(p: Compaction)
    requires p.manifest.maxDocs > 0
    ensures Blocks(Replacements(p), p.manifest.maxDocs)
    ensures Concat(Replacements(p)) == Without(Flatten(p.inputs), p.deletes)
  {
    RunsPartition(Without(Flatten(p.inputs), p.deletes), p.manifest.maxDocs);
  }

  /** What Prepare does to the fields Progress speaks of. */
  lemma PrepareProgress(s: Store, p: Compaction, fate: PrepareFate)
    requires Captured(p) && Progress(p)
    ensures Progress(Prepare(s, p, fate).1)
  {
    hide Without, DocumentRuns, Flatten, Index, SegmentsOK, PurgedIDs, LayoutChanged, WriteReplacements, SegmentsFrom;
    var docs := Flatten(p.inputs);
    if p.closed || p.prepared {
    } else if fate.ReadFails? {
      PurgedGrows(p, Prefix(docs, fate.seen));
    } else {
      PurgedGrows(p, docs);
      var purged := p.purged + PurgedIDs(docs, p.deletes);
      WriteProgress(s, p, p.(purged := purged, changed := true), fate);
    }
  }

  /** Writing replacements, all or some of them, keeps what Progress says once everything was read. */
  lemma WriteProgress(s: Store, p: Compaction, q: Compaction, fate: PrepareFate)
    requires Captured(p) && Progress(p) && !p.prepared
    requires q == p.(purged := q.purged, changed := true) && ToSet(q.purged) == p.deletes
    ensures Progress(WriteReplacements(s, q, Replacements(p), fate).1)
  {
    hide Without, DocumentRuns, Flatten, Captured, Whole, Clash;
    var r := WriteReplacements(s, q, Replacements(p), fate).1;
    var segments := SegmentsFrom(Max(s.manifest.nextSegmentID, s.reservedNextSegmentID), Replacements(p));
    if r.outputs != p.outputs {
      WrittenBlocks(p);
      var n := if fate.WriteFails? && fate.written <= |segments| then fate.written else |segments|;
      assert segments[..|segments|] == segments;
      PrepareOutputs(p, r, segments, n);
    } else if r.prepared {
      NothingWritten(p, r, segments);
    }
  }

  lemma WrittenBlocks(p: Compaction)
    requires Captured(p)
    ensures Blocks(Replacements(p), p.manifest.maxDocs)
  {
    ReplacementBlocks(p);
  }

  lemma NothingWritten(p: Compaction, r: Compaction, segments: seq<Segment>)
    requires Progress(p) && !p.prepared && |segments| == |Replacements(p)|
    requires r.outputs == p.outputs + segments == p.outputs
    requires r.inputs == p.inputs && r.deletes == p.deletes && r.manifest == p.manifest
    ensures Whole(r)
  {
    hide Without, DocumentRuns, Flatten;
    assert |segments| == 0;
    assert Replacements(r) == [];
  }

  lemma PrepareOutputs(p: Compaction, q: Compaction, segments: seq<Segment>, n: nat)
    requires Captured(p) && Progress(p) && !p.prepared && Blocks(Replacements(p), p.manifest.maxDocs)
    requires segments == [] || segments == SegmentsFrom(segments[0].id, Replacements(p))
    requires |segments| == |Replacements(p)|
    requires q.manifest == p.manifest && q.inputs == p.inputs && q.deletes == p.deletes
    requires q.outputs != p.outputs && n <= |segments| && q.outputs == p.outputs + segments[..n]
    ensures Replacements(q) == Replacements(p) != []
    ensures q.outputs != [] && q.outputs[0].docs == Replacements(p)[0]
    ensures q.outputs == p.outputs + segments ==> Whole(q) || Clash(q.outputs)
  {
    assert n > 0;
    assert segments[0].docs == Replacements(p)[0];
    if p.outputs == [] {
      assert q.outputs[0] == segments[0];
    } else {
      assert q.outputs[0] == p.outputs[0];
      assert Block(Replacements(p)[0], p.manifest.maxDocs);
      FirstBlockClash(p.outputs, segments, p.manifest.maxDocs);
    }
  }

  lemma MaxSegmentIDs(s: Store)
    requires StoreInv(s)
    ensures forall x :: x in s.manager.immutable ==> x.id < s.manifest.nextSegmentID
    ensures s.manager.writing.id < s.manifest.nextSegmentID
    ensures forall id :: id in IDsOf(s.manager.immutable) ==> id < s.manifest.nextSegmentID
  {
    LiveManager(s);
  }

  /** What a preparation may change. */
  lemma PrepareShape(s: Store, p: Compaction, fate: PrepareFate)
    ensures var (t, q, outcome) := Prepare(s, p, fate);
      var firstID := Max(s.manifest.nextSegmentID, s.reservedNextSegmentID);
      && t == s.(reservedNextSegmentID := t.reservedNextSegmentID)
      && t.reservedNextSegmentID >= s.reservedNextSegmentID
      && q.inputs == p.inputs && q.deletes == p.deletes && q.manifest == p.manifest && q.committed == p.committed
      && (forall x :: x in q.outputs && x !in p.outputs ==>
            x in SegmentsFrom(firstID, Replacements(p)) && t.reservedNextSegmentID == firstID + |Replacements(p)|)
  {
    hide Without, DocumentRuns, Flatten, PurgedIDs, SegmentsFrom, LayoutChanged;
  }

  /** Preparation touches only the segment-ID reservation, and keeps the relation. */
  lemma PrepareTracks(s: Store, p: Compaction, fate: PrepareFate)
    requires StoreInv(s) && Tracks(s, p)
    ensures var (t, q, outcome) := Prepare(s, p, fate);
            && StoreInv(t) && Tracks(t, q)
            && t == s.(reservedNextSegmentID := t.reservedNextSegmentID)
            && t.reservedNextSegmentID >= s.reservedNextSegmentID
            && q.inputs == p.inputs && q.deletes == p.deletes && q.manifest == p.manifest
  {
    hide Prepare, WriteReplacements, Without, DocumentRuns, Flatten, Index, SegmentsOK, StoreInv, PurgedIDs, Progress, SegmentsFrom;
    MaxSegmentIDs(s);
    PrepareProgress(s, p, fate);
    PrepareShape(s, p, fate);
    SegmentsFromIDs(Max(s.manifest.nextSegmentID, s.reservedNextSegmentID), Replacements(p));
    ReserveKeeps(s, Prepare(s, p, fate).0);
  }

  lemma ReserveKeeps(s: Store, t: Store)
    requires StoreInv(s) && t == s.(reservedNextSegmentID := t.reservedNextSegmentID) && t.reservedNextSegmentID >= s.reservedNextSegmentID
    ensures StoreInv(t)
  {
    hide Replay, ManagerInv, CheckpointOK;
  }

  // ----- Commit ----------------------------------------------------------------------------------

  lemma {:induction false} RemainingPrefix(inputs: seq<Segment>, later: seq<Segment>, ids: set<nat>)
    requires forall x :: x in inputs ==> x.id in ids
    requires forall x :: x in later ==> x.id !in ids
    ensures Remaining(inputs + later, ids) == later
    decreases |inputs| + |later|
  {
    var all := inputs + later;
    if inputs != [] {
      assert all[1..] == inputs[1..] + later;
      RemainingPrefix(inputs[1..], later, ids);
    } else if later != [] {
      assert all == later && all[1..] == [] + later[1..];
      RemainingPrefix([], later[1..], ids);
    }
  }

  lemma {:induction false} AddAllConcat(segments: seq<Segment>, a: seq<Segment>, b: seq<Segment>)
    ensures AddAll(segments, a + b) ==
            match AddAll(segments, a) case Err(e) => Err(e) case Ok(next) => AddAll(next, b)
    decreases |a|
  {
    if a == [] {
      assert a + b == b;
    } else {
      assert (a + b)[1..] == a[1..] + b;
      match AddImmutable(segments, a[0])
      case Err(e) =>
      case Ok(next) => AddAllConcat(next, a[1..], b);
    }
  }

  /** A successful sequence of additions overlaps nothing that was there, nor itself. */
  lemma {:induction false} AddAllAvoids(segments: seq<Segment>, more: seq<Segment>)
    requires AddAll(segments, more).Ok?
    ensures forall x, y :: x in segments && y in more ==> !Overlaps(y, x)
    ensures !Clash(more)
    decreases |more|
  {
    if more != [] {
      var next := AddImmutable(segments, more[0]).value;
      AddAllAvoids(next, more[1..]);
      assert forall x :: x in segments ==> x in next;
      assert more[0] in next;
      forall i, j | 0 <= i < j < |more| ensures !Overlaps(more[j], more[i]) {
        assert more[j] == more[1..][j - 1];
        if i > 0 {
          assert more[i] == more[1..][i - 1];
        }
      }
    }
  }

  /** Segments installed after the captured inputs. */
  function Later(s: Store, p: Compaction): seq<Segment>
    requires p.inputs <= s.manager.immutable
  {
    s.manager.immutable[|p.inputs|..]
  }

  lemma {:induction false} AddAllFresh(segments: seq<Segment>, maxDocs: nat)
    requires SegmentsOK(segments, maxDocs)
    ensures AddAll([], segments) == Ok(segments)
  {
    assert [] + segments + [] == segments;
    AddAllMerges([], segments, [], maxDocs);
  }

  lemma SegmentsSuffix(segments: seq<Segment>, n: nat, maxDocs: nat)
    requires SegmentsOK(segments, maxDocs) && n <= |segments|
    ensures SegmentsOK(segments[n..], maxDocs) && SegmentsOK(segments[..n], maxDocs)
  {
    var tail := segments[n..];
    assert forall i :: 0 <= i < |tail| ==> tail[i] == segments[n + i];
  }

  /** Two layouts whose documents and IDs are apart concatenate into one. */
  lemma SegmentsConcat(front: seq<Segment>, back: seq<Segment>, maxDocs: nat)
    requires SegmentsOK(front, maxDocs) && SegmentsOK(back, maxDocs)
    requires forall i, j :: 0 <= i < |front| && 0 <= j < |back| ==>
               MaxID(front[i]) < MinID(back[j]) && front[i].id != back[j].id
    ensures SegmentsOK(front + back, maxDocs)
  {
    var all := front + back;
    assert forall i :: 0 <= i < |all| ==> all[i] == if i < |front| then front[i] else back[i - |front|];
  }

  /** Documents of an initial part of a layout lie below every later segment. */
  lemma InputsBelow(segments: seq<Segment>, n: nat, maxDocs: nat, k: nat)
    requires SegmentsOK(segments, maxDocs) && n <= k < |segments|
    ensures forall d :: d in Flatten(segments[..n]) ==> d.docID < MinID(segments[k])
  {
    SegmentsSuffix(segments, n, maxDocs);
    SegmentIDs(segments[..n], maxDocs, MinID(segments[k]));
  }

  lemma {:induction false} IndexDomain(docs: seq<Document>)
    ensures forall id :: id in Index(docs) ==> exists i :: 0 <= i < |docs| && docs[i].docID == id
  {
    IndexMembers(docs);
    forall id | id in Index(docs) ensures exists i :: 0 <= i < |docs| && docs[i].docID == id {
      var i :| 0 <= i < |docs| && docs[i] == Index(docs)[id];
    }
  }

  /** IDs purged from the front of an ascending list do not occur in the rest. */
  lemma TailUntouched(head: seq<Document>, tail: seq<Document>, purged: set<nat>)
    requires Ascending(head + tail) && purged <= Index(head).Keys
    ensures Without(head + tail, purged) == Without(head, purged) + tail
  {
    hide Index;
    IndexDomain(head);
    var all := head + tail;
    forall j | 0 <= j < |tail| ensures tail[j].docID !in purged {
      assert all[|head| + j] == tail[j];
      assert forall i :: 0 <= i < |head| ==> all[i] == head[i];
    }
    WithoutNothing(tail, purged);
    WithoutConcat(head, tail, purged);
  }

  lemma PurgedDocs(m: Manager, n: nat, maxDocs: nat, purged: set<nat>)
    requires Layout(m, maxDocs) && n <= |m.immutable|
    requires purged <= Index(Flatten(m.immutable[..n])).Keys
    ensures Without(AllDocs(m), purged) ==
            Without(Flatten(m.immutable[..n]), purged) + Flatten(m.immutable[n..]) + m.writing.docs
  {
    hide Layout, Index, Without, Flatten;
    ManagerIDs(m, maxDocs);
    var head, tail := Flatten(m.immutable[..n]), Flatten(m.immutable[n..]) + m.writing.docs;
    assert m.immutable[..n] + m.immutable[n..] == m.immutable;
    FlattenConcat(m.immutable[..n], m.immutable[n..]);
    assert AllDocs(m) == head + tail;
    TailUntouched(head, tail, purged);
    assert Without(head, purged) + tail == Without(head, purged) + Flatten(m.immutable[n..]) + m.writing.docs;
  }

  ghost predicate FreshOutputs(m: Manager, outputs: seq<Segment>) {
    forall x :: x in outputs ==> x.id !in IDsOf(m.immutable) && x.id != m.writing.id
  }

  lemma OutputsLayout(m: Manager, n: nat, maxDocs: nat, firstID: nat, purged: set<nat>)
    requires Layout(m, maxDocs) && n <= |m.immutable|
    ensures var outputs := SegmentsFrom(firstID, DocumentRuns(Without(Flatten(m.immutable[..n]), purged), maxDocs));
            && SegmentsOK(outputs, maxDocs)
            && Flatten(outputs) == Without(Flatten(m.immutable[..n]), purged)
    ensures forall d :: d in Without(Flatten(m.immutable[..n]), purged) ==> d in Flatten(m.immutable[..n])
  {
    var docs := Flatten(m.immutable[..n]);
    SegmentsSuffix(m.immutable, n, maxDocs);
    SegmentIDs(m.immutable[..n], maxDocs, m.writing.minDocID);
    WithoutAscends(docs, purged);
    WithoutMembers(docs, purged);
    RunsLayout(Without(docs, purged), firstID, maxDocs);
  }

  lemma OutputsBeforeLater(m: Manager, n: nat, maxDocs: nat, outputs: seq<Segment>, i: nat, j: nat)
    requires Layout(m, maxDocs) && n <= |m.immutable|
    requires SegmentsOK(outputs, maxDocs) && FreshOutputs(m, outputs)
    requires forall d :: d in Flatten(outputs) ==> d in Flatten(m.immutable[..n])
    requires i < |outputs| && n <= j < |m.immutable|
    ensures outputs[i].docs != [] && m.immutable[j].docs != []
    ensures MaxID(outputs[i]) < MinID(m.immutable[j]) && outputs[i].id != m.immutable[j].id
  {
    hide Flatten;
    LastInDocs(outputs, i, maxDocs);
    InputsBelow(m.immutable, n, maxDocs, j);
    assert outputs[i] in outputs;
    assert m.immutable[j].id in IDsOf(m.immutable);
  }

  /** Fresh segments holding only documents of the first `n` can stand in for them. */
  lemma ReplaceLayout(m: Manager, n: nat, maxDocs: nat, outputs: seq<Segment>, purged: set<nat>)
    requires Layout(m, maxDocs) && n <= |m.immutable|
    requires SegmentsOK(outputs, maxDocs) && FreshOutputs(m, outputs)
    requires forall d :: d in Flatten(outputs) ==> d in Flatten(m.immutable[..n])
    ensures Layout(Swap(m, outputs + m.immutable[n..], purged), maxDocs)
  {
    hide Flatten, SegmentsOK, FreshOutputs, WritingOK;
    var later := m.immutable[n..];
    SegmentsSuffix(m.immutable, n, maxDocs);
    ReplaceBelowWriting(m, n, maxDocs, outputs);
    forall i, j | 0 <= i < |outputs| && 0 <= j < |later|
      ensures later[j].docs != [] && MaxID(outputs[i]) < MinID(later[j]) && outputs[i].id != later[j].id
    {
      assert later[j] == m.immutable[n + j];
      OutputsBeforeLater(m, n, maxDocs, outputs, i, n + j);
    }
    SegmentsConcat(outputs, later, maxDocs);
    SwapLayout(m, n, maxDocs, outputs, purged);
  }

  lemma ReplaceBelowWriting(m: Manager, n: nat, maxDocs: nat, outputs: seq<Segment>)
    requires Layout(m, maxDocs) && n <= |m.immutable|
    requires SegmentsOK(outputs, maxDocs) && FreshOutputs(m, outputs)
    requires forall d :: d in Flatten(outputs) ==> d in Flatten(m.immutable[..n])
    ensures forall i :: 0 <= i < |outputs| ==>
              outputs[i].docs != [] && MaxID(outputs[i]) < m.writing.minDocID && outputs[i].id != m.writing.id
  {
    hide Flatten;
    SegmentsSuffix(m.immutable, n, maxDocs);
    SegmentIDs(m.immutable[..n], maxDocs, m.writing.minDocID);
    forall i | 0 <= i < |outputs|
      ensures outputs[i].docs != [] && MaxID(outputs[i]) < m.writing.minDocID && outputs[i].id != m.writing.id
    {
      LastInDocs(outputs, i, maxDocs);
      assert outputs[i] in outputs;
    }
  }

  lemma SwapLayout(m: Manager, n: nat, maxDocs: nat, outputs: seq<Segment>, purged: set<nat>)
    requires Layout(m, maxDocs) && n <= |m.immutable|
    requires SegmentsOK(outputs + m.immutable[n..], maxDocs)
    requires forall i :: 0 <= i < |outputs| ==>
               outputs[i].docs != [] && MaxID(outputs[i]) < m.writing.minDocID && outputs[i].id != m.writing.id
    ensures Layout(Swap(m, outputs + m.immutable[n..], purged), maxDocs)
  {
    var all := outputs + m.immutable[n..];
    forall i | 0 <= i < |all|
      ensures all[i].docs != [] && MaxID(all[i]) < m.writing.minDocID && all[i].id != m.writing.id
    {
      if i >= |outputs| {
        assert all[i] == m.immutable[n + i - |outputs|];
      } else {
        assert all[i] == outputs[i];
      }
    }
  }

  /** Swapping in the replacements drops exactly the purged versions and nothing a reader sees. */
  lemma SwapKeeps(m: Manager, n: nat, maxDocs: nat, outputs: seq<Segment>, purged: set<nat>)
    requires ManagerInv(m, maxDocs) && n <= |m.immutable|
    requires SegmentsOK(outputs, maxDocs) && FreshOutputs(m, outputs)
    requires Flatten(outputs) == Without(Flatten(m.immutable[..n]), purged)
    requires purged <= Index(Flatten(m.immutable[..n])).Keys && purged <= m.deletes
    ensures var r := Swap(m, outputs + m.immutable[n..], purged);
            && ManagerInv(r, maxDocs)
            && AllDocs(r) == Without(AllDocs(m), purged)
            && Contents(r) == Contents(m)
  {
    hide Layout, Flatten, Index, Without, Bijection, SegmentsOK, FreshOutputs, Visible;
    WithoutMembers(Flatten(m.immutable[..n]), purged);
    ReplaceLayout(m, n, maxDocs, outputs, purged);
    PurgedDocs(m, n, maxDocs, purged);
    FlattenConcat(outputs, m.immutable[n..]);
    IndexWithout(AllDocs(m), purged);
    WithoutMembers(AllDocs(m), purged);
    PurgeKeepsBijection(Index(AllDocs(m)), m.primary, m.deletes, purged);
  }

  /** The replacements of a complete preparation fit the live manager and the checkpoint alike. */
  lemma OutputsFit(s: Store, p: Compaction)
    requires StoreInv(s) && Tracks(s, p) && Extends(s, p) && Whole(p) && !p.committed
    ensures SegmentsOK(p.outputs, s.manifest.maxDocs)
    ensures Flatten(p.outputs) == Without(Flatten(p.inputs), p.deletes)
    ensures FreshOutputs(s.manager, p.outputs)
    ensures s.manager.immutable[..|p.inputs|] == p.inputs
  {
    hide Flatten, Without, Index, DocumentRuns, Replay, SegmentsOK, Bijection;
    LiveManager(s);
    assert s.manager.immutable[..|p.inputs|] == p.inputs;
    OutputsLayout(s.manager, |p.inputs|, s.manifest.maxDocs, if p.outputs == [] then 0 else p.outputs[0].id, p.deletes);
  }

  lemma LaterIDs(segments: seq<Segment>, n: nat, maxDocs: nat)
    requires SegmentsOK(segments, maxDocs) && n <= |segments|
    ensures forall x :: x in segments[n..] ==> x.id !in IDsOf(segments[..n])
  {
    forall x | x in segments[n..] ensures x.id !in IDsOf(segments[..n]) {
      var j :| 0 <= j < |segments[n..]| && segments[n..][j] == x;
      assert segments[n + j] == x;
      assert forall i :: 0 <= i < n ==> segments[..n][i] == segments[i];
    }
  }

  lemma IntactPrefix(inputs: seq<Segment>, segments: seq<Segment>, maxDocs: nat)
    requires SegmentsOK(segments, maxDocs) && inputs <= segments
    ensures InputsIntact(inputs, segments)
    ensures Remaining(segments, IDsOf(inputs)) == segments[|inputs|..]
  {
    hide SegmentsOK;
    var n, later := |inputs|, segments[|inputs|..];
    assert segments[..n] == inputs && segments == inputs + later;
    LaterIDs(segments, n, maxDocs);
    forall x | x in inputs ensures x in segments {
      var i :| 0 <= i < n && inputs[i] == x;
      assert segments[i] == x;
    }
    RemainingPrefix(inputs, later, IDsOf(inputs));
  }

  lemma InputsFound(s: Store, p: Compaction)
    requires StoreInv(s) && Tracks(s, p) && !p.committed
    ensures InputsIntact(p.inputs, s.manager.immutable) <==> Extends(s, p)
    ensures Extends(s, p) ==> Remaining(s.manager.immutable, IDsOf(p.inputs)) == Later(s, p)
  {
    hide Flatten, Without, Index, DocumentRuns, Replay, Bijection, Progress, Captured, InputIDs, OutputIDs, Remaining, SegmentsOK;
    LiveManager(s);
    if Extends(s, p) {
      IntactPrefix(p.inputs, s.manager.immutable, s.manifest.maxDocs);
    } else {
      assert p.inputs[0] in p.inputs && p.inputs[0].id in IDsOf(p.inputs);
    }
  }

  lemma MergeSplits(s: Store, p: Compaction)
    requires StoreInv(s) && Tracks(s, p) && Extends(s, p) && !p.committed
    ensures s.manager.writing.maxDocs > 0
    ensures AddAll([], Remaining(s.manager.immutable, IDsOf(p.inputs)) + p.outputs) == AddAll(Later(s, p), p.outputs)
  {
    hide Flatten, Without, Index, DocumentRuns, Replay, Bijection, Progress;
    LiveManager(s);
    InputsFound(s, p);
    SegmentsSuffix(s.manager.immutable, |p.inputs|, s.manifest.maxDocs);
    AddAllFresh(Later(s, p), s.manifest.maxDocs);
    AddAllConcat([], Later(s, p), p.outputs);
  }

  lemma MergeOutputs(s: Store, p: Compaction)
    requires StoreInv(s) && Tracks(s, p) && Extends(s, p) && !p.committed && Whole(p)
    ensures AddAll(Later(s, p), p.outputs) == Ok(p.outputs + Later(s, p))
    ensures s.manager.writing.maxDocs > 0 && WritingFits(p.outputs + Later(s, p), s.manager.writing)
  {
    hide Flatten, Without, Index, DocumentRuns, Replay, Bijection, Progress, SegmentsOK, FreshOutputs, AddAll, Storable, Captured, InputIDs, OutputIDs;
    LiveManager(s);
    var later, maxDocs := Later(s, p), s.manifest.maxDocs;
    OutputsFit(s, p);
    WithoutMembers(Flatten(p.inputs), p.deletes);
    ReplaceLayout(s.manager, |p.inputs|, maxDocs, p.outputs, p.deletes);
    assert [] + p.outputs + later == p.outputs + later && [] + later == later;
    AddAllMerges([], p.outputs, later, maxDocs);
    FreshWritingFits(Swap(s.manager, p.outputs + later, p.deletes), maxDocs, s.manager.writing);
  }

  /** Commit's merge succeeds when the preparation was complete, and fails when it was a retry
      whose outputs clash. */
  lemma MergeResult(s: Store, p: Compaction)
    requires StoreInv(s) && Tracks(s, p) && Extends(s, p) && !p.committed && p.prepared && p.changed
    ensures s.manager.writing.maxDocs > 0
    ensures Whole(p) ==> Compacted(s.manager, p) == Ok(Swap(s.manager, p.outputs + Later(s, p), p.deletes))
    ensures Clash(p.outputs) ==> Compacted(s.manager, p).Err?
  {
    hide Flatten, Without, Index, DocumentRuns, Replay, ManagerInv, Whole, Clash, WritingFits;
    MergeSplits(s, p);
    if Whole(p) {
      MergeOutputs(s, p);
    }
    if Clash(p.outputs) && AddAll(Later(s, p), p.outputs).Ok? {
      AddAllAvoids(Later(s, p), p.outputs);
    }
  }

  /** The published manifest is a well-formed checkpoint, and replaying the untouched WAL over it
      gives the compacted in-memory manager. */
  lemma CommitCheckpoint(s: Store, p: Compaction)
    requires StoreInv(s) && Tracks(s, p) && Extends(s, p) && !p.committed && Whole(p)
    requires ToSet(p.purged) == p.deletes
    ensures var segments := p.outputs + Later(s, p);
            var manifest := CompactedManifest(s, p, segments);
            && Checkpoint(manifest) == Swap(Checkpoint(s.manifest), segments, p.deletes)
            && CheckpointOK(manifest) && ManifestValid(manifest)
            && Replay(Checkpoint(manifest), s.wal.records) == Ok(Swap(s.manager, segments, p.deletes))
            && Replay(Checkpoint(manifest), s.wal.records + s.wal.torn).Ok?
  {
    hide Flatten, Without, Index, DocumentRuns, Replay, Layout, Bijection, Progress, SegmentsOK, FreshOutputs;
    LiveManager(s);
    MaxSegmentIDs(s);
    OutputsFit(s, p);
    var start, n, maxDocs := Checkpoint(s.manifest), |p.inputs|, s.manifest.maxDocs;
    var segments := p.outputs + Later(s, p);
    var manifest := CompactedManifest(s, p, segments);
    CheckpointFresh(s, p);
    SwapKeeps(start, n, maxDocs, p.outputs, p.deletes);
    CompactedIDs(s, p);
    assert Checkpoint(manifest) == Swap(start, segments, p.deletes);
    CheckpointValid(manifest);
    ReplayCommutesWithSwap(start, maxDocs, s.wal.records, segments, p.deletes);
    ReplayCommutesWithSwap(start, maxDocs, s.wal.records + s.wal.torn, segments, p.deletes);
  }

  lemma CheckpointFresh(s: Store, p: Compaction)
    requires StoreInv(s) && FreshOutputs(s.manager, p.outputs)
    ensures FreshOutputs(Checkpoint(s.manifest), p.outputs)
    ensures Checkpoint(s.manifest).immutable == s.manager.immutable
  {
    LiveManager(s);
  }

  lemma CompactedIDs(s: Store, p: Compaction)
    requires StoreInv(s) && Tracks(s, p) && Extends(s, p) && !p.committed
    ensures var manifest := CompactedManifest(s, p, p.outputs + Later(s, p));
            && (forall i :: 0 <= i < |manifest.persisted| ==> manifest.persisted[i].id < manifest.nextSegmentID)
            && manifest.writingID < manifest.nextSegmentID
  {
    hide Flatten, Without, Index, DocumentRuns, Replay, Layout, Bijection, Progress, SegmentsOK;
    MaxSegmentIDs(s);
    LiveManager(s);
    var manifest := CompactedManifest(s, p, p.outputs + Later(s, p));
    forall i | 0 <= i < |manifest.persisted| ensures manifest.persisted[i].id < manifest.nextSegmentID {
      if i < |p.outputs| {
        assert manifest.persisted[i] in p.outputs;
      } else {
        assert manifest.persisted[i] == s.manager.immutable[|p.inputs| + i - |p.outputs|];
        assert manifest.persisted[i] in s.manager.immutable;
      }
    }
  }

  /** Exactly when a commit goes through. */
  ghost predicate CommitReady(s: Store, p: Compaction, fate: PublishFate) {
    && p.prepared && p.changed && !p.closed && !p.committed
    && !s.poisoned && !s.wal.poisoned && !fate.syncFails && !fate.aborts
    && s.manifest.schema == p.manifest.schema
    && s.manifest.generation < MAX_UINT64
    && Extends(s, p) && Whole(p)
  }

  lemma WholeNeverClashes(s: Store, p: Compaction)
    requires StoreInv(s) && Tracks(s, p) && Extends(s, p) && !p.committed && p.prepared && p.changed
    ensures Whole(p) <==> !Clash(p.outputs)
  {
    hide Flatten, Without, Index, DocumentRuns, Replay, ManagerInv, Whole;
    if Whole(p) {
      OutputsFit(s, p);
      forall i, j | 0 <= i < j < |p.outputs| ensures !Overlaps(p.outputs[j], p.outputs[i]) {
        Apart(p.outputs, i, j, s.manifest.maxDocs);
      }
    }
  }

  /** The store that a successful commit leaves. */
  ghost predicate CommitDone(s: Store, p: Compaction, t: Store) {
    && p.inputs <= s.manager.immutable
    && t.manager == Swap(s.manager, p.outputs + Later(s, p), p.deletes)
    && AllDocs(t.manager) == Without(AllDocs(s.manager), p.deletes)
    && Contents(t.manager) == Contents(s.manager)
    && Contents(Checkpoint(t.manifest)) == Contents(Checkpoint(s.manifest))
    && t.wal.records == s.wal.records && t.wal.synced == |t.wal.records|
    && t.manifest.idMap == s.manifest.idMap
    && t.manifest.writingID == s.manifest.writingID
    && t.manifest.maxDocs == s.manifest.maxDocs
    && t.poisoned == s.poisoned
  }

  lemma CommitComputes(s: Store, p: Compaction, fate: PublishFate, manager: Manager)
    requires s.manager.writing.maxDocs > 0 && CommitReady(s, p, fate)
    requires InputsIntact(p.inputs, s.manager.immutable) && Compacted(s.manager, p) == Ok(manager)
    requires ManifestValid(CompactedManifest(s, p, manager.immutable))
    ensures var manifest := CompactedManifest(s, p, manager.immutable).(generation := s.manifest.generation + 1);
            Commit(s, p, fate) ==
            (s.(manifest := manifest, manager := manager, wal := SyncWal(s.wal, false).0), p.(committed := true), Done)
  {
    hide ManifestValid, InputsIntact, Extends, Whole;
  }

  /** The store that the steps of a ready commit produce. */
  function CommittedStore(s: Store, p: Compaction): Store
    requires p.inputs <= s.manager.immutable
  {
    var segments := p.outputs + Later(s, p);
    s.(manifest := CompactedManifest(s, p, segments).(generation := s.manifest.generation + 1),
       manager := Swap(s.manager, segments, p.deletes),
       wal := SyncWal(s.wal, false).0)
  }

  lemma CommittedInv(s: Store, p: Compaction)
    requires StoreInv(s) && Tracks(s, p) && Extends(s, p) && !p.committed && Whole(p) && !s.wal.poisoned
    requires ToSet(p.purged) == p.deletes
    ensures StoreInv(CommittedStore(s, p))
    ensures Contents(Checkpoint(CommittedStore(s, p).manifest)) == Contents(Checkpoint(s.manifest))
  {
    hide Flatten, Without, Index, DocumentRuns, Replay, ManagerInv, ManifestValid, SegmentsOK, FreshOutputs, Whole, Progress, Contents;
    CommitCheckpoint(s, p);
    OutputsFit(s, p);
    CheckpointFresh(s, p);
    var segments := p.outputs + Later(s, p);
    assert Checkpoint(CommittedStore(s, p).manifest) == Checkpoint(CompactedManifest(s, p, segments));
    SwapKeeps(Checkpoint(s.manifest), |p.inputs|, s.manifest.maxDocs, p.outputs, p.deletes);
  }

  lemma CommittedShows(s: Store, p: Compaction)
    requires StoreInv(s) && Tracks(s, p) && Extends(s, p) && !p.committed && Whole(p)
    ensures AllDocs(CommittedStore(s, p).manager) == Without(AllDocs(s.manager), p.deletes)
    ensures Contents(CommittedStore(s, p).manager) == Contents(s.manager)
  {
    hide Flatten, Without, Index, DocumentRuns, Replay, Layout, Bijection, SegmentsOK, FreshOutputs, Whole, Progress, Contents, AllDocs;
    LiveManager(s);
    OutputsFit(s, p);
    SwapKeeps(s.manager, |p.inputs|, s.manifest.maxDocs, p.outputs, p.deletes);
  }

  lemma CommitSucceeds(s: Store, p: Compaction, fate: PublishFate)
    requires StoreInv(s) && Tracks(s, p) && CommitReady(s, p, fate)
    ensures s.manager.writing.maxDocs > 0
    ensures var (t, q, outcome) := Commit(s, p, fate);
            outcome == Done && q == p.(committed := true) && StoreInv(t) && CommitDone(s, p, t)
  {
    hide Flatten, Without, Index, DocumentRuns, StoreInv, ManifestValid, Whole, Clash, Commit, InputsIntact, Contents, AllDocs;
    CommitTo(s, p, fate);
    CommittedInv(s, p);
    CommittedShows(s, p);
  }

  lemma CommitTo(s: Store, p: Compaction, fate: PublishFate)
    requires StoreInv(s) && Tracks(s, p) && CommitReady(s, p, fate)
    ensures s.manager.writing.maxDocs > 0
    ensures Commit(s, p, fate) == (CommittedStore(s, p), p.(committed := true), Done)
  {
    hide Flatten, Without, Index, DocumentRuns, Replay, ManagerInv, Whole, Clash, Commit, InputsIntact, ManifestValid;
    LiveManager(s);
    InputsFound(s, p);
    MergeResult(s, p);
    CommitCheckpoint(s, p);
    CommitComputes(s, p, fate, Swap(s.manager, p.outputs + Later(s, p), p.deletes));
  }

  /** A commit that is not ready changes nothing but the sync state of the log. */
  lemma CommitFails(s: Store, p: Compaction, fate: PublishFate)
    requires StoreInv(s) && Tracks(s, p) && !CommitReady(s, p, fate)
    ensures s.manager.writing.maxDocs > 0
    ensures var (t, q, outcome) := Commit(s, p, fate);
            && outcome.Failed? && q == p && StoreInv(t)
            && (t == s || t == s.(wal := SyncWal(s.wal, fate.syncFails).0))
  {
    hide Flatten, Without, Index, DocumentRuns, Layout, Bijection, ManifestValid, SegmentsOK, Extends, Whole, Clash, InputsIntact, Replay;
    LiveManager(s);
    SyncKeeps(s, fate.syncFails);
    if !p.committed {
      InputsFound(s, p);
      if Extends(s, p) && p.prepared && p.changed {
        MergeResult(s, p);
        WholeNeverClashes(s, p);
      }
    }
  }

  /** Commit is all or nothing: it succeeds exactly when ready, readers see the same map before and
      after, and the checkpoint it publishes shows what the previous one showed. */
  lemma CommitKeeps(s: Store, p: Compaction, fate: PublishFate)
    requires StoreInv(s) && Tracks(s, p)
    ensures s.manager.writing.maxDocs > 0
    ensures var (t, q, outcome) := Commit(s, p, fate);
            && StoreInv(t) && Tracks(t, q)
            && (outcome.Done? <==> CommitReady(s, p, fate))
            && Contents(t.manager) == Contents(s.manager)
            && Contents(Checkpoint(t.manifest)) == Contents(Checkpoint(s.manifest))
            && Survivors(t) == Survivors(s) && t.wal.records == s.wal.records && t.wal.synced >= s.wal.synced
            && t.manager.primary == s.manager.primary
            && (outcome.Done? ==> CommitDone(s, p, t) && t.manager.deletes == s.manager.deletes - p.deletes)
  {
    hide Flatten, Without, Index, DocumentRuns, Layout, Bijection, ManifestValid, SegmentsOK, Whole, Clash, Contents, Commit, Replay;
    if CommitReady(s, p, fate) {
      CommitSucceeds(s, p, fate);
      CommitTorn(s, p, fate);
      CommittedTracks(s, Commit(s, p, fate).0, p);
    } else {
      CommitFails(s, p, fate);
      SyncKeeps(s, fate.syncFails);
    }
  }

  lemma CommittedTracks(s: Store, t: Store, p: Compaction)
    requires Tracks(s, p) && t.manifest.maxDocs == s.manifest.maxDocs
    ensures Tracks(t, p.(committed := true))
  {
  }

  lemma CommitTorn(s: Store, p: Compaction, fate: PublishFate)
    requires s.manager.writing.maxDocs > 0
    ensures Commit(s, p, fate).0.wal.torn == s.wal.torn
  {
  }

  /** No log can tell the checkpoint a commit publishes from the one it replaced: whatever replays over the
      old one opens over both, as the same IDMap and map, and as the same manager but for the swap. */
  lemma CommitInvisibleToReplay(s: Store, p: Compaction, fate: PublishFate, log: seq<Operation>)
    requires StoreInv(s) && Tracks(s, p) && CommitReady(s, p, fate) && Replay(Checkpoint(s.manifest), log).Ok?
    ensures s.manager.writing.maxDocs > 0
    ensures var t := Commit(s, p, fate).0;
            && Open(s.manifest, log).Ok?
            && Open(t.manifest, log) == Ok(Swap(Open(s.manifest, log).value, t.manager.immutable, p.deletes))
            && Contents(Open(t.manifest, log).value) == Contents(Open(s.manifest, log).value)
  {
    hide Flatten, Without, Index, Layout, Bijection, Contents, Commit, Replay, Open, Whole, CompactedManifest, ManifestValid;
    CommitKeeps(s, p, fate);
    CommitTo(s, p, fate);
    CommitCheckpoint(s, p);
    var t := Commit(s, p, fate).0;
    var start, next := Checkpoint(s.manifest), Checkpoint(t.manifest);
    ReplayCommutesWithSwap(start, s.manifest.maxDocs, log, t.manager.immutable, p.deletes);
    OpenIsReplay(s.manifest, log);
    OpenIsReplay(t.manifest, log);
    ReplayKeeps(start, s.manifest.maxDocs, log);
    ReplayKeeps(next, t.manifest.maxDocs, log);
  }

  /** So whatever prefix of the log a crash leaves, on either side of the commit, the same map is recovered:
      no surviving record ever needs a purged document. */
  lemma CommitInvisibleToRecovery(s: Store, p: Compaction, fate: PublishFate, kept: nat)
    requires StoreInv(s) && Tracks(s, p) && CommitReady(s, p, fate) && kept <= |Survivors(s)|
    ensures s.manager.writing.maxDocs > 0
    ensures var t, log := Commit(s, p, fate).0, Survivors(s)[..kept];
            && Survivors(t) == Survivors(s)
            && Open(s.manifest, log).Ok? && Open(t.manifest, log).Ok?
            && Contents(Open(t.manifest, log).value) == Contents(Open(s.manifest, log).value)
            && Open(t.manifest, log).value.primary == Open(s.manifest, log).value.primary
  {
    hide Contents, Commit, Replay, Open, CommitReady, Tracks;
    ReplayPrefix(Checkpoint(s.manifest), Survivors(s), kept);
    CommitKeeps(s, p, fate);
    CommitInvisibleToReplay(s, p, fate, Survivors(s)[..kept]);
  }

  // ----- Other steps while a compaction is open ------------------------------------------------

  /** Steps that leave the installed segments and the checkpoint alone. */
  lemma TracksSteady(s: Store, t: Store, p: Compaction)
    requires Tracks(s, p)
    requires t.manager.immutable == s.manager.immutable && t.manager.writing.id == s.manager.writing.id
    requires t.manifest == s.manifest.(schema := t.manifest.schema, generation := t.manifest.generation)
    requires t.reservedNextSegmentID >= s.reservedNextSegmentID
    ensures Tracks(t, p)
  {
    hide Captured, Progress;
  }

  lemma WriteFrame(s: Store, kind: OperationKind, key: Bytes, payload: Bytes, fate: AppendFate)
    ensures var t := Write(s, kind, key, payload, fate).0;
            t.manifest == s.manifest && t.reservedNextSegmentID == s.reservedNextSegmentID
  {
  }

  lemma TracksWrite(s: Store, p: Compaction, kind: OperationKind, key: Bytes, payload: Bytes, fate: AppendFate)
    requires StoreInv(s) && Tracks(s, p)
    ensures Tracks(Write(s, kind, key, payload, fate).0, p)
  {
    hide Captured, Progress, Extends, Replaced, InputIDs, OutputIDs, Layout, Bijection, StoreInv, Write;
    WriteKeepsInv(s, kind, key, payload, fate);
    WriteFrame(s, kind, key, payload, fate);
    LiveManager(s);
    LiveManager(Write(s, kind, key, payload, fate).0);
    TracksSteady(s, Write(s, kind, key, payload, fate).0, p);
  }

  lemma TracksFlush(s: Store, p: Compaction, fate: PublishFate)
    requires StoreInv(s) && Tracks(s, p)
    ensures s.manager.writing.maxDocs > 0 && Tracks(Flush(s, fate).0, p)
  {
    hide Captured, Progress, Layout, Bijection, Replay, Index, Flatten, ManifestValid, Whole;
    FlushKeeps(s, fate);
    LiveManager(s);
    MaxSegmentIDs(s);
    var wal := SyncWal(s.wal, fate.syncFails).0;
    var t, u := s.(wal := wal), Flush(s, fate).0;
    SyncKeeps(s, fate.syncFails);
    if u.manifest == s.manifest {
      LiveManager(u);
      TracksSteady(s, u, p);
    } else {
      FlushToKeeps(t, NextWriting(t).value, fate.aborts);
      assert u.manager == Rotated(t.manager, NextWriting(t).value);
      TracksRotated(s, u, p, NextWriting(t).value);
    }
  }

  lemma TracksRotated(s: Store, u: Store, p: Compaction, next: WriteSegment)
    requires Tracks(s, p) && StoreInv(s)
    requires u.manager == Rotated(s.manager, next) && next.id == Max(s.manifest.nextSegmentID, s.reservedNextSegmentID)
    requires u.manifest.deleteSnapshot == s.manager.deletes && u.manifest.maxDocs == s.manifest.maxDocs
    requires u.manifest.nextSegmentID == next.id + 1 && u.reservedNextSegmentID == s.reservedNextSegmentID
    ensures Tracks(u, p)
  {
    hide Captured, Progress, Layout, Bijection, Replay, Index, Flatten, ManifestValid, Whole;
    LiveManager(s);
    MaxSegmentIDs(s);
    assert s.manager.immutable <= u.manager.immutable;
    assert IDsOf(u.manager.immutable) <= IDsOf(s.manager.immutable) + {s.manager.writing.id};
  }

  /** A rewrite retires every captured input, so a later commit can only refuse. */
  lemma TracksRewrite(s: Store, p: Compaction, schema: Bytes, docs: seq<Document>, fate: PublishFate)
    requires StoreInv(s) && Tracks(s, p)
    ensures s.manager.writing.maxDocs > 0 && Tracks(Rewrite(s, schema, docs, fate).0, p)
    ensures Rewrite(s, schema, docs, fate).1.Done? && p.inputs != [] ==> !Extends(Rewrite(s, schema, docs, fate).0, p) || p.committed
  {
    hide Captured, Progress, Layout, Bijection, Replay, Index, Flatten, ManifestValid, Whole, RewriteAccepted;
    RewriteKeeps(s, schema, docs, fate);
    LiveManager(s);
    var u := Rewrite(s, schema, docs, fate).0;
    if Rewrite(s, schema, docs, fate).1.Done? {
      RewriteIDs(s, schema, docs, fate);
      TracksReplaced(s, u, p);
    } else {
      assert u.reservedNextSegmentID == s.reservedNextSegmentID;
      TracksSteady(s, u, p);
    }
  }

  lemma RewriteIDs(s: Store, schema: Bytes, docs: seq<Document>, fate: PublishFate)
    requires StoreInv(s) && s.manager.writing.maxDocs > 0 && Rewrite(s, schema, docs, fate).1.Done?
    ensures var u := Rewrite(s, schema, docs, fate).0;
            var firstID := Max(s.manifest.nextSegmentID, s.reservedNextSegmentID);
            && (forall x :: x in u.manager.immutable ==> firstID <= x.id)
            && firstID <= u.manager.writing.id < u.manifest.nextSegmentID
            && u.reservedNextSegmentID == s.reservedNextSegmentID && u.manifest.maxDocs == s.manifest.maxDocs
  {
    hide Layout, Bijection, Replay, Index, Flatten, ManifestValid, DocumentRuns, KeysOf, RewriteAccepted, RewriteTo;
    LiveManager(s);
    NextFreeIDFollows(s);
    SyncKeeps(s, fate.syncFails);
    var t := s.(wal := SyncWal(s.wal, fate.syncFails).0);
    RewriteToIDs(t, schema, docs, fate.aborts);
  }

  lemma RewriteToIDs(s: Store, schema: Bytes, docs: seq<Document>, aborts: bool)
    requires StoreInv(s) && RewriteAccepted(s.manager, docs) && s.manager.writing.maxDocs > 0
    requires RewriteNext(s, docs).Ok? && RewriteNext(s, docs).value.maxDocs > 0
    requires RewriteTo(s, schema, docs, RewriteNext(s, docs).value, aborts).1.Done?
    ensures var u := RewriteTo(s, schema, docs, RewriteNext(s, docs).value, aborts).0;
            var firstID := Max(s.manifest.nextSegmentID, s.reservedNextSegmentID);
            && (forall x :: x in u.manager.immutable ==> firstID <= x.id)
            && firstID <= u.manager.writing.id < u.manifest.nextSegmentID
            && u.reservedNextSegmentID == s.reservedNextSegmentID && u.manifest.maxDocs == s.manifest.maxDocs
  {
    hide Layout, Bijection, Replay, Index, Flatten, ManifestValid, DocumentRuns, KeysOf, RewriteAccepted;
    LiveManager(s);
    NextFreeIDFollows(s);
    var firstID, next := Max(s.manifest.nextSegmentID, s.reservedNextSegmentID), RewriteNext(s, docs).value;
    RewriteInstalled(s, docs, firstID, next);
  }

  lemma RewriteInstalled(s: Store, docs: seq<Document>, firstID: nat, next: WriteSegment)
    requires StoreInv(s) && RewriteAccepted(s.manager, docs) && s.manager.writing.maxDocs > 0
    requires RewriteNext(s, docs) == Ok(next) && next.maxDocs > 0
    requires firstID == Max(s.manifest.nextSegmentID, s.reservedNextSegmentID)
    ensures var segments := SegmentsFrom(firstID, DocumentRuns(docs, s.manifest.maxDocs));
            RewrittenManager(segments, docs, next) == Ok(Manager(segments, next, s.manager.primary, {}))
  {
    hide ManagerInv, RewriteAccepted, DocumentRuns, RewrittenManager, Replay, CheckpointOK;
    LiveManager(s);
    NextFreeIDFollows(s);
    RewriteBuilds(s.manager, s.manifest.maxDocs, docs, firstID, next);
  }

  lemma TracksReplaced(s: Store, u: Store, p: Compaction)
    requires Tracks(s, p) && StoreInv(s)
    requires forall x :: x in u.manager.immutable ==> Max(s.manifest.nextSegmentID, s.reservedNextSegmentID) <= x.id
    requires Max(s.manifest.nextSegmentID, s.reservedNextSegmentID) <= u.manager.writing.id < u.manifest.nextSegmentID
    requires u.reservedNextSegmentID == s.reservedNextSegmentID && u.manifest.maxDocs == s.manifest.maxDocs
    ensures Tracks(u, p)
    ensures p.inputs != [] && !p.committed ==> !Extends(u, p)
  {
    hide Progress, Captured, StoreInv;
    if !p.committed {
      var firstID := Max(s.manifest.nextSegmentID, s.reservedNextSegmentID);
      ApartFrom(p.inputs, u.manager.immutable, firstID);
      ApartFrom(p.outputs, u.manager.immutable, firstID);
      assert forall x :: x in p.outputs ==> x.id in IDsOf(p.outputs);
      if p.inputs != [] {
        assert p.inputs[0] in p.inputs;
        assert u.manager.immutable != [] ==> u.manager.immutable[0] in u.manager.immutable;
      } else {
        NothingCaptured(p);
      }
    }
  }

  lemma NothingCaptured(p: Compaction)
    requires Captured(p) && p.inputs == []
    ensures p.deletes == {}
  {
  }

  /** Segments numbered below and from a bound share no ID. */
  lemma ApartFrom(below: seq<Segment>, above: seq<Segment>, bound: nat)
    requires (forall x :: x in below ==> x.id < bound) && (forall x :: x in above ==> bound <= x.id)
    ensures IDsOf(below) !! IDsOf(above)
  {
  }
}
