/** When compaction is worth running, and that running it once is enough. */
module Optimization {
  import opened Common
  import opened Keys
  import opened Segments
  import opened Managers
  import opened Runs
  import opened Stores
  import opened Recovery
  import opened Rewrites
  import opened Compactions
  import opened CompactionProofs

  predicate MergeablePair(a: Segment, b: Segment, maximum: nat) {
    && a.docs != [] && b.docs != []
    && |a.docs| < maximum && MaxID(a) != MAX_UINT64 && MaxID(a) + 1 == MinID(b)
  }

  /** Mutable documents, logical deletions or two neighbours that one segment could hold. */
  predicate OptimizationNeeded(s: Store) {
    || s.manager.writing.docs != []
    || s.manager.deletes != {}
    || exists i :: 1 <= i < |s.manager.immutable|
         && MergeablePair(s.manager.immutable[i - 1], s.manager.immutable[i], s.manifest.maxDocs)
  }

  function BlocksOf(segments: seq<Segment>): seq<seq<Document>> {
    seq(|segments|, i requires 0 <= i < |segments| => segments[i].docs)
  }

  lemma {:induction false} ConcatBlocksOf(segments: seq<Segment>)
    ensures Concat(BlocksOf(segments)) == Flatten(segments)
    decreases |segments|
  {
    if segments != [] {
      assert BlocksOf(segments)[1..] == BlocksOf(segments[1..]);
      ConcatBlocksOf(segments[1..]);
      assert segments == [segments[0]] + segments[1..];
      FlattenConcat([segments[0]], segments[1..]);
      FlattenOne(segments[0]);
    }
  }

  ghost predicate NoMergeablePair(segments: seq<Segment>, maximum: nat) {
    forall i :: 1 <= i < |segments| ==> !MergeablePair(segments[i - 1], segments[i], maximum)
  }

  ghost predicate BoundedIDs(segments: seq<Segment>) {
    forall i :: 0 <= i < |segments| ==> segments[i].docs != [] && MaxID(segments[i]) <= MAX_UINT64 - 1
  }

  lemma SegmentsAreBlocks(segments: seq<Segment>, maximum: nat)
    requires SegmentsOK(segments, maximum)
    ensures Blocks(BlocksOf(segments), maximum)
  {
  }

  /** A segment pair can merge exactly when its blocks can. */
  lemma UnmergeableIsCanonical(segments: seq<Segment>, maximum: nat)
    requires BoundedIDs(segments) && NoMergeablePair(segments, maximum)
    ensures Canonical(BlocksOf(segments), maximum)
  {
    var blocks := BlocksOf(segments);
    forall i | 1 <= i < |blocks| ensures !Mergeable(blocks[i - 1], blocks[i], maximum) {
      assert !MergeablePair(segments[i - 1], segments[i], maximum);
    }
  }

  lemma SameBlocksSameBounds(segments: seq<Segment>, blocks: seq<seq<Document>>)
    requires BoundedIDs(segments) && blocks == BlocksOf(segments)
    ensures !LayoutChanged(segments, blocks)
  {
  }

  /** Bounds that agree carry a mergeable pair over to the blocks. */
  lemma MergeableCarries(a: Segment, b: Segment, x: seq<Document>, y: seq<Document>, maximum: nat)
    requires MergeablePair(a, b, maximum) && SameBounds(a, x) && SameBounds(b, y)
    ensures Mergeable(x, y, maximum)
  {
  }

  lemma CanonicalHasChanged(segments: seq<Segment>, runs: seq<seq<Document>>, maximum: nat)
    requires Canonical(runs, maximum) && !NoMergeablePair(segments, maximum)
    ensures LayoutChanged(segments, runs)
  {
    hide SameBounds, MergeablePair, Mergeable;
    var i :| 1 <= i < |segments| && MergeablePair(segments[i - 1], segments[i], maximum);
    if |runs| == |segments| && SameBounds(segments[i - 1], runs[i - 1]) && SameBounds(segments[i], runs[i]) {
      MergeableCarries(segments[i - 1], segments[i], runs[i - 1], runs[i], maximum);
    }
  }

  /** With nothing deleted, the layout changes exactly when some neighbours could merge. */
  lemma LayoutChangesIffMergeable(segments: seq<Segment>, maximum: nat)
    requires SegmentsOK(segments, maximum) && maximum > 0 && BoundedIDs(segments)
    ensures LayoutChanged(segments, DocumentRuns(Flatten(segments), maximum)) <==>
            exists i :: 1 <= i < |segments| && MergeablePair(segments[i - 1], segments[i], maximum)
  {
    hide Flatten, DocumentRuns, SegmentsOK, BoundedIDs, Canonical, Blocks, LayoutChanged, MergeablePair, BlocksOf, Concat;
    var blocks := BlocksOf(segments);
    ConcatBlocksOf(segments);
    if NoMergeablePair(segments, maximum) {
      SegmentsAreBlocks(segments, maximum);
      UnmergeableIsCanonical(segments, maximum);
      CanonicalBlocks(blocks, maximum);
      SameBlocksSameBounds(segments, blocks);
    } else {
      RunsAreCanonical(Flatten(segments), maximum);
      CanonicalHasChanged(segments, DocumentRuns(Flatten(segments), maximum), maximum);
    }
  }

  lemma BelowMax(s: Store)
    requires StoreInv(s)
    ensures BoundedIDs(s.manager.immutable)
  {
    LiveManager(s);
  }

  /** On a flushed store Prepare reports a change exactly when OptimizationNeeded said so. */
  lemma ChangedIffNeeded(s: Store, fate: PrepareFate)
    requires StoreInv(s) && Begin(s).Ok? && !fate.ReadFails?
    ensures Prepare(s, Begin(s).value, fate).1.changed <==> OptimizationNeeded(s)
  {
    hide Flatten, DocumentRuns, Layout, Bijection, Replay, Index, SegmentsOK, LayoutChanged, Without;
    var p := Begin(s).value;
    LiveManager(s);
    BeginTracks(s);
    BelowMax(s);
    PurgedGrows(p, Flatten(p.inputs));
    LayoutChangesIffMergeable(p.inputs, s.manifest.maxDocs);
    if p.deletes == {} {
      WithoutNothing(Flatten(p.inputs), {});
    }
  }

  lemma WholeMeansRuns(p: Compaction)
    requires Whole(p)
    ensures |p.outputs| == |Replacements(p)| && forall i :: 0 <= i < |p.outputs| ==> p.outputs[i].docs == Replacements(p)[i]
  {
  }

  lemma WholeIsCanonical(p: Compaction)
    requires Whole(p) && p.manifest.maxDocs > 0
    ensures forall i :: 1 <= i < |p.outputs| ==> !MergeablePair(p.outputs[i - 1], p.outputs[i], p.manifest.maxDocs)
  {
    WholeMeansRuns(p);
    RunsAreCanonical(Without(Flatten(p.inputs), p.deletes), p.manifest.maxDocs);
    assert Canonical(Replacements(p), p.manifest.maxDocs);
  }

  /** A commit of everything a complete preparation wrote leaves nothing to do. */
  lemma CommitSettles(s: Store, fate: PublishFate)
    requires StoreInv(s) && Begin(s).Ok?
    requires var (t, p, outcome) := Prepare(s, Begin(s).value, Completes);
             t.manager.writing.maxDocs > 0 && Commit(t, p, fate).2.Done?
    ensures var (t, p, outcome) := Prepare(s, Begin(s).value, Completes);
            !OptimizationNeeded(Commit(t, p, fate).0)
  {
    hide Flatten, DocumentRuns, Layout, Bijection, Replay, Index, SegmentsOK, LayoutChanged, Without, Commit, Contents;
    var (t, p, outcome) := Prepare(s, Begin(s).value, Completes);
    BeginTracks(s);
    PrepareTracks(s, Begin(s).value, Completes);
    CommitKeeps(t, p, fate);
    var u := Commit(t, p, fate).0;
    assert Later(t, p) == [];
    assert u.manager.immutable == p.outputs;
    WholeMeansRuns(p);
    WholeIsCanonical(p);
  }

  ghost predicate RoomForRound(s: Store)
    requires Begin(s).Ok?
  {
    |Replacements(Begin(s).value)| + Max(s.manifest.nextSegmentID, s.reservedNextSegmentID) <= MAX_UINT64
  }

  /** With room for its segment IDs a first preparation goes through and has written every replacement. */
  lemma FirstPreparation(s: Store)
    requires StoreInv(s) && Begin(s).Ok? && OptimizationNeeded(s) && RoomForRound(s)
    ensures var (t, p, outcome) := Prepare(s, Begin(s).value, Completes);
            && outcome == Done && p.prepared && p.changed && !p.closed && !p.committed && Whole(p)
            && p.inputs == Begin(s).value.inputs && p.deletes == Begin(s).value.deletes && p.manifest == s.manifest
            && t == s.(reservedNextSegmentID := t.reservedNextSegmentID)
  {
    ChangedIffNeeded(s, Completes);
    hide Flatten, DocumentRuns, StoreInv, LayoutChanged, Without, PurgedIDs, OptimizationNeeded;
  }

  /** An undisturbed round that was needed succeeds, given a usable log and room for its segment IDs, and
      leaves nothing to do. */
  lemma OneRoundIsEnough(s: Store)
    requires StoreInv(s) && Begin(s).Ok? && OptimizationNeeded(s)
    requires !s.wal.poisoned && RoomForRound(s)
    ensures var (t, p, prepared) := Prepare(s, Begin(s).value, Completes);
            && prepared == Done && t.manager.writing.maxDocs > 0
            && var (u, q, committed) := Commit(t, p, PublishFate(false, false));
               committed == Done && !OptimizationNeeded(u)
  {
    hide StoreInv, Prepare, Commit, Tracks, Whole, OptimizationNeeded, Replacements, RoomForRound;
    FirstPreparation(s);
    BeginTracks(s);
    PrepareTracks(s, Begin(s).value, Completes);
    var (t, p, prepared) := Prepare(s, Begin(s).value, Completes);
    CommitKeeps(t, p, PublishFate(false, false));
    CommitSettles(s, PublishFate(false, false));
  }
}
