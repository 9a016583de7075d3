/** Segment IDs over whole runs: whatever a compaction reserves in memory, no two installed, writing or
    in-flight segments share an ID. */
module SegmentIDs {
  import opened Common
  import opened Keys
  import opened Segments
  import opened Managers
  import opened Stores
  import opened Recovery
  import opened Rewrites
  import opened Runs
  import opened Compactions
  import opened CompactionProofs
  import opened Histories

  ghost predicate IDsAscend(segments: seq<Segment>) {
    forall i, j :: 0 <= i < j < |segments| ==> segments[i].id < segments[j].id
  }

  /** What an open compaction's replacement segments keep between steps. */
  ghost predicate InFlightOK(sys: System) {
    sys.maintenance.InProgress? ==>
      var p := sys.maintenance.compaction;
      IDsAscend(p.outputs) && (p.committed ==> p.prepared)
  }

  /** A preparation appends replacements under newly reserved IDs, and only before it has succeeded. */
  lemma PrepareAppends(s: Store, p: Compaction, fate: PrepareFate) returns (n: nat)
    ensures var q := Prepare(s, p, fate).1;
      var segments := SegmentsFrom(Max(s.manifest.nextSegmentID, s.reservedNextSegmentID), Replacements(p));
      && n <= |segments| && q.outputs == p.outputs + segments[..n]
      && (p.prepared ==> n == 0) && q.committed == p.committed && (p.prepared ==> q.prepared)
  {
    hide Without, DocumentRuns, Flatten, PurgedIDs, LayoutChanged;
    var q := Prepare(s, p, fate).1;
    var segments := SegmentsFrom(Max(s.manifest.nextSegmentID, s.reservedNextSegmentID), Replacements(p));
    assert segments[..0] == [] && p.outputs + [] == p.outputs;
    assert segments[..|segments|] == segments;
    if q.outputs == p.outputs {
      n := 0;
    } else if fate.WriteFails? && fate.written <= |segments| {
      n := fate.written;
    } else {
      n := |segments|;
    }
  }

  lemma AppendAscends(earlier: seq<Segment>, firstID: nat, blocks: seq<seq<Document>>, n: nat)
    requires IDsAscend(earlier) && n <= |blocks| && forall x :: x in earlier ==> x.id < firstID
    ensures IDsAscend(earlier + SegmentsFrom(firstID, blocks)[..n])
  {
    assert forall i :: 0 <= i < |earlier| ==> earlier[i] in earlier;
  }

  lemma CommitKeepsOutputs(s: Store, p: Compaction, fate: PublishFate)
    requires s.manager.writing.maxDocs > 0
    ensures var q := Commit(s, p, fate).1;
      q.outputs == p.outputs && q.prepared == p.prepared && (q.committed ==> p.committed || p.prepared)
  {
    hide InputsIntact, Compacted, CompactedManifest, ManifestValid;
  }

  lemma PrepareInFlight(sys: System, fate: PrepareFate)
    requires SystemInv(sys) && InFlightOK(sys) && sys.maintenance.InProgress?
    ensures var q := Prepare(sys.store, sys.maintenance.compaction, fate).1;
      IDsAscend(q.outputs) && (q.committed ==> q.prepared)
  {
    hide StoreInv, Refines, Captured, Progress, Prepare;
    var s, p := sys.store, sys.maintenance.compaction;
    var n := PrepareAppends(s, p, fate);
    var firstID := Max(s.manifest.nextSegmentID, s.reservedNextSegmentID);
    if p.prepared {
      NothingAppended(p.outputs, SegmentsFrom(firstID, Replacements(p)));
    } else {
      AppendAscends(p.outputs, firstID, Replacements(p), n);
    }
  }

  lemma NothingAppended(earlier: seq<Segment>, later: seq<Segment>)
    ensures earlier + later[..0] == earlier
  {
  }

  lemma StepInFlight(sys: System, e: Event)
    requires SystemInv(sys) && InFlightOK(sys) && sys.store.manager.writing.maxDocs > 0
    ensures InFlightOK(Step(sys, e))
  {
    hide SystemInv, Prepare, Commit, Write, Flush, Rewrite, PublishSchema, Reopen;
    match e
    case PrepareEvent(fate) =>
      if sys.maintenance.InProgress? {
        PrepareInFlight(sys, fate);
      }
    case CommitEvent(fate) =>
      if sys.maintenance.InProgress? {
        CommitKeepsOutputs(sys.store, sys.maintenance.compaction, fate);
      }
    case _ =>
  }

  lemma {:induction false} RunInFlight(sys: System, events: seq<Event>)
    requires SystemInv(sys) && InFlightOK(sys)
    ensures InFlightOK(Run(sys, events))
    decreases |events|
  {
    hide SystemInv, InFlightOK, Step;
    if events != [] {
      var n := |events| - 1;
      RunInFlight(sys, events[..n]);
      CapacityPositive(Run(sys, events[..n]));
      StepInFlight(Run(sys, events[..n]), events[n]);
    }
  }

  /** Every installed segment and the write segment. */
  function Installed(m: Manager): seq<nat> {
    seq(|m.immutable|, i requires 0 <= i < |m.immutable| => m.immutable[i].id) + [m.writing.id]
  }

  /** Replacements written but not yet installed. */
  function InFlight(maintenance: Maintenance): seq<nat> {
    if maintenance.NoCompaction? || maintenance.compaction.committed then []
    else
      var outputs := maintenance.compaction.outputs;
      seq(|outputs|, i requires 0 <= i < |outputs| => outputs[i].id)
  }

  ghost predicate NoRepeats(ids: seq<nat>) {
    forall i, j :: 0 <= i < j < |ids| ==> ids[i] != ids[j]
  }

  lemma DistinctIDs(s: Store, maintenance: Maintenance)
    requires Layout(s.manager, s.manifest.maxDocs)
    requires maintenance.InProgress? && !maintenance.compaction.committed ==>
      IDsAscend(maintenance.compaction.outputs) && OutputIDs(s, maintenance.compaction)
    ensures NoRepeats(Installed(s.manager) + InFlight(maintenance))
  {
    var a, b := Installed(s.manager), InFlight(maintenance);
    forall i, j | 0 <= i < |a| && 0 <= j < |b| ensures a[i] != b[j] {
      var x := maintenance.compaction.outputs[j];
      assert x in maintenance.compaction.outputs;
      if i < |s.manager.immutable| {
        assert s.manager.immutable[i] in s.manager.immutable;
      }
    }
  }

  lemma LayoutHolds(s: Store)
    requires StoreInv(s)
    ensures Layout(s.manager, s.manifest.maxDocs)
  {
    LiveManager(s);
  }

  /** After any sequence of events, published and in-flight segments have pairwise distinct IDs. */
  lemma EveryRunSegmentIDs(schema: Bytes, maxDocs: nat, syncEvery: nat, events: seq<Event>)
    requires 0 < maxDocs <= MAX_UINT64 + 1
    ensures SystemInv(Initial(schema, maxDocs, syncEvery))
    ensures var sys := Run(Initial(schema, maxDocs, syncEvery), events);
      NoRepeats(Installed(sys.store.manager) + InFlight(sys.maintenance))
  {
    hide Run, StoreInv, Layout, NoRepeats, Installed, InFlight, OutputIDs, Captured, Progress, InputIDs;
    InitialInv(schema, maxDocs, syncEvery);
    RunInFlight(Initial(schema, maxDocs, syncEvery), events);
    var sys := Run(Initial(schema, maxDocs, syncEvery), events);
    LayoutHolds(sys.store);
    DistinctIDs(sys.store, sys.maintenance);
  }
}
