/** The compaction handle: it borrows the store, keeps captured and prepared data in its own
    fields, and takes the store through Begin, Prepare and Commit. */
module CompactionHandles {
  import opened Common
  import opened Keys
  import opened Segments
  import opened Managers
  import opened Runs
  import opened Stores
  import opened Recovery
  import opened Rewrites
  import opened Compactions
  import opened CompactionProofs
  import opened CollectionStores

  lemma NoIDs()
    ensures IDsOf([]) == {}
  {
  }

  lemma NothingRemains(ids: set<nat>)
    ensures Remaining([], ids) == []
  {
  }

  /** One more installed segment looked at. */
  lemma MatchStep(segments: seq<Segment>, i: nat, ids: set<nat>)
    requires i < |segments|
    ensures segments[..i + 1] == segments[..i] + [segments[i]]
    ensures IDsOf(segments[..i + 1]) == IDsOf(segments[..i]) + {segments[i].id}
    ensures Remaining(segments[i..], ids) ==
            (if segments[i].id in ids then [] else [segments[i]]) + Remaining(segments[i + 1..], ids)
  {
    assert segments[..i + 1] == segments[..i] + [segments[i]];
    assert segments[i..][1..] == segments[i + 1..];
  }

  lemma AllMatched(inputs: seq<Segment>, ids: set<nat>)
    ensures ids * IDsOf(inputs) == IDsOf(inputs) <==> forall x :: x in inputs ==> x.id in ids
  {
    if forall x :: x in inputs ==> x.id in ids {
      assert IDsOf(inputs) <= ids;
    } else {
      var x :| x in inputs && x.id !in ids;
      assert x.id in IDsOf(inputs);
    }
  }

  class CompactionHandle {
    const store: CollectionStore
    var manifest: Manifest
    var inputs: seq<Segment>
    var deletes: set<nat>
    var outputs: seq<Segment>
    var purged: seq<nat>
    var prepared: bool
    var changed: bool
    var committed: bool
    var closed: bool

    ghost function View(): Compaction
      reads this
    {
      Compaction(manifest, inputs, deletes, outputs, purged, prepared, changed, committed, closed)
    }

    ghost predicate Valid()
      reads this, store
    {
      store.Valid() && Tracks(store.View(), View())
    }

    /** BeginCompaction, once its guards have passed. */
    constructor Begin(store: CollectionStore)
      requires store.Valid() && Compactions.Begin(store.View()).Ok?
      ensures Valid() && this.store == store
      ensures View() == Compactions.Begin(store.View()).value
      ensures inputs == store.manager.immutable && deletes == store.manager.deletes
    {
      hide Tracks, StoreInv, Extends;
      this.store := store;
      manifest := store.manifest;
      inputs := store.manager.immutable;
      deletes := store.manager.deletes;
      outputs, purged := [], [];
      prepared, changed, committed, closed := false, false, false, false;
      new;
      BeginTracks(store.View());
    }

    /** Visit one input's records, stopping at the read failure if it comes. */
    method ReadRecords(records: seq<Document>, ghost seen: seq<Document>, survivors: seq<Document>, count: nat, fate: PrepareFate)
      returns (kept: seq<Document>, failed: bool)
      requires survivors == Without(seen, deletes) && count == |seen|
      requires fate.ReadFails? ==> count <= fate.seen
      modifies this`purged
      ensures failed <==> fate.ReadFails? && fate.seen < count + |records|
      ensures failed ==> purged == old(purged) + PurgedIDs(records[..fate.seen - count], deletes)
      ensures !failed ==> purged == old(purged) + PurgedIDs(records, deletes) && kept == Without(seen + records, deletes)
    {
      hide PurgedIDs, Without;
      kept := survivors;
      StartReading(deletes);
      assert seen + records[..0] == seen;
      for i := 0 to |records|
        invariant purged == old(purged) + PurgedIDs(records[..i], deletes) && kept == Without(seen + records[..i], deletes)
        invariant fate.ReadFails? ==> count + i <= fate.seen
      {
        if fate.ReadFails? && count + i == fate.seen {
          return kept, true;
        }
        var record := records[i];
        ReadStep(seen, records, i, deletes);
        if record.docID in deletes {
          purged := purged + [record.docID];
        } else {
          kept := kept + [record];
        }
      }
      assert records[..|records|] == records;
      failed := false;
    }

    /** Split the captured records into purged IDs and survivors, reading input by input. */
    method ReadInputs(fate: PrepareFate) returns (survivors: seq<Document>, failed: bool)
      modifies this`purged
      ensures failed == fate.ReadFails?
      ensures fate.ReadFails? ==> purged == old(purged) + PurgedIDs(Prefix(Flatten(inputs), fate.seen), deletes)
      ensures !fate.ReadFails? ==> purged == old(purged) + PurgedIDs(Flatten(inputs), deletes)
      ensures !fate.ReadFails? ==> survivors == Without(Flatten(inputs), deletes)
    {
      hide Flatten, PurgedIDs, Without, Prefix;
      survivors := [];
      var count := 0;
      StartReading(deletes);
      for k := 0 to |inputs|
        invariant count == |Flatten(inputs[..k])|
        invariant purged == old(purged) + PurgedIDs(Flatten(inputs[..k]), deletes)
        invariant survivors == Without(Flatten(inputs[..k]), deletes)
        invariant fate.ReadFails? ==> count <= fate.seen
      {
        ghost var seen := Flatten(inputs[..k]);
        var records := inputs[k].docs;
        FlattenStep(inputs, k);
        survivors, failed := ReadRecords(records, seen, survivors, count, fate);
        if failed {
          PurgedIDsConcat(seen, records[..fate.seen - count], deletes);
          PrefixIs(Flatten(inputs), seen, records, fate.seen - count);
          return;
        }
        PurgedIDsConcat(seen, records, deletes);
        count := count + |records|;
      }
      assert inputs[..|inputs|] == inputs;
      PrefixAll(Flatten(inputs));
      failed := fate.ReadFails?;
    }

    /** Prepare: read, compare layouts, reserve segment IDs under the lock, write replacements. */
    method Prepare(fate: PrepareFate) returns (outcome: Outcome)
      requires Valid()
      modifies this, store`reservedNextSegmentID
      ensures Valid()
      ensures (store.View(), View(), outcome) == Compactions.Prepare(old(store.View()), old(View()), fate)
      ensures store.Shown() == old(store.Shown())
    {
      hide Flatten, PurgedIDs, Without, DocumentRuns, Tracks, StoreInv, LayoutChanged, Contents, Blocks, Concat, Storable, Prefix,
        SegmentsFrom, WriteReplacements;
      ghost var s, p := store.View(), View();
      PrepareTracks(s, p, fate);
      CapturedBlocks(s, p);
      if closed || prepared {
        return Failed(InvalidCall);
      }
      var survivors, failed := ReadInputs(fate);
      if failed {
        return Failed(PublishFailed);
      }
      var runs := RewriteDocumentRuns(survivors, manifest.maxDocs);
      changed := purged != [] || LayoutChanged(inputs, runs);
      if !changed {
        prepared := true;
        return if fate.CancelledLate? then Failed(Cancelled) else Done;
      }
      outcome := ReserveAndWrite(runs, fate);
    }

    /** Reserve segment IDs in memory, then write one replacement per run. */
    method ReserveAndWrite(runs: seq<seq<Document>>, fate: PrepareFate) returns (outcome: Outcome)
      requires !fate.ReadFails? && (exists maximum :: Blocks(runs, maximum)) && Storable(Concat(runs))
      modifies this`outputs, this`prepared, store`reservedNextSegmentID
      ensures (store.View(), View(), outcome) == WriteReplacements(old(store.View()), old(View()), runs, fate)
    {
      hide Blocks, Concat, Storable, Prefix, SegmentsFrom;
      if store.poisoned {
        return Failed(Poisoned);
      }
      var firstID := Max(store.manifest.nextSegmentID, store.reservedNextSegmentID);
      if |runs| + firstID > MAX_UINT64 {
        return Failed(IDSpaceExhausted);
      }
      store.reservedNextSegmentID := firstID + |runs|;
      WholePrefix(firstID, runs);
      var written := WriteOutputs(firstID, runs, if fate.WriteFails? then fate.written else |runs|);
      outputs := outputs + written;
      if fate.WriteFails? {
        return Failed(PublishFailed);
      }
      prepared := true;
      outcome := if fate.CancelledLate? then Failed(Cancelled) else Done;
    }

    /** Remaining segments after every captured input was found installed and unchanged. */
    method MatchInputs() returns (intact: bool, remaining: seq<Segment>)
      requires Valid() && !committed
      ensures intact == InputsIntact(inputs, store.manager.immutable)
      ensures intact ==> remaining == Remaining(store.manager.immutable, IDsOf(inputs))
    {
      hide Tracks, StoreInv, IDsOf, Remaining;
      var segments := store.manager.immutable;
      remaining := [];
      var found: set<nat> := {};
      NoIDs();
      for i := 0 to |segments|
        invariant forall x :: x in segments[..i] && x.id in IDsOf(inputs) ==> x in inputs
        invariant found == IDsOf(segments[..i]) * IDsOf(inputs)
        invariant remaining + Remaining(segments[i..], IDsOf(inputs)) == Remaining(segments, IDsOf(inputs))
      {
        var segment := segments[i];
        MatchStep(segments, i, IDsOf(inputs));
        if segment.id in IDsOf(inputs) {
          if segment !in inputs {
            assert segment in segments;
            return false, [];
          }
          found := found + {segment.id};
        } else {
          remaining := remaining + [segment];
        }
      }
      assert segments[..|segments|] == segments && segments[|segments|..] == [];
      NothingRemains(IDsOf(inputs));
      AllMatched(inputs, IDsOf(segments));
      intact := found == IDsOf(inputs);
    }

    /** Commit: merge against the current state, purge both delete sets, publish, swap. */
    method Commit(fate: PublishFate) returns (outcome: Outcome)
      requires Valid()
      modifies this`committed, store`manifest, store`manager, store`wal
      ensures Valid()
      ensures old(store.manager).writing.maxDocs > 0
      ensures (store.View(), View(), outcome) == Compactions.Commit(old(store.View()), old(View()), fate)
      ensures outcome.Done? <==> CommitReady(old(store.View()), old(View()), fate)
      ensures store.Shown() == old(store.Shown())
      ensures outcome.Done? ==> store.manager.deletes == old(store.manager).deletes - deletes
    {
      hide Tracks, StoreInv, CommitReady, CommitDone, InputsIntact, Remaining, AddImmutable, AddAll, WritingFits, ManifestValid, Contents,
        AllDocs, Checkpoint, Compactions.Install;
      ghost var s, p := store.View(), View();
      CommitKeeps(s, p, fate);
      if !prepared || !changed || closed || committed {
        return Failed(InvalidCall);
      }
      if store.poisoned {
        return Failed(Poisoned);
      }
      if store.manifest.schema != manifest.schema {
        return Failed(SchemaChanged);
      }
      var intact, remaining := MatchInputs();
      if !intact {
        return Failed(InputChanged);
      }
      var deletions := Restore(store.manager.deletes, purged);
      var merged := AddInOrder(remaining + outputs);
      if merged.Err? {
        return Failed(merged.error);
      }
      if !WritingFits(merged.value, store.manager.writing) {
        return Failed(SegmentConflict);
      }
      var next := store.manifest.(persisted := merged.value,
        nextSegmentID := Max(store.manifest.nextSegmentID, store.reservedNextSegmentID));
      if purged != [] {
        var snapshot := Restore(store.manifest.deleteSnapshot, purged);
        next := next.(deleteSnapshot := snapshot);
      }
      assert next == CompactedManifest(s, p, merged.value);
      outcome := Install(next, Manager(merged.value, store.manager.writing, store.manager.primary, deletions), fate);
    }

    /** Check the next manifest, sync the log, publish, swap. */
    method Install(next: Manifest, manager: Manager, fate: PublishFate) returns (outcome: Outcome)
      modifies this`committed, store`manifest, store`manager, store`wal
      ensures (store.View(), View(), outcome) == Compactions.Install(old(store.View()), old(View()), manager, next, fate)
    {
      hide ManifestValid;
      if !ManifestValid(next) {
        return Failed(ManifestCorrupt);
      }
      outcome := store.SyncLog(fate.syncFails);
      if outcome.Failed? {
        return;
      }
      outcome := store.PublishManifest(next, fate.aborts);
      if outcome.Failed? {
        return;
      }
      store.manager := manager;
      committed := true;
    }

    /** Close: an uncommitted compaction is given up, the store is untouched. */
    method Close()
      requires Valid()
      modifies this`closed
      ensures Valid() && View() == old(View()).(closed := true)
    {
      CloseTracks(store.View(), View());
      hide Tracks, StoreInv;
      closed := true;
    }
  }

  /** Write the first `count` replacement segments. */
  method WriteOutputs(firstID: nat, runs: seq<seq<Document>>, count: nat) returns (written: seq<Segment>)
    requires (exists maximum :: Blocks(runs, maximum)) && Storable(Concat(runs))
    ensures written == Prefix(SegmentsFrom(firstID, runs), count)
  {
    hide Concat, Blocks;
    written := [];
    var n := if count < |runs| then count else |runs|;
    for r := 0 to n
      invariant written == SegmentsFrom(firstID, runs)[..r]
    {
      RunFacts(runs, r);
      var segment := BuildSegment(firstID + r, runs[r]);
      written := written + [segment];
    }
  }

  /** DeleteStore.Restore for each purged ID. */
  method Restore(deletes: set<nat>, purged: seq<nat>) returns (kept: set<nat>)
    ensures kept == deletes - ToSet(purged)
  {
    kept := deletes;
    for i := 0 to |purged|
      invariant kept == deletes - ToSet(purged[..i])
    {
      assert ToSet(purged[..i + 1]) == ToSet(purged[..i]) + {purged[i]};
      kept := kept - {purged[i]};
    }
    assert purged[..|purged|] == purged;
  }

  /** AddImmutable for each segment, starting from none. */
  method AddInOrder(segments: seq<Segment>) returns (result: Result<seq<Segment>, StorageError>)
    ensures result == AddAll([], segments)
  {
    hide AddImmutable;
    var placed: seq<Segment>, rest := [], segments;
    while rest != []
      invariant AddAll(placed, rest) == AddAll([], segments)
      decreases |rest|
    {
      var added := AddImmutable(placed, rest[0]);
      if added.Err? {
        return added;
      }
      placed, rest := added.value, rest[1..];
    }
    result := Ok(placed);
  }

  lemma WholePrefix(firstID: nat, runs: seq<seq<Document>>)
    ensures Prefix(SegmentsFrom(firstID, runs), |runs|) == SegmentsFrom(firstID, runs)
  {
  }

  lemma PrefixIs(all: seq<Document>, seen: seq<Document>, records: seq<Document>, n: nat)
    requires seen + records <= all && n <= |records|
    ensures Prefix(all, |seen| + n) == seen + records[..n]
  {
  }

  lemma PrefixAll(all: seq<Document>)
    ensures forall n: nat :: n >= |all| ==> Prefix(all, n) == all
  {
  }

  lemma ReadStep(seen: seq<Document>, records: seq<Document>, i: nat, deletes: set<nat>)
    requires i < |records|
    ensures PurgedIDs(records[..i + 1], deletes) ==
            PurgedIDs(records[..i], deletes) + if records[i].docID in deletes then [records[i].docID] else []
    ensures Without(seen + records[..i + 1], deletes) ==
            Without(seen + records[..i], deletes) + if records[i].docID in deletes then [] else [records[i]]
  {
    hide PurgedIDs, Without;
    ReadOne(records[..i], records[i], deletes);
    ReadOne(seen + records[..i], records[i], deletes);
    assert records[..i] + [records[i]] == records[..i + 1];
    assert seen + records[..i] + [records[i]] == seen + records[..i + 1];
  }

  lemma FlattenStep(segments: seq<Segment>, k: nat)
    requires k < |segments|
    ensures Flatten(segments[..k + 1]) == Flatten(segments[..k]) + segments[k].docs
    ensures Flatten(segments[..k + 1]) <= Flatten(segments)
  {
    assert segments[..k + 1][..k] == segments[..k];
    FlattenPrefix(segments, k + 1);
  }

  lemma FlattenPrefix(segments: seq<Segment>, k: nat)
    requires k <= |segments|
    ensures Flatten(segments[..k]) <= Flatten(segments)
  {
    hide Flatten;
    assert segments[..k] + segments[k..] == segments;
    FlattenConcat(segments[..k], segments[k..]);
  }

  lemma {:induction false} PurgedIDsConcat(a: seq<Document>, b: seq<Document>, deletes: set<nat>)
    ensures PurgedIDs(a + b, deletes) == PurgedIDs(a, deletes) + PurgedIDs(b, deletes)
    decreases |b|
  {
    if b == [] {
      assert a + b == a;
    } else {
      var front := b[..|b| - 1];
      PurgedIDsConcat(a, front, deletes);
      assert (a + b)[..|a + b| - 1] == a + front;
    }
  }

  lemma StartReading(deletes: set<nat>)
    ensures Flatten([]) == [] && PurgedIDs([], deletes) == [] && Without([], deletes) == []
  {
  }

  lemma ReadOne(seen: seq<Document>, record: Document, deletes: set<nat>)
    ensures PurgedIDs(seen + [record], deletes) ==
            if record.docID in deletes then PurgedIDs(seen, deletes) + [record.docID] else PurgedIDs(seen, deletes)
    ensures Without(seen + [record], deletes) ==
            if record.docID in deletes then Without(seen, deletes) else Without(seen, deletes) + [record]
  {
    assert (seen + [record])[..|seen|] == seen;
  }

  lemma CapturedBlocks(s: Store, p: Compaction)
    requires Tracks(s, p)
    ensures p.manifest.maxDocs > 0
    ensures Blocks(Replacements(p), p.manifest.maxDocs)
    ensures Storable(Concat(Replacements(p)))
  {
    ReplacementBlocks(p);
    WithoutMembers(Flatten(p.inputs), p.deletes);
  }
}
