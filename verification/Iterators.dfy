/** Document iterators over a detached IDMap snapshot, and the exclusion between iterators and
    maintenance that keeps every snapshot document retained. */
module Iterators {
  import opened Keys
  import opened Segments
  import opened Managers
  import opened Stores
  import opened Recovery
  import opened Histories

  /** An open iterator: the frozen IDMap entries in iteration order, how many were consumed, and
      the documents handed out so far. `original` is the map readers saw at creation. */
  datatype Iter = Iter(entries: seq<(Bytes, nat)>, position: nat, yielded: seq<Document>, original: map<Bytes, Bytes>)

  /** The collection handle: the store system and its open iterators. */
  datatype Collection = Collection(sys: System, iterators: map<nat, Iter>)

  datatype Action =
    | StoreAction(event: Event)
    | CreateIterator(name: nat, order: seq<(Bytes, nat)>)
    | Next(name: nat)
    | CloseIterator(name: nat)

  /** The snapshot cursor visits every IDMap entry exactly once, in some order. */
  ghost predicate Enumerates(order: seq<(Bytes, nat)>, primary: map<Bytes, nat>) {
    && (forall i :: 0 <= i < |order| ==> order[i].0 in primary && primary[order[i].0] == order[i].1)
    && (forall i, j :: 0 <= i < j < |order| ==> order[i].0 != order[j].0)
    && (forall key :: key in primary ==> exists i :: 0 <= i < |order| && order[i].0 == key)
  }

  /** Operations that hold maintenanceMu and refuse to start while iterators are open. */
  predicate NeedsNoIterators(e: Event) {
    e.RewriteEvent? || e.SchemaEvent? || e.BeginEvent?
  }

  ghost function Act(c: Collection, a: Action): Collection
    requires SystemInv(c.sys)
  {
    CapacityPositive(c.sys);
    match a
    case StoreAction(e) =>
      if NeedsNoIterators(e) && c.iterators != map[] then c
      else if e.CrashEvent? then Collection(Step(c.sys, e), map[])
      else c.(sys := Step(c.sys, e))
    case CreateIterator(name, order) =>
      if c.sys.maintenance.NoCompaction? && name !in c.iterators && Enumerates(order, c.sys.store.manager.primary) then
        c.(iterators := c.iterators[name := Iter(order, 0, [], Contents(c.sys.store.manager))])
      else c
    case Next(name) =>
      if name in c.iterators then c.(iterators := c.iterators[name := Advance(c.sys.store.manager, c.iterators[name])]) else c
    case CloseIterator(name) => c.(iterators := c.iterators - {name})
  }

  /** One Next call: resolve the next frozen entry against the current segments. A missing
      document, or one stored under another key, is the corruption error and yields nothing. */
  function Advance(m: Manager, it: Iter): Iter {
    var index := Index(AllDocs(m));
    if it.position >= |it.entries| then it
    else
      var (key, docID) := it.entries[it.position];
      if docID in index && index[docID].key == key then
        it.(position := it.position + 1, yielded := it.yielded + [index[docID]])
      else it.(position := it.position + 1)
  }

  // ----- Invariant ------------------------------------------------------------------------------

  /** Every frozen entry still resolves to the payload it had at creation. */
  ghost predicate Retains(m: Manager, it: Iter) {
    var index := Index(AllDocs(m));
    forall i :: 0 <= i < |it.entries| ==>
      && it.entries[i].1 in index
      && it.entries[i].0 in it.original
      && index[it.entries[i].1].key == it.entries[i].0
      && index[it.entries[i].1].payload == it.original[it.entries[i].0]
  }

  /** What has been handed out: one original document per consumed entry, in order. */
  ghost predicate Faithful(it: Iter) {
    && it.position == |it.yielded| <= |it.entries|
    && (forall i :: 0 <= i < |it.yielded| ==>
          && it.yielded[i].key == it.entries[i].0 && it.yielded[i].docID == it.entries[i].1
          && it.yielded[i].key in it.original && it.yielded[i].payload == it.original[it.yielded[i].key])
    && (forall i, j :: 0 <= i < j < |it.entries| ==> it.entries[i].0 != it.entries[j].0)
    && (forall key :: key in it.original ==> exists i :: 0 <= i < |it.entries| && it.entries[i].0 == key)
  }

  ghost predicate CollectionInv(c: Collection) {
    && SystemInv(c.sys)
    && (c.iterators != map[] ==> c.sys.maintenance.NoCompaction?)
    && forall name :: name in c.iterators ==> Retains(c.sys.store.manager, c.iterators[name]) && Faithful(c.iterators[name])
  }

  // ----- Writes and flushes retain ----------------------------------------------------------------

  ghost predicate Keeps(m: Manager, r: Manager) {
    forall id :: id in Index(AllDocs(m)) ==> id in Index(AllDocs(r)) && Index(AllDocs(r))[id] == Index(AllDocs(m))[id]
  }

  lemma KeepsRetains(m: Manager, r: Manager, it: Iter)
    requires Keeps(m, r) && Retains(m, it)
    ensures Retains(r, it)
  {
  }

  lemma RecordKeeps(m: Manager, maxDocs: nat, op: Operation)
    requires ManagerInv(m, maxDocs) && ApplyRecovered(m, op).Ok?
    ensures Keeps(m, ApplyRecovered(m, op).value)
  {
    if !op.kind.Delete? {
      RecordAppends(m, maxDocs, op);
    }
    hide Bijection, Flatten, Layout, Storable, Index;
  }

  /** Storing a version adds one document under an unused ID. */
  lemma RecordAppends(m: Manager, maxDocs: nat, op: Operation)
    requires Layout(m, maxDocs) && StoreVersion(m, op).Ok?
    ensures Keeps(m, StoreVersion(m, op).value)
  {
    StoreKeepsLayout(m, maxDocs, op);
    hide Layout, StoreVersion, Flatten, AllDocs, Index;
    IndexAppend(AllDocs(m), Document(op.docID, op.key, op.payload));
  }

  lemma WriteRetains(s: Store, kind: OperationKind, key: Bytes, payload: Bytes, fate: AppendFate)
    requires StoreInv(s)
    ensures Keeps(s.manager, Write(s, kind, key, payload, fate).0.manager)
  {
    hide ManagerInv, Replay, CheckpointOK, ApplyRecovered, ApplyOnline, Append;
    LiveManager(s);
    var admitted := Admit(s.manager, kind, key, payload);
    if admitted.Ok? {
      OnlineIsRecovered(s.manager, kind, key, payload);
      RecordKeeps(s.manager, s.manifest.maxDocs, admitted.value);
    }
  }

  /** Only rewriting and committing a compaction drop versions; neither can run here. */
  lemma StepRetains(sys: System, e: Event)
    requires SystemInv(sys) && sys.store.manager.writing.maxDocs > 0
    requires sys.maintenance.NoCompaction? && !NeedsNoIterators(e) && !e.CrashEvent?
    ensures Keeps(sys.store.manager, Step(sys, e).store.manager)
    ensures Step(sys, e).maintenance.NoCompaction?
  {
    hide ManagerInv, Replay, CheckpointOK, Write, Flush, Refines, Index, Flatten;
    match e
    case WriteEvent(kind, key, payload, append) => WriteRetains(sys.store, kind, key, payload, append);
    case FlushEvent(fate) => FlushKeeps(sys.store, fate);
    case _ =>
  }

  // ----- Steps ---------------------------------------------------------------------------------------

  lemma CreateFaithful(c: Collection, name: nat, order: seq<(Bytes, nat)>)
    requires CollectionInv(c) && Enumerates(order, c.sys.store.manager.primary)
    ensures var it := Iter(order, 0, [], Contents(c.sys.store.manager));
            Retains(c.sys.store.manager, it) && Faithful(it)
  {
    hide CollectionInv, Enumerates, Bijection, Index, AllDocs, Visible;
    var m := c.sys.store.manager;
    CreationBijection(c);
    FrozenEntries(Index(AllDocs(m)), m.primary, m.deletes, order);
    FrozenKeys(Index(AllDocs(m)), m.primary, m.deletes, order);
  }

  lemma CreationBijection(c: Collection)
    requires CollectionInv(c)
    ensures var m := c.sys.store.manager; Bijection(Index(AllDocs(m)), m.primary, m.deletes)
  {
    hide Bijection, Index, AllDocs, Refines, StoreInv;
    LiveManager(c.sys.store);
  }

  /** Each frozen entry resolves to a document stored under its key, which is what readers see. */
  lemma FrozenEntries(index: map<nat, Document>, primary: map<Bytes, nat>, deletes: set<nat>, order: seq<(Bytes, nat)>)
    requires Bijection(index, primary, deletes) && Enumerates(order, primary)
    ensures forall i :: 0 <= i < |order| ==>
              && order[i].1 in index && order[i].0 in Visible(index, primary)
              && index[order[i].1].key == order[i].0
              && index[order[i].1].payload == Visible(index, primary)[order[i].0]
  {
  }

  /** The frozen entries name each key that readers see once. */
  lemma FrozenKeys(index: map<nat, Document>, primary: map<Bytes, nat>, deletes: set<nat>, order: seq<(Bytes, nat)>)
    requires Bijection(index, primary, deletes) && Enumerates(order, primary)
    ensures forall i, j :: 0 <= i < j < |order| ==> order[i].0 != order[j].0
    ensures forall key :: key in Visible(index, primary) ==> exists i :: 0 <= i < |order| && order[i].0 == key
  {
  }

  lemma AdvanceFaithful(m: Manager, it: Iter)
    requires Retains(m, it) && Faithful(it)
    ensures Retains(m, Advance(m, it)) && Faithful(Advance(m, it))
    ensures it.position < |it.entries| ==> |Advance(m, it).yielded| == |it.yielded| + 1
  {
    hide Index, Flatten;
    if it.position < |it.entries| {
      var d := Index(AllDocs(m))[it.entries[it.position].1];
      IndexMembers(AllDocs(m));
      var next := Advance(m, it);
      assert next.yielded == it.yielded + [d];
      assert it.entries[it.position].0 in it.original;
      forall i | 0 <= i < |next.yielded|
        ensures next.yielded[i].key == it.entries[i].0 && next.yielded[i].docID == it.entries[i].1
        ensures next.yielded[i].key in it.original && next.yielded[i].payload == it.original[next.yielded[i].key]
      {
        if i < |it.yielded| {
          assert next.yielded[i] == it.yielded[i];
        }
      }
    }
  }

  lemma ActKeepsInv(c: Collection, a: Action)
    requires CollectionInv(c)
    ensures CollectionInv(Act(c, a))
  {
    hide SystemInv, Step, Retains, Faithful, Keeps, Enumerates, Advance, Contents;
    CapacityPositive(c.sys);
    match a
    case StoreAction(e) =>
      StepKeepsInv(c.sys, e);
      if c.iterators != map[] && !NeedsNoIterators(e) && !e.CrashEvent? {
        StepRetains(c.sys, e);
        forall name | name in c.iterators ensures Retains(Step(c.sys, e).store.manager, c.iterators[name]) {
          KeepsRetains(c.sys.store.manager, Step(c.sys, e).store.manager, c.iterators[name]);
        }
      }
    case CreateIterator(name, order) =>
      if Enumerates(order, c.sys.store.manager.primary) {
        CreateFaithful(c, name, order);
      }
    case Next(name) =>
      if name in c.iterators {
        AdvanceFaithful(c.sys.store.manager, c.iterators[name]);
      }
    case CloseIterator(name) =>
  }

  ghost function RunActions(c: Collection, actions: seq<Action>): (end: Collection)
    requires CollectionInv(c)
    ensures CollectionInv(end)
  {
    if actions == [] then c
    else
      var before := RunActions(c, actions[..|actions| - 1]);
      ActKeepsInv(before, actions[|actions| - 1]);
      Act(before, actions[|actions| - 1])
  }

  // ----- Creation --------------------------------------------------------------------------------------

  /** Action `i` of the run created this iterator: it froze the entries of the IDMap and the map readers saw. */
  ghost predicate CreatedAt(c: Collection, actions: seq<Action>, i: nat, name: nat, it: Iter)
    requires CollectionInv(c)
  {
    && i < |actions| && actions[i] == CreateIterator(name, it.entries)
    && var m := RunActions(c, actions[..i]).sys.store.manager;
       it.original == Contents(m) && Enumerates(it.entries, m.primary)
  }

  /** An action leaves an open iterator's frozen fields alone, closes it, or is its creation. */
  lemma ActFreezes(c: Collection, a: Action, name: nat)
    requires CollectionInv(c) && name in Act(c, a).iterators
    ensures var it := Act(c, a).iterators[name];
            || (name in c.iterators && it.original == c.iterators[name].original && it.entries == c.iterators[name].entries)
            || (a == CreateIterator(name, it.entries) && it.original == Contents(c.sys.store.manager)
                && Enumerates(it.entries, c.sys.store.manager.primary))
  {
    hide CollectionInv, SystemInv, Step, Enumerates, Contents, Index, AllDocs;
  }

  /** Every iterator open at the end was open at the start, with the same snapshot, or created on the way. */
  lemma {:induction false} OriginOf(c: Collection, actions: seq<Action>, name: nat)
    requires CollectionInv(c) && name in RunActions(c, actions).iterators
    ensures var it := RunActions(c, actions).iterators[name];
            || (name in c.iterators && it.original == c.iterators[name].original && it.entries == c.iterators[name].entries)
            || exists i: nat :: CreatedAt(c, actions, i, name, it)
    decreases |actions|
  {
    hide CollectionInv, Act, Enumerates, Contents;
    if actions != [] {
      var n := |actions| - 1;
      var before, it := RunActions(c, actions[..n]), RunActions(c, actions).iterators[name];
      RunStep(c, actions);
      ActFreezes(before, actions[n], name);
      if name in before.iterators && it.original == before.iterators[name].original && it.entries == before.iterators[name].entries {
        OriginOf(c, actions[..n], name);
        if !(name in c.iterators && it.original == c.iterators[name].original && it.entries == c.iterators[name].entries) {
          var i: nat :| CreatedAt(c, actions[..n], i, name, before.iterators[name]);
          assert actions[..n][..i] == actions[..i];
          assert CreatedAt(c, actions, i, name, it);
        }
      } else {
        assert CreatedAt(c, actions, n, name, it);
      }
    }
  }

  lemma RunStep(c: Collection, actions: seq<Action>)
    requires CollectionInv(c) && actions != []
    ensures CollectionInv(RunActions(c, actions[..|actions| - 1]))
    ensures RunActions(c, actions) == Act(RunActions(c, actions[..|actions| - 1]), actions[|actions| - 1])
  {
  }

  function Nexts(name: nat, k: nat): (actions: seq<Action>)
    ensures |actions| == k && forall i :: 0 <= i < k ==> actions[i] == Next(name)
  {
    seq(k, i => Next(name))
  }

  /** Each call of Next on an open iterator consumes one entry, until they are used up. */
  lemma {:induction false} NextsConsume(c: Collection, name: nat, k: nat)
    requires CollectionInv(c) && name in c.iterators
    requires c.iterators[name].position + k <= |c.iterators[name].entries|
    ensures var end, it := RunActions(c, Nexts(name, k)), c.iterators[name];
      && name in end.iterators && end.iterators[name].entries == it.entries && end.iterators[name].original == it.original
      && end.iterators[name].position == it.position + k
  {
    hide CollectionInv, SystemInv, Retains, Faithful, Index, AllDocs;
    if k > 0 {
      NextsConsume(c, name, k - 1);
      assert Nexts(name, k)[..k - 1] == Nexts(name, k - 1);
      RunStep(c, Nexts(name, k));
    }
  }

  /** So as many calls as there are entries left yield every key of the creation's map. */
  lemma NextsYieldAll(c: Collection, name: nat)
    requires CollectionInv(c) && name in c.iterators && c.iterators[name].position <= |c.iterators[name].entries|
    ensures var it := c.iterators[name];
      var end := RunActions(c, Nexts(name, |it.entries| - it.position));
      && name in end.iterators && |end.iterators[name].yielded| == |it.entries|
      && forall key :: key in it.original ==>
           exists i :: 0 <= i < |it.entries| && end.iterators[name].yielded[i].key == key
             && end.iterators[name].yielded[i].payload == it.original[key]
  {
    var it := c.iterators[name];
    var k := |it.entries| - it.position;
    NextsConsume(c, name, k);
    var end := RunActions(c, Nexts(name, k));
    StableSince(end, name);
    hide RunActions, CollectionInv, Index, AllDocs;
  }

  lemma StableSince(end: Collection, name: nat)
    requires CollectionInv(end) && name in end.iterators
    ensures var it := end.iterators[name];
            && |it.yielded| == it.position <= |it.entries|
            && (forall i :: 0 <= i < |it.yielded| ==>
                  && it.yielded[i].key == it.entries[i].0 && it.yielded[i].docID == it.entries[i].1
                  && it.yielded[i].key in it.original && it.yielded[i].payload == it.original[it.yielded[i].key])
            && (forall i, j :: 0 <= i < j < |it.yielded| ==> it.yielded[i].key != it.yielded[j].key)
            && (it.position < |it.entries| ==> it.entries[it.position].1 in Index(AllDocs(end.sys.store.manager)))
            && (it.position == |it.entries| ==>
                  forall key :: key in it.original ==> exists i :: 0 <= i < |it.yielded| && it.yielded[i].key == key)
  {
    hide SystemInv, Index, AllDocs, Flatten;
  }

  /** Whatever writes, deletes, flushes and refused maintenance run in between: every iterator not open from
      the start was created on the way, and froze the IDMap and the map of that state; it has yielded one
      document per consumed entry, with the payload readers saw there, and its next entry resolves; once
      exhausted it has yielded each key of that state. */
  lemma EveryIteratorIsStable(c: Collection, actions: seq<Action>, name: nat)
    requires CollectionInv(c) && name in RunActions(c, actions).iterators
    ensures var it := RunActions(c, actions).iterators[name];
            || (name in c.iterators && it.original == c.iterators[name].original && it.entries == c.iterators[name].entries)
            || exists i: nat :: CreatedAt(c, actions, i, name, it)
    ensures var end := RunActions(c, actions);
            var it := end.iterators[name];
            && |it.yielded| == it.position <= |it.entries|
            && (forall i :: 0 <= i < |it.yielded| ==>
                  && it.yielded[i].key == it.entries[i].0 && it.yielded[i].docID == it.entries[i].1
                  && it.yielded[i].key in it.original && it.yielded[i].payload == it.original[it.yielded[i].key])
            && (forall i, j :: 0 <= i < j < |it.yielded| ==> it.yielded[i].key != it.yielded[j].key)
            && (it.position < |it.entries| ==> it.entries[it.position].1 in Index(AllDocs(end.sys.store.manager)))
            && (it.position == |it.entries| ==>
                  forall key :: key in it.original ==> exists i :: 0 <= i < |it.yielded| && it.yielded[i].key == key)
  {
    hide *;
    OriginOf(c, actions, name);
    StableSince(RunActions(c, actions), name);
  }
}
