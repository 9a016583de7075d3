/** Reference counts of segment runtimes. Owner table, cached query snapshots, leases, maintenance
    holds, prepared replacements and runtimes whose close failed each account for one reference; the
    last release closes the indexes. Lease and maintenance releases interleave with everything else. */
module Runtimes {

  /** A runtime belongs to one segment; `serial` tells successive runtimes of a segment apart. */
  datatype Runtime = Runtime(segment: nat, serial: nat)

  /** A query snapshot: the view it serves and the runtimes it pins. */
  datatype Snapshot = Snapshot(view: string, runtimes: seq<Runtime>)

  /** Running, then draining leases after close began, then emptied, then closed down to the store. */
  datatype Phase = Running | Draining | Emptied | Stored

  /** `pending` holds what the holder of the exclusive lock has taken out of the tables and not yet
      released; it drains before the lock is given up. */
  datatype State = State(
    refs: map<Runtime, int>,
    closes: multiset<Runtime>,
    owner: map<nat, Runtime>,
    caches: seq<Snapshot>,
    leases: seq<Snapshot>,
    sources: seq<Runtime>,
    prepared: map<nat, Runtime>,
    retired: set<Runtime>,
    pending: seq<Runtime>,
    phase: Phase,
    panicked: bool)

  // ----- Counting holders -----------------------------------------------------------------------

  function InTable(table: map<nat, Runtime>, r: Runtime): nat {
    if r.segment in table && table[r.segment] == r then 1 else 0
  }

  function InList(list: seq<Runtime>, r: Runtime): nat {
    multiset(list)[r]
  }

  function InSnapshots(snapshots: seq<Snapshot>, r: Runtime): nat {
    if snapshots == [] then 0
    else InSnapshots(snapshots[..|snapshots| - 1], r) + InList(snapshots[|snapshots| - 1].runtimes, r)
  }

  function Holders(s: State, r: Runtime): nat {
    InTable(s.owner, r) + InSnapshots(s.caches, r) + InSnapshots(s.leases, r) + InList(s.sources, r)
    + InTable(s.prepared, r) + (if r in s.retired then 1 else 0) + InList(s.pending, r)
  }

  lemma {:induction false} SnapshotsConcat(a: seq<Snapshot>, b: seq<Snapshot>, r: Runtime)
    ensures InSnapshots(a + b, r) == InSnapshots(a, r) + InSnapshots(b, r)
    decreases |b|
  {
    if b == [] {
      assert a + b == a;
    } else {
      var n := |b| - 1;
      SnapshotsConcat(a, b[..n], r);
      assert (a + b)[..|a + b| - 1] == a + b[..n];
    }
  }

  lemma SnapshotsOne(x: Snapshot, r: Runtime)
    ensures InSnapshots([x], r) == InList(x.runtimes, r)
  {
    assert [x][..0] == [];
  }

  lemma SnapshotsAt(list: seq<Snapshot>, i: nat, r: Runtime)
    requires i < |list|
    ensures InSnapshots(list, r) == InSnapshots(list[..i], r) + InList(list[i].runtimes, r) + InSnapshots(list[i + 1..], r)
  {
    SnapshotsConcat(list[..i], [list[i]], r);
    SnapshotsConcat(list[..i] + [list[i]], list[i + 1..], r);
    SnapshotsOne(list[i], r);
    assert list == list[..i] + [list[i]] + list[i + 1..];
  }

  /** All runtimes pinned by a list of snapshots. */
  function Pinned(snapshots: seq<Snapshot>): seq<Runtime> {
    if snapshots == [] then [] else Pinned(snapshots[..|snapshots| - 1]) + snapshots[|snapshots| - 1].runtimes
  }

  lemma {:induction false} PinnedCount(snapshots: seq<Snapshot>, r: Runtime)
    ensures InList(Pinned(snapshots), r) == InSnapshots(snapshots, r)
  {
    if snapshots != [] {
      PinnedCount(snapshots[..|snapshots| - 1], r);
    }
  }

  /** A list names every runtime of a table once. */
  ghost predicate Lists(list: seq<Runtime>, table: map<nat, Runtime>) {
    forall r :: InList(list, r) == InTable(table, r)
  }

  ghost predicate Tabled(table: map<nat, Runtime>) {
    forall id :: id in table ==> table[id].segment == id
  }

  // ----- Retain and release -------------------------------------------------------------------------

  /** One more reference to each runtime of a list; retaining a released runtime panics. */
  function RetainAll(s: State, list: seq<Runtime>): State {
    s.(refs := map r | r in s.refs :: s.refs[r] + InList(list, r),
       panicked := s.panicked || exists r :: r in list && (r !in s.refs || s.refs[r] < 1))
  }

  datatype Outcome = Panics | Held | Closed | CloseFailed

  /** Drop one reference. The last one closes the indexes; when that fails the reference is kept for
      another attempt. */
  function ReleaseRef(refs: int, fails: bool): (int, Outcome) {
    if refs - 1 < 0 then (refs - 1, Panics)
    else if refs - 1 > 0 then (refs - 1, Held)
    else if fails then (1, CloseFailed)
    else (0, Closed)
  }

  /** The counter itself. `closes` counts how often its indexes were closed. */
  class SegmentRuntime {
    var refs: int
    var closes: nat

    constructor ()
      ensures refs == 1 && closes == 0
    {
      refs, closes := 1, 0;
    }

    method Retain() returns (panics: bool)
      modifies this`refs
      ensures refs == old(refs) + 1 && panics == (old(refs) < 1)
    {
      refs := refs + 1;
      panics := refs <= 1;
    }

    method Release(fails: bool) returns (outcome: Outcome)
      modifies this
      ensures (refs, outcome) == ReleaseRef(old(refs), fails)
      ensures closes == old(closes) + if outcome == Closed then 1 else 0
    {
      refs := refs - 1;
      outcome := Held;
      if refs < 0 {
        return Panics;
      }
      if refs == 0 {
        if fails {
          refs := 1;
          return CloseFailed;
        }
        closes := closes + 1;
        outcome := Closed;
      }
    }
  }

  /** A release by the collection: a failed close moves the reference to the retired runtimes. */
  function Release(s: State, r: Runtime, fails: bool): State {
    if r !in s.refs then s.(panicked := true)
    else
      var (refs, outcome) := ReleaseRef(s.refs[r], fails);
      s.(refs := s.refs[r := refs],
         closes := if outcome == Closed then s.closes + multiset{r} else s.closes,
         retired := if outcome == CloseFailed then s.retired + {r} else s.retired,
         panicked := s.panicked || outcome == Panics)
  }

  /** New runtimes start with the reference of whoever will hold them. */
  function Create(s: State, created: set<Runtime>): State {
    s.(refs := map r | r in s.refs.Keys + created :: if r in created then 1 else s.refs[r])
  }

  // ----- Events --------------------------------------------------------------------------------------

  datatype Event =
    | Rebuild(next: map<nat, Runtime>, dropped: seq<Runtime>)  // open, write or maintenance rebuilds the owner table
    | BuildFails(built: seq<Runtime>)                          // a rebuild gives up the runtimes it made
    | CacheSnapshot(view: string, runtimes: seq<Runtime>)      // a query builds the cached snapshot of a view
    | Acquire(cache: nat)                                      // a query leases a cached snapshot
    | ReleaseLease(lease: nat, fails: bool)                    // a finished query drops its next runtime
    | FinishLease(lease: nat)                                  // and ends once none is left
    | Invalidate                                               // cached snapshots are dropped
    | HoldSources(held: seq<Runtime>)                          // maintenance pins the owner's runtimes
    | DropSource(fails: bool)                                  // and lets them go, outside the lock
    | Prepare(runtime: Runtime)                                // a replacement is built
    | Abandon(segment: nat, fails: bool)                       // or given up
    | PublishNative(replaced: seq<Runtime>)                    // replacements take their predecessors' place
    | PublishCompaction(retained: set<nat>, dropped: seq<Runtime>)
    | ReleasePending(fails: bool)
    | BeginClose
    | EmptyTables(owned: seq<Runtime>)
    | RetryRetired(runtime: Runtime, fails: bool)
    | ReachStore

  function NewIn(s: State, next: map<nat, Runtime>): set<Runtime> {
    set id | id in next && next[id] !in s.refs :: next[id]
  }

  function Without<K, V>(m: map<K, V>, keep: set<K>): map<K, V> {
    map k | k in m && k in keep :: m[k]
  }

  /** When an event can happen: who holds which lock, and what the source's own lookups guarantee. */
  ghost predicate Enabled(s: State, e: Event) {
    match e
    case Rebuild(next, dropped) =>
      && s.phase.Running? && s.pending == [] && Tabled(next)
      && (forall id :: id in next ==> next[id] !in s.refs || (id in s.owner && s.owner[id] == next[id]))
      && (forall r :: InList(dropped, r) == if InTable(next, r) == 1 then 0 else InTable(s.owner, r))
    case BuildFails(built) => s.phase.Running? && s.pending == [] && forall r :: r in built ==> r !in s.refs && InList(built, r) == 1
    case CacheSnapshot(view, runtimes) =>
      && s.phase.Running? && s.pending == []
      && (forall c :: c in s.caches ==> c.view != view)
      && (forall r :: r in runtimes ==> InTable(s.owner, r) == 1)
    case Acquire(cache) => s.phase.Running? && s.pending == [] && cache < |s.caches|
    case ReleaseLease(lease, _) => lease < |s.leases| && s.leases[lease].runtimes != []
    case FinishLease(lease) => lease < |s.leases| && s.leases[lease].runtimes == []
    case Invalidate => s.phase.Running? && s.pending == []
    case HoldSources(held) => s.phase.Running? && s.pending == [] && s.sources == [] && Lists(held, s.owner)
    case DropSource(_) => s.sources != []
    case Prepare(runtime) => s.phase.Running? && runtime !in s.refs && runtime.segment !in s.prepared
    case Abandon(segment, _) => segment in s.prepared
    case PublishNative(replaced) =>
      && s.phase.Running? && s.pending == []
      && (forall r :: InList(replaced, r) == if r.segment in s.prepared then InTable(s.owner, r) else 0)
    case PublishCompaction(retained, dropped) =>
      && s.phase.Running? && s.pending == []
      && (forall id :: id in s.prepared ==> id in retained && id !in s.owner)
      && (forall r :: InList(dropped, r) == if r.segment in retained then 0 else InTable(s.owner, r))
    case ReleasePending(_) => s.pending != []
    case BeginClose => s.phase.Running? && s.pending == [] && s.sources == [] && s.prepared == map[]
    case EmptyTables(owned) => s.phase.Draining? && s.pending == [] && s.leases == [] && Lists(owned, s.owner)
    case RetryRetired(runtime, _) => (s.phase.Emptied? || s.phase.Stored?) && s.pending == [] && runtime in s.retired
    case ReachStore => s.phase.Emptied? && s.pending == []
  }

  predicate Releases(e: Event) {
    e.ReleaseLease? || e.DropSource? || e.Abandon? || e.ReleasePending? || e.RetryRetired?
  }

  /** The runtime an event releases, and the state once its holder has let go. */
  ghost function LetGo(s: State, e: Event): (Runtime, State)
    requires Enabled(s, e) && Releases(e)
  {
    match e
    case ReleaseLease(lease, _) =>
      var list := s.leases[lease].runtimes;
      (list[0], s.(leases := s.leases[lease := Snapshot(s.leases[lease].view, list[1..])]))
    case DropSource(_) => (s.sources[0], s.(sources := s.sources[1..]))
    case Abandon(segment, _) => (s.prepared[segment], s.(prepared := s.prepared - {segment}))
    case ReleasePending(_) => (s.pending[0], s.(pending := s.pending[1..]))
    case RetryRetired(runtime, _) => (runtime, s.(retired := s.retired - {runtime}))
  }

  ghost function Step(s: State, e: Event): State
    requires Enabled(s, e)
  {
    match e
    case Rebuild(next, dropped) => Create(s, NewIn(s, next)).(owner := next, pending := dropped)
    case BuildFails(built) => Create(s, set r | r in built).(pending := built)
    case CacheSnapshot(view, runtimes) => RetainAll(s, runtimes).(caches := s.caches + [Snapshot(view, runtimes)])
    case Acquire(cache) => RetainAll(s, s.caches[cache].runtimes).(leases := s.leases + [s.caches[cache]])
    case FinishLease(lease) => s.(leases := s.leases[..lease] + s.leases[lease + 1..])
    case Invalidate => s.(caches := [], pending := Pinned(s.caches))
    case HoldSources(held) => RetainAll(s, held).(sources := held)
    case Prepare(runtime) => Create(s, {runtime}).(prepared := s.prepared[runtime.segment := runtime])
    case PublishNative(replaced) =>
      s.(caches := [], owner := s.owner + s.prepared, prepared := map[], pending := Pinned(s.caches) + replaced)
    case PublishCompaction(retained, dropped) =>
      s.(caches := [], owner := Without(s.owner, retained) + s.prepared, prepared := map[], pending := Pinned(s.caches) + dropped)
    case BeginClose => s.(phase := Draining, caches := [], pending := Pinned(s.caches))
    case EmptyTables(owned) => s.(phase := Emptied, owner := map[], pending := owned)
    case ReachStore => s.(phase := Stored)
    case _ =>
      var (held, before) := LetGo(s, e);
      Release(before, held, e.fails)
  }

  // ----- The invariant ----------------------------------------------------------------------------------

  ghost predicate Accounted(s: State, r: Runtime) {
    && (r in s.refs ==> s.refs[r] == Holders(s, r) && s.closes[r] == if s.refs[r] == 0 then 1 else 0)
    && (r !in s.refs ==> Holders(s, r) == 0 && s.closes[r] == 0)
  }

  ghost predicate Inv(s: State) {
    !s.panicked && (forall r :: Accounted(s, r)) && Shape(s)
  }

  ghost predicate Shape(s: State) {
    && Tabled(s.owner) && Tabled(s.prepared)
    && (!s.phase.Running? ==> s.caches == [] && s.sources == [] && s.prepared == map[])
    && (s.phase.Emptied? || s.phase.Stored? ==> s.owner == map[] && s.leases == [])
    && (s.phase.Stored? ==> s.pending == [])
  }

  // ----- Every event keeps the invariant --------------------------------------------------------------------

  /** A release by a holder that let go of one reference. */
  lemma ReleaseAccounts(s: State, was: State, held: Runtime, fails: bool)
    requires !was.panicked && (forall r :: Accounted(was, r))
    requires s.refs == was.refs && s.closes == was.closes && s.panicked == was.panicked
    requires forall r :: Holders(was, r) == Holders(s, r) + if r == held then 1 else 0
    ensures var t := Release(s, held, fails);
      !t.panicked && forall r :: Accounted(t, r)
  {
    hide InTable, InSnapshots, InList, Holders;
    RetiredHolds(s, held);
    var t := Release(s, held, fails);
    assert Accounted(was, held) && Holders(was, held) >= 1;
    forall r ensures Accounted(t, r) {
      assert Accounted(was, r);
      ReleaseHolders(s, held, fails, r);
    }
  }

  lemma RetiredHolds(s: State, r: Runtime)
    ensures r in s.retired ==> Holders(s, r) >= 1
  {
    hide InTable, InSnapshots, InList;
  }

  lemma ReleaseHolders(s: State, held: Runtime, fails: bool, r: Runtime)
    ensures Holders(Release(s, held, fails), r) ==
      Holders(s, r) + if r == held && held !in s.retired && held in s.refs && s.refs[held] == 1 && fails then 1 else 0
  {
    hide InTable, InSnapshots, InList;
  }

  /** New references for new holders. */
  lemma RetainAccounts(s: State, was: State, list: seq<Runtime>)
    requires !was.panicked && (forall r :: Accounted(was, r)) && (forall r :: r in list ==> Holders(was, r) > 0)
    requires s == RetainAll(was, list).(caches := s.caches, leases := s.leases, sources := s.sources)
    requires forall r :: Holders(s, r) == Holders(was, r) + InList(list, r)
    ensures !s.panicked && forall r :: Accounted(s, r)
  {
    hide Holders;
    forall r ensures Accounted(s, r) {
      assert Accounted(was, r);
      assert r in list <==> InList(list, r) > 0;
    }
    forall r | r in list ensures r in was.refs && was.refs[r] >= 1 {
      assert Accounted(was, r);
    }
  }

  /** Created runtimes have one reference and one holder. */
  lemma CreateAccounts(s: State, was: State, created: set<Runtime>)
    requires !was.panicked && (forall r :: Accounted(was, r)) && created !! was.refs.Keys
    requires s.refs == Create(was, created).refs && s.closes == was.closes && s.panicked == was.panicked
    requires forall r :: Holders(s, r) == Holders(was, r) + if r in created then 1 else 0
    ensures !s.panicked && forall r :: Accounted(s, r)
  {
    hide Holders;
    forall r ensures Accounted(s, r) {
      assert Accounted(was, r);
    }
  }

  /** Moving holders between tables changes no count. */
  lemma MoveAccounts(s: State, was: State)
    requires !was.panicked && (forall r :: Accounted(was, r))
    requires s.refs == was.refs && s.closes == was.closes && s.panicked == was.panicked
    requires forall r :: Holders(s, r) == Holders(was, r)
    ensures !s.panicked && forall r :: Accounted(s, r)
  {
    hide Holders;
    forall r ensures Accounted(s, r) {
      assert Accounted(was, r);
    }
  }

  lemma TailCount(list: seq<Runtime>, r: Runtime)
    requires list != []
    ensures InList(list, r) == InList(list[1..], r) + if r == list[0] then 1 else 0
  {
    assert list == [list[0]] + list[1..];
  }

  lemma RebuildKeeps(s: State, e: Event)
    requires Inv(s) && Enabled(s, e) && (e.Rebuild? || e.BuildFails?)
    ensures Inv(Step(s, e))
  {
    var t := Step(s, e);
    var created := if e.Rebuild? then NewIn(s, e.next) else set r | r in e.built;
    forall r ensures Holders(t, r) == Holders(s, r) + if r in created then 1 else 0 {
      assert Accounted(s, r);
      hide InSnapshots;
      if e.Rebuild? {
        assert r in created <==> InTable(e.next, r) == 1 && r !in s.refs;
      }
    }
    hide Holders;
    CreateAccounts(t, s, created);
  }

  lemma CacheKeeps(s: State, view: string, runtimes: seq<Runtime>)
    requires Inv(s) && Enabled(s, CacheSnapshot(view, runtimes))
    ensures Inv(Step(s, CacheSnapshot(view, runtimes)))
  {
    var t := Step(s, CacheSnapshot(view, runtimes));
    forall r ensures Holders(t, r) == Holders(s, r) + InList(runtimes, r) {
      SnapshotsConcat(s.caches, [Snapshot(view, runtimes)], r);
      SnapshotsOne(Snapshot(view, runtimes), r);
    }
    hide InSnapshots;
    RetainAccounts(t, s, runtimes);
  }

  lemma AcquireKeeps(s: State, cache: nat)
    requires Inv(s) && Enabled(s, Acquire(cache))
    ensures Inv(Step(s, Acquire(cache)))
  {
    var t, list := Step(s, Acquire(cache)), s.caches[cache].runtimes;
    forall r ensures Holders(t, r) == Holders(s, r) + InList(list, r) {
      SnapshotsConcat(s.leases, [s.caches[cache]], r);
      SnapshotsOne(s.caches[cache], r);
    }
    forall r | r in list ensures Holders(s, r) > 0 {
      SnapshotsAt(s.caches, cache, r);
      assert InList(list, r) > 0;
    }
    hide InSnapshots, Holders;
    RetainAccounts(t, s, list);
  }

  lemma HoldKeeps(s: State, held: seq<Runtime>)
    requires Inv(s) && Enabled(s, HoldSources(held))
    ensures Inv(Step(s, HoldSources(held)))
  {
    hide InSnapshots;
    var t := Step(s, HoldSources(held));
    forall r | r in held ensures Holders(s, r) > 0 {
      assert InList(held, r) > 0;
    }
    RetainAccounts(t, s, held);
  }

  lemma LeaseDelta(s: State, lease: nat, r: Runtime)
    requires lease < |s.leases| && s.leases[lease].runtimes != []
    ensures var held := s.leases[lease].runtimes;
      var before := s.(leases := s.leases[lease := Snapshot(s.leases[lease].view, held[1..])]);
      Holders(s, r) == Holders(before, r) + if r == held[0] then 1 else 0
  {
    var held := s.leases[lease].runtimes;
    var leases := s.leases[lease := Snapshot(s.leases[lease].view, held[1..])];
    SnapshotsAt(s.leases, lease, r);
    SnapshotsAt(leases, lease, r);
    assert leases[..lease] == s.leases[..lease] && leases[lease + 1..] == s.leases[lease + 1..];
    TailCount(held, r);
  }

  lemma LetGoDelta(s: State, e: Event, r: Runtime)
    requires Enabled(s, e) && Releases(e)
    requires Tabled(s.prepared)
    ensures var (held, before) := LetGo(s, e);
      Holders(s, r) == Holders(before, r) + if r == held then 1 else 0
  {
    hide InSnapshots;
    match e {
      case ReleaseLease(lease, _) => LeaseDelta(s, lease, r);
      case DropSource(_) => TailCount(s.sources, r);
      case Abandon(segment, _) => TableDelta(s, segment, r);
      case ReleasePending(_) => TailCount(s.pending, r);
      case RetryRetired(_, _) =>
    }
  }

  lemma TableDelta(s: State, segment: nat, r: Runtime)
    requires Tabled(s.prepared) && segment in s.prepared
    ensures Holders(s, r) == Holders(s.(prepared := s.prepared - {segment}), r) + if r == s.prepared[segment] then 1 else 0
  {
    hide InSnapshots, InList;
  }

  lemma LetGoShape(s: State, e: Event)
    requires Shape(s) && Enabled(s, e) && Releases(e)
    ensures var (held, before) := LetGo(s, e);
      Shape(before) && before.refs == s.refs && before.closes == s.closes && before.panicked == s.panicked
  {
  }

  lemma ReleaseShape(s: State, held: Runtime, fails: bool)
    requires Shape(s)
    ensures Shape(Release(s, held, fails))
  {
  }

  lemma ReleaseKeeps(s: State, e: Event)
    requires Inv(s) && Enabled(s, e) && Releases(e)
    ensures Inv(Step(s, e))
  {
    hide Holders, Accounted, LetGo, Release, Enabled, Shape;
    LetGoShape(s, e);
    var (held, before) := LetGo(s, e);
    forall r ensures Holders(s, r) == Holders(before, r) + if r == held then 1 else 0 {
      LetGoHolders(s, e, r);
    }
    ReleaseAccounts(before, s, held, e.fails);
    ReleaseShape(before, held, e.fails);
  }

  lemma LetGoHolders(s: State, e: Event, r: Runtime)
    requires Shape(s) && Enabled(s, e) && Releases(e)
    ensures var (held, before) := LetGo(s, e);
      Holders(s, r) == Holders(before, r) + if r == held then 1 else 0
  {
    LetGoDelta(s, e, r);
  }

  /** Entries of the second table replace those of the first. */
  lemma MergeCount(a: map<nat, Runtime>, b: map<nat, Runtime>, r: Runtime)
    ensures InTable(a + b, r) == if r.segment in b then InTable(b, r) else InTable(a, r)
  {
  }

  lemma NothingListed(r: Runtime)
    ensures InList([], r) == 0 && InSnapshots([], r) == 0
  {
  }

  lemma ListConcat(a: seq<Runtime>, b: seq<Runtime>, r: Runtime)
    ensures InList(a + b, r) == InList(a, r) + InList(b, r)
  {
  }

  lemma ViewDelta(s: State, e: Event, r: Runtime)
    requires Inv(s) && Enabled(s, e) && (e.FinishLease? || e.Invalidate?)
    ensures Holders(Step(s, e), r) == Holders(s, r)
  {
    hide InSnapshots, InList, Pinned, Accounted, InTable;
    NothingListed(r);
    match e {
      case FinishLease(lease) =>
        SnapshotsAt(s.leases, lease, r);
        SnapshotsConcat(s.leases[..lease], s.leases[lease + 1..], r);
      case Invalidate => PinnedCount(s.caches, r);
    }
  }

  lemma PublishDelta(s: State, e: Event, r: Runtime)
    requires Inv(s) && Enabled(s, e) && (e.PublishNative? || e.PublishCompaction?)
    ensures Holders(Step(s, e), r) == Holders(s, r)
  {
    hide InSnapshots, InList, Pinned, Accounted;
    NothingListed(r);
    PinnedCount(s.caches, r);
    match e {
      case PublishNative(replaced) =>
        ListConcat(Pinned(s.caches), replaced, r);
        MergeCount(s.owner, s.prepared, r);
      case PublishCompaction(retained, dropped) =>
        ListConcat(Pinned(s.caches), dropped, r);
        MergeCount(Without(s.owner, retained), s.prepared, r);
    }
  }

  lemma CloseDelta(s: State, e: Event, r: Runtime)
    requires Inv(s) && Enabled(s, e) && (e.BeginClose? || e.EmptyTables? || e.ReachStore?)
    ensures Holders(Step(s, e), r) == Holders(s, r)
  {
    hide InSnapshots, InList, Pinned, Accounted;
    NothingListed(r);
    if e.BeginClose? {
      PinnedCount(s.caches, r);
    }
  }

  lemma MoveDelta(s: State, e: Event, r: Runtime)
    requires Inv(s) && Enabled(s, e)
    requires e.FinishLease? || e.Invalidate? || e.PublishNative? || e.PublishCompaction? || e.BeginClose? || e.EmptyTables? || e.ReachStore?
    ensures Holders(Step(s, e), r) == Holders(s, r)
  {
    hide Inv, Step, Enabled, Holders;
    if e.FinishLease? || e.Invalidate? {
      ViewDelta(s, e, r);
    } else if e.PublishNative? || e.PublishCompaction? {
      PublishDelta(s, e, r);
    } else {
      CloseDelta(s, e, r);
    }
  }

  lemma MoveKeeps(s: State, e: Event)
    requires Inv(s) && Enabled(s, e)
    requires e.FinishLease? || e.Invalidate? || e.PublishNative? || e.PublishCompaction? || e.BeginClose? || e.EmptyTables? || e.ReachStore?
    ensures Inv(Step(s, e))
  {
    forall r ensures Holders(Step(s, e), r) == Holders(s, r) {
      MoveDelta(s, e, r);
    }
    MoveFrame(s, e);
    hide Holders, Accounted, Step, Enabled, Shape;
    MoveAccounts(Step(s, e), s);
  }

  lemma MoveFrame(s: State, e: Event)
    requires Inv(s) && Enabled(s, e)
    requires e.FinishLease? || e.Invalidate? || e.PublishNative? || e.PublishCompaction? || e.BeginClose? || e.EmptyTables? || e.ReachStore?
    ensures var t := Step(s, e);
      Shape(t) && t.refs == s.refs && t.closes == s.closes && t.panicked == s.panicked
  {
    hide Accounted, Holders, Pinned, InList, InSnapshots;
  }

  lemma PrepareDelta(s: State, runtime: Runtime, r: Runtime)
    requires Enabled(s, Prepare(runtime)) && Holders(s, runtime) == 0
    ensures Holders(Step(s, Prepare(runtime)), r) == Holders(s, r) + if r in {runtime} then 1 else 0
  {
    hide InSnapshots, InList;
  }

  lemma PrepareKeeps(s: State, runtime: Runtime)
    requires Inv(s) && Enabled(s, Prepare(runtime))
    ensures Inv(Step(s, Prepare(runtime)))
  {
    assert Accounted(s, runtime);
    var t := Step(s, Prepare(runtime));
    forall r ensures Holders(t, r) == Holders(s, r) + if r in {runtime} then 1 else 0 {
      PrepareDelta(s, runtime, r);
    }
    PrepareFrame(s, runtime);
    hide Holders, Accounted, Step, Enabled, Shape;
    CreateAccounts(t, s, {runtime});
  }

  lemma PrepareFrame(s: State, runtime: Runtime)
    requires Inv(s) && Enabled(s, Prepare(runtime))
    ensures var t := Step(s, Prepare(runtime));
      && Shape(t) && t.panicked == s.panicked && t.closes == s.closes
      && t.refs == (map r | r in s.refs.Keys + {runtime} :: if r in {runtime} then 1 else s.refs[r])
  {
    hide Accounted, Holders;
  }

  lemma StepKeeps(s: State, e: Event)
    requires Inv(s) && Enabled(s, e)
    ensures Inv(Step(s, e))
  {
    hide Inv, Enabled, Step;
    match e {
      case Rebuild(_, _) => RebuildKeeps(s, e);
      case BuildFails(_) => RebuildKeeps(s, e);
      case CacheSnapshot(view, runtimes) => CacheKeeps(s, view, runtimes);
      case Acquire(cache) => AcquireKeeps(s, cache);
      case HoldSources(held) => HoldKeeps(s, held);
      case Prepare(runtime) => PrepareKeeps(s, runtime);
      case ReleaseLease(_, _) => ReleaseKeeps(s, e);
      case DropSource(_) => ReleaseKeeps(s, e);
      case Abandon(_, _) => ReleaseKeeps(s, e);
      case ReleasePending(_) => ReleaseKeeps(s, e);
      case RetryRetired(_, _) => ReleaseKeeps(s, e);
      case FinishLease(_) => MoveKeeps(s, e);
      case Invalidate => MoveKeeps(s, e);
      case PublishNative(_) => MoveKeeps(s, e);
      case PublishCompaction(_, _) => MoveKeeps(s, e);
      case BeginClose => MoveKeeps(s, e);
      case EmptyTables(_) => MoveKeeps(s, e);
      case ReachStore => MoveKeeps(s, e);
    }
  }

  // ----- Every run ---------------------------------------------------------------------------------------------

  const START := State(map[], multiset{}, map[], [], [], [], map[], {}, [], Running, false)

  ghost predicate Possible(s: State, events: seq<Event>)
    decreases |events|
  {
    events == [] || (Enabled(s, events[0]) && Possible(Step(s, events[0]), events[1..]))
  }

  ghost function Run(s: State, events: seq<Event>): State
    requires Possible(s, events)
    decreases |events|
  {
    if events == [] then s else Run(Step(s, events[0]), events[1..])
  }

  lemma {:induction false} RunKeeps(s: State, events: seq<Event>)
    requires Inv(s) && Possible(s, events)
    ensures Inv(Run(s, events))
    decreases |events|
  {
    hide Inv, Enabled, Step;
    if events != [] {
      StepKeeps(s, events[0]);
      RunKeeps(Step(s, events[0]), events[1..]);
    }
  }

  lemma StartOK()
    ensures Inv(START)
  {
    forall r ensures Accounted(START, r) {
    }
  }

  /** In every reachable state the count of each runtime is the number of its holders, nothing has
      panicked, and its indexes were closed once if and only if no holder is left. */
  lemma EveryRunCounts(events: seq<Event>, r: Runtime)
    requires Possible(START, events)
    ensures var s := Run(START, events);
      && !s.panicked
      && (r in s.refs ==> s.refs[r] == Holders(s, r))
      && (r in s.refs ==> s.closes[r] == if Holders(s, r) == 0 then 1 else 0)
      && (r !in s.refs ==> Holders(s, r) == 0 && s.closes[r] == 0)
  {
    StartOK();
    RunKeeps(START, events);
    assert Accounted(Run(START, events), r);
  }

  /** When close reaches the store, every runtime ever made was closed once, or its close failed and
      it is kept for another attempt. */
  lemma ClosedOrKept(events: seq<Event>, r: Runtime)
    requires Possible(START, events) && Run(START, events).phase.Stored? && r in Run(START, events).refs
    ensures var s := Run(START, events);
      if r in s.retired then s.refs[r] == 1 && s.closes[r] == 0 else s.refs[r] == 0 && s.closes[r] == 1
  {
    StartOK();
    RunKeeps(START, events);
    assert Accounted(Run(START, events), r);
  }

  /** A runtime whose only reference is the owner table's is in no snapshot, lease or hold: it may be
      extended in place. */
  lemma OwnedAlone(events: seq<Event>, r: Runtime)
    requires Possible(START, events)
    requires var s := Run(START, events); InTable(s.owner, r) == 1 && r in s.refs && s.refs[r] == 1
    ensures var s := Run(START, events);
      && (forall c :: c in s.caches ==> r !in c.runtimes)
      && (forall l :: l in s.leases ==> r !in l.runtimes)
      && r !in s.sources && r !in s.pending && r !in s.retired
  {
    StartOK();
    RunKeeps(START, events);
    var s := Run(START, events);
    assert Accounted(s, r);
    assert InSnapshots(s.caches, r) == 0 && InSnapshots(s.leases, r) == 0 && InList(s.sources, r) == 0 && InList(s.pending, r) == 0;
    NotPinned(s.caches, r);
    NotPinned(s.leases, r);
  }

  lemma NotPinned(snapshots: seq<Snapshot>, r: Runtime)
    requires InSnapshots(snapshots, r) == 0
    ensures forall c :: c in snapshots ==> r !in c.runtimes
  {
    forall c | c in snapshots ensures r !in c.runtimes {
      var i :| 0 <= i < |snapshots| && snapshots[i] == c;
      SnapshotsAt(snapshots, i, r);
    }
  }
}
