/** Scalar filters over a query snapshot. The fast evaluation works from candidate bitmaps and the
    snapshot's precomputed live masks; the direct one walks every live document. Both meet the same
    specification, and the specification leaves nothing observable open. */
module Filters {
  import opened Common
  import opened Keys
  import Segments

  type Document = Segments.Document

  datatype FilterError = IndexFailed | OutOfRange | ValueFailed

  // ----- Rows --------------------------------------------------------------------------------

  function IDs(docs: seq<Document>): set<nat> {
    set d | d in docs :: d.docID
  }

  predicate NoRepeats(docs: seq<Document>) {
    forall i, j :: 0 <= i < j < |docs| ==> docs[i].docID != docs[j].docID
  }

  /** The positions, in order, of the documents whose ID is in the set. */
  function Rows(docs: seq<Document>, keys: set<nat>): (r: seq<nat>)
    ensures Increasing(r)
    ensures forall i: nat :: i in r <==> i < |docs| && docs[i].docID in keys
  {
    if docs == [] then []
    else
      var n := |docs| - 1;
      var rest := Rows(docs[..n], keys);
      assert forall k :: 0 <= k < |rest| ==> rest[k] in rest;
      if docs[n].docID in keys then rest + [n] else rest
  }

  lemma DropLast(a: seq<nat>, init: seq<nat>, last: nat)
    requires Increasing(a) && a == init + [last]
    ensures Increasing(init)
    ensures forall z: nat :: z in init <==> z in a && z != last
    ensures forall z: nat :: z in a ==> z <= last
  {
    assert a[|init|] == last && forall k :: 0 <= k < |init| ==> init[k] == a[k];
  }

  lemma {:induction false} AscendingUnique(a: seq<nat>, b: seq<nat>)
    requires Increasing(a) && Increasing(b) && forall x: nat :: x in a <==> x in b
    ensures a == b
    decreases |a|
  {
    assert a != [] ==> a[|a| - 1] in b;
    assert b != [] ==> b[|b| - 1] in a;
    if a != [] && b != [] {
      var x, y := a[|a| - 1], b[|b| - 1];
      var p, q := a[..|a| - 1], b[..|b| - 1];
      DropLast(a, p, x);
      DropLast(b, q, y);
      assert x == y;
      AscendingUnique(p, q);
    }
  }

  lemma LastIsNew(docs: seq<Document>)
    requires NoRepeats(docs) && docs != []
    ensures var n := |docs| - 1;
      IDs(docs) == IDs(docs[..n]) + {docs[n].docID} && docs[n].docID !in IDs(docs[..n]) && NoRepeats(docs[..n])
  {
    var n := |docs| - 1;
    assert docs == docs[..n] + [docs[n]];
    forall i: nat | i < n ensures docs[..n][i].docID != docs[n].docID {
      assert docs[i].docID != docs[n].docID;
    }
  }

  /** Without repeats, as many rows are selected as keys are present. */
  lemma LastRow(docs: seq<Document>, keys: set<nat>)
    requires docs != []
    ensures var n := |docs| - 1;
            |Rows(docs, keys)| == |Rows(docs[..n], keys)| + if docs[n].docID in keys then 1 else 0
  {
  }

  lemma {:induction false} RowsCount(docs: seq<Document>, keys: set<nat>)
    requires NoRepeats(docs)
    ensures |Rows(docs, keys)| == |keys * IDs(docs)|
    decreases |docs|
  {
    if docs == [] {
      assert keys * IDs(docs) == {};
    } else {
      var n := |docs| - 1;
      LastIsNew(docs);
      LastRow(docs, keys);
      RowsCount(docs[..n], keys);
      hide IDs, NoRepeats, Rows;
      var before, id := keys * IDs(docs[..n]), docs[n].docID;
      assert keys * IDs(docs) == if id in keys then before + {id} else before;
    }
  }

  /** Only the keys of the documents themselves matter. */
  lemma RowsDependOnPresent(docs: seq<Document>, a: set<nat>, b: set<nat>)
    requires forall d :: d in docs ==> (d.docID in a <==> d.docID in b)
    ensures Rows(docs, a) == Rows(docs, b)
  {
    AscendingUnique(Rows(docs, a), Rows(docs, b));
  }

  // ----- Plans and segments ----------------------------------------------------------------------

  datatype Verdict = Matches | Rejects | Fails

  /** Rows the scalar indexes propose, in ascending order. */
  datatype Candidates = Candidates(used: bool, exact: bool, rows: seq<nat>)

  /** A compiled filter: its verdict on a document, and what the indexes of a segment propose. */
  datatype Plan = Plan(alwaysFalse: bool, verdict: Document -> Verdict, candidates: nat -> Result<Candidates, FilterError>)

  /** A segment of the snapshot; `indexed` when a runtime with its row numbers exists. */
  datatype SegmentDocuments = SegmentDocuments(id: nat, docs: seq<Document>, indexed: bool)

  predicate Chosen(plan: Option<Plan>, d: Document) {
    plan.None? || (!plan.value.alwaysFalse && plan.value.verdict(d) == Matches)
  }

  function ChosenKeys(plan: Option<Plan>, docs: seq<Document>): set<nat> {
    set d | d in docs && Chosen(plan, d) :: d.docID
  }

  /** What the filter engine promises: proposals are ascending, miss no match, and hold nothing but
      matches when exact. Rows past the end are possible and are an error. */
  ghost predicate PlanOK(plan: Plan, segment: SegmentDocuments) {
    plan.candidates(segment.id).Ok? ==>
      var c := plan.candidates(segment.id).value;
      && Increasing(c.rows)
      && (c.used ==> forall row :: 0 <= row < |segment.docs| && plan.verdict(segment.docs[row]) == Matches ==> row in c.rows)
      && (c.used && c.exact ==>
            forall row :: 0 <= row < |segment.docs| && row in c.rows ==> plan.verdict(segment.docs[row]) == Matches)
  }

  predicate TooMany(candidates: nat, documents: nat, ratio: real) {
    documents > 0 && candidates as real / documents as real >= ratio
  }

  /** Proposals are used unless they cover too much of the segment. */
  predicate UsesCandidates(c: Candidates, documents: nat, ratio: real) {
    c.used && !TooMany(|c.rows|, documents, ratio)
  }

  predicate UsesIndex(plan: Option<Plan>, segment: SegmentDocuments, ratio: real) {
    && plan.Some? && !plan.value.alwaysFalse
    && plan.value.candidates(segment.id).Ok?
    && UsesCandidates(plan.value.candidates(segment.id).value, |segment.docs|, ratio)
  }

  /** In numbers: a segment's proposals are used while they are fewer than its documents times the ratio, so at
      the ratio itself they are not; an empty segment has none to reject. */
  lemma UsesIndexWhen(plan: Option<Plan>, segment: SegmentDocuments, ratio: real)
    ensures UsesIndex(plan, segment, ratio) <==>
      && plan.Some? && !plan.value.alwaysFalse && plan.value.candidates(segment.id).Ok?
      && var c := plan.value.candidates(segment.id).value;
      c.used && (segment.docs == [] || |c.rows| as real < ratio * |segment.docs| as real)
  {
    if plan.Some? && plan.value.candidates(segment.id).Ok? && segment.docs != [] {
      Share(|plan.value.candidates(segment.id).value.rows|, |segment.docs|, ratio);
    }
  }

  lemma Share(candidates: nat, documents: nat, ratio: real)
    requires documents > 0
    ensures candidates as real / documents as real >= ratio <==> candidates as real >= ratio * documents as real
  {
    var d := documents as real;
    var q := candidates as real / d;
    assert q * d == candidates as real;
    assert (q - ratio) * d == q * d - ratio * d;
    if q >= ratio {
      assert (q - ratio) * d >= 0.0;
    } else {
      assert (ratio - q) * d > 0.0;
    }
  }

  /** When a segment cannot be evaluated. */
  ghost predicate EvaluationFails(plan: Option<Plan>, segment: SegmentDocuments, ratio: real) {
    && plan.Some? && !plan.value.alwaysFalse
    && match plan.value.candidates(segment.id)
       case Err(_) => true
       case Ok(c) =>
         if UsesCandidates(c, |segment.docs|, ratio) then
           exists row :: row in c.rows && (row >= |segment.docs| || (!c.exact && plan.value.verdict(segment.docs[row]) == Fails))
         else
           exists row :: 0 <= row < |segment.docs| && plan.value.verdict(segment.docs[row]) == Fails
  }

  // ----- Evaluated filters -------------------------------------------------------------------------

  /** A membership test by document ID: absent, a set, or a bitmap over row numbers. */
  datatype Predicate = Absent | InSet(keys: set<nat>) | InBitmap(ordinals: map<nat, nat>, rows: seq<nat>) {
    predicate Accepts(key: nat) {
      match this
      case Absent => true
      case InSet(keys) => key in keys
      case InBitmap(ordinals, rows) => key in ordinals && ordinals[key] in rows
    }
  }

  datatype EvaluatedFilter = EvaluatedFilter(
    test: Predicate, ordinals: seq<nat>, bitmap: Option<seq<nat>>, matched: nat, total: nat,
    present: bool, usedIndex: bool)

  datatype SegmentFilters = SegmentFilters(global: EvaluatedFilter, local: map<nat, EvaluatedFilter>)

  /** The row list a filter stands for, whether or not it is still a bitmap. */
  function RowsOf(f: EvaluatedFilter): seq<nat> {
    if f.bitmap.Some? then f.bitmap.value else f.ordinals
  }

  /** The filter selects, among these documents, exactly those whose key is in the set. */
  ghost predicate Selects(f: EvaluatedFilter, docs: seq<Document>, keys: set<nat>) {
    && RowsOf(f) == Rows(docs, keys)
    && f.matched == |RowsOf(f)|
    && (forall key: nat :: f.test.Accepts(key) <==> key in keys && key in IDs(docs))
  }

  /** Row numbers of a document list by ID. */
  ghost predicate Numbers(ordinals: map<nat, nat>, docs: seq<Document>) {
    && ordinals.Keys == IDs(docs)
    && forall i: nat :: i < |docs| ==> docs[i].docID in ordinals && ordinals[docs[i].docID] == i
  }

  /** A bitmap turned into the list of its rows; the rest of the filter is untouched. */
  method MaterializeOrdinals(f: EvaluatedFilter) returns (r: EvaluatedFilter)
    ensures r.bitmap == None && r.ordinals == RowsOf(f)
    ensures r == f.(ordinals := r.ordinals, bitmap := None)
  {
    if f.bitmap.None? {
      return f;
    }
    var ordinals: seq<nat> := [];
    for k := 0 to |f.bitmap.value|
      invariant ordinals == f.bitmap.value[..k]
    {
      ordinals := ordinals + [f.bitmap.value[k]];
    }
    r := f.(ordinals := ordinals, bitmap := None);
  }

  /** What one segment's evaluation promises, whichever of the three ways it took. */
  ghost predicate Evaluates(plan: Option<Plan>, segment: SegmentDocuments, ratio: real, f: EvaluatedFilter) {
    && f.total == |segment.docs|
    && f.present == plan.Some?
    && f.usedIndex == UsesIndex(plan, segment, ratio)
    && if plan.None? then f.test == Absent && RowsOf(f) == [] && f.matched == 0
       else Selects(f, segment.docs, ChosenKeys(plan, segment.docs))
  }

  lemma RowsAreChosen(plan: Option<Plan>, docs: seq<Document>, rows: seq<nat>)
    requires NoRepeats(docs) && Increasing(rows)
    requires forall i: nat :: i in rows <==> i < |docs| && Chosen(plan, docs[i])
    ensures rows == Rows(docs, ChosenKeys(plan, docs))
  {
    forall i: nat ensures i in rows <==> i in Rows(docs, ChosenKeys(plan, docs)) {
      if i < |docs| && docs[i].docID in ChosenKeys(plan, docs) {
        var d :| d in docs && Chosen(plan, d) && d.docID == docs[i].docID;
        var j :| 0 <= j < |docs| && docs[j] == d;
        assert j == i;
      }
    }
    AscendingUnique(rows, Rows(docs, ChosenKeys(plan, docs)));
  }

  lemma BitmapSelects(plan: Option<Plan>, docs: seq<Document>, ordinals: map<nat, nat>, rows: seq<nat>)
    requires NoRepeats(docs) && Numbers(ordinals, docs) && rows == Rows(docs, ChosenKeys(plan, docs))
    ensures forall key: nat :: InBitmap(ordinals, rows).Accepts(key) <==> key in ChosenKeys(plan, docs) && key in IDs(docs)
  {
    forall key: nat ensures InBitmap(ordinals, rows).Accepts(key) <==> key in ChosenKeys(plan, docs) && key in IDs(docs) {
      if key in IDs(docs) {
        var i: nat :| i < |docs| && docs[i].docID == key;
        assert ordinals[key] == i;
      }
    }
  }

  lemma KeysOfRows(docs: seq<Document>, keys: set<nat>, matched: set<nat>)
    requires NoRepeats(docs)
    requires matched == set i | i in Rows(docs, keys) && i < |docs| :: docs[i].docID
    ensures matched == keys * IDs(docs) && |matched| == |Rows(docs, keys)|
  {
    RowsCount(docs, keys);
    forall key | key in keys * IDs(docs) ensures key in matched {
      var i: nat :| i < |docs| && docs[i].docID == key;
      assert i in Rows(docs, keys);
    }
    assert matched == keys * IDs(docs);
  }

  function AllRows(n: nat): (r: seq<nat>)
    ensures |r| == n && forall i :: 0 <= i < n ==> r[i] == i
  {
    seq(n, i => i)
  }

  /** Visit rows in order, keeping those that match; exact proposals need no evaluation. */
  method VisitRows(plan: Plan, docs: seq<Document>, visited: seq<nat>, exact: bool)
    returns (r: Result<(seq<nat>, set<nat>), FilterError>)
    requires Increasing(visited) && !plan.alwaysFalse
    requires exact ==> forall row: nat :: row in visited && row < |docs| ==> plan.verdict(docs[row]) == Matches
    ensures r.Err? <==> exists row: nat :: row in visited && (row >= |docs| || (!exact && plan.verdict(docs[row]) == Fails))
    ensures r.Ok? ==>
      && Increasing(r.value.0)
      && (forall x: nat :: x in r.value.0 <==> x in visited && x < |docs| && plan.verdict(docs[x]) == Matches)
      && r.value.1 == set i | i in r.value.0 && i < |docs| :: docs[i].docID
  {
    var matched: set<nat> := {};
    var rows: seq<nat> := [];
    for k := 0 to |visited|
      invariant Increasing(rows)
      invariant forall x: nat :: x in rows <==> x in visited[..k] && x < |docs| && plan.verdict(docs[x]) == Matches
      invariant forall x: nat :: x in visited[..k] ==> x < |docs| && (exact || plan.verdict(docs[x]) != Fails)
      invariant matched == set i | i in rows && i < |docs| :: docs[i].docID
    {
      var row := visited[k];
      assert visited[..k + 1] == visited[..k] + [row];
      assert row in visited;
      if row >= |docs| {
        return Err(OutOfRange);
      }
      var matches := exact;
      if !matches {
        var verdict := plan.verdict(docs[row]);
        if verdict == Fails {
          return Err(ValueFailed);
        }
        matches := verdict == Matches;
      }
      if matches {
        KeepsAscending(rows, visited, k);
        matched := matched + {docs[row].docID};
        rows := rows + [row];
      }
    }
    assert visited[..|visited|] == visited;
    r := Ok((rows, matched));
  }

  lemma KeepsAscending(rows: seq<nat>, visited: seq<nat>, k: nat)
    requires Increasing(rows) && Increasing(visited) && k < |visited|
    requires forall x: nat :: x in rows ==> x in visited[..k]
    ensures Increasing(rows + [visited[k]])
  {
    forall i | 0 <= i < |rows| ensures rows[i] < visited[k] {
      assert rows[i] in rows;
    }
  }

  /** Evaluate a plan over one segment: from its exact candidates as a bitmap when row numbers are at
      hand, by rechecking candidates, or by a scan of every document. */
  method EvaluateDocuments(plan: Option<Plan>, segment: SegmentDocuments, ratio: real, ordinals: Option<map<nat, nat>>)
    returns (r: Result<EvaluatedFilter, FilterError>)
    requires NoRepeats(segment.docs)
    requires plan.Some? ==> PlanOK(plan.value, segment)
    requires ordinals.Some? ==> Numbers(ordinals.value, segment.docs)
    ensures r.Err? <==> EvaluationFails(plan, segment, ratio)
    ensures r.Ok? ==> Evaluates(plan, segment, ratio, r.value)
    ensures ordinals.None? && r.Ok? ==> r.value.bitmap.None?
  {
    hide TooMany, Rows, NoRepeats, Increasing, Numbers, ChosenKeys, IDs;
    var docs := segment.docs;
    if plan.None? {
      return Ok(EvaluatedFilter(Absent, [], None, 0, |docs|, false, false));
    }
    if plan.value.alwaysFalse {
      NothingChosen(plan, docs);
      return Ok(EvaluatedFilter(InSet({}), [], None, 0, |docs|, true, false));
    }
    var proposed := plan.value.candidates(segment.id);
    if proposed.Err? {
      return Err(proposed.error);
    }
    var c := proposed.value;
    var used := c.used;
    if used && TooMany(|c.rows|, |docs|, ratio) {
      used := false;
    }
    if used && c.exact && ordinals.Some? {
      if exists row :: row in c.rows && row >= |docs| {
        return Err(OutOfRange);
      }
      RowsAreChosen(plan, docs, c.rows);
      BitmapSelects(plan, docs, ordinals.value, c.rows);
      return Ok(EvaluatedFilter(InBitmap(ordinals.value, c.rows), [], Some(c.rows), |c.rows|, |docs|, true, true));
    }
    var visited := if used then c.rows else AllRows(|docs|);
    AllRowsVisited(|docs|);
    var outcome := VisitRows(plan.value, docs, visited, used && c.exact);
    if outcome.Err? {
      return Err(outcome.error);
    }
    var (rows, matched) := outcome.value;
    ScanSelects(plan, docs, rows, matched);
    r := Ok(EvaluatedFilter(InSet(matched), rows, None, |matched|, |docs|, true, used));
  }

  lemma ScanSelects(plan: Option<Plan>, docs: seq<Document>, rows: seq<nat>, matched: set<nat>)
    requires NoRepeats(docs) && Increasing(rows)
    requires forall i: nat :: i in rows <==> i < |docs| && Chosen(plan, docs[i])
    requires matched == set i | i in rows && i < |docs| :: docs[i].docID
    ensures rows == Rows(docs, ChosenKeys(plan, docs)) && |matched| == |rows|
    ensures forall key: nat :: key in matched <==> key in ChosenKeys(plan, docs) && key in IDs(docs)
  {
    RowsAreChosen(plan, docs, rows);
    KeysOfRows(docs, ChosenKeys(plan, docs), matched);
  }

  lemma AllRowsVisited(n: nat)
    ensures Increasing(AllRows(n)) && forall i: nat :: i in AllRows(n) <==> i < n
  {
    forall i: nat | i < n ensures i in AllRows(n) {
      assert AllRows(n)[i] == i;
    }
  }

  lemma NothingChosen(plan: Option<Plan>, docs: seq<Document>)
    requires plan.Some? && plan.value.alwaysFalse
    ensures ChosenKeys(plan, docs) == {} && Rows(docs, ChosenKeys(plan, docs)) == []
  {
    AscendingUnique(Rows(docs, {}), []);
  }

  // ----- Live documents over several segments ---------------------------------------------------------

  function AllDocs(segments: seq<SegmentDocuments>): seq<Document> {
    if segments == [] then [] else AllDocs(segments[..|segments| - 1]) + segments[|segments| - 1].docs
  }

  /** Segments have distinct IDs and no document twice; the live documents are some of theirs. */
  ghost predicate LiveOK(live: seq<Document>, segments: seq<SegmentDocuments>) {
    && (forall i, j :: 0 <= i < j < |segments| ==> segments[i].id != segments[j].id)
    && NoRepeats(AllDocs(segments)) && NoRepeats(live)
    && (forall d :: d in live ==> d in AllDocs(segments))
  }

  lemma {:induction false} SegmentWithin(segments: seq<SegmentDocuments>, k: nat)
    requires k < |segments| && NoRepeats(AllDocs(segments))
    ensures NoRepeats(segments[k].docs)
    ensures forall d :: d in segments[k].docs ==> d in AllDocs(segments)
  {
    var n := |segments| - 1;
    var before, last := AllDocs(segments[..n]), segments[n].docs;
    var all := AllDocs(segments);
    assert all == before + last;
    if k == n {
      assert forall i :: 0 <= i < |last| ==> last[i] == all[|before| + i];
    } else {
      assert forall i :: 0 <= i < |before| ==> before[i] == all[i];
      SegmentWithin(segments[..n], k);
    }
  }

  lemma SameDocument(docs: seq<Document>, d: Document, e: Document)
    requires NoRepeats(docs) && d in docs && e in docs && d.docID == e.docID
    ensures d == e
  {
    var i :| 0 <= i < |docs| && docs[i] == d;
    var j :| 0 <= j < |docs| && docs[j] == e;
    assert i == j;
  }

  /** Within a segment, the chosen live keys are the keys that are live and chosen there. */
  lemma ChosenInSegment(plan: Option<Plan>, live: seq<Document>, segments: seq<SegmentDocuments>, k: nat)
    requires LiveOK(live, segments) && k < |segments|
    ensures forall d :: d in segments[k].docs ==>
      (d.docID in ChosenKeys(plan, live) <==> d.docID in IDs(live) && d.docID in ChosenKeys(plan, segments[k].docs))
  {
    SegmentWithin(segments, k);
    var docs := segments[k].docs;
    forall d | d in docs
      ensures d.docID in ChosenKeys(plan, live) <==> d.docID in IDs(live) && d.docID in ChosenKeys(plan, docs)
    {
      if d.docID in IDs(live) {
        var e :| e in live && e.docID == d.docID;
        SameDocument(AllDocs(segments), d, e);
        if d.docID in ChosenKeys(plan, live) {
          var f :| f in live && Chosen(plan, f) && f.docID == d.docID;
          SameDocument(live, e, f);
        }
        if d.docID in ChosenKeys(plan, docs) {
          var f :| f in docs && Chosen(plan, f) && f.docID == d.docID;
          SameDocument(docs, d, f);
        }
      }
    }
  }

  // ----- What an evaluation over a snapshot answers ----------------------------------------------------

  /** One segment's share: the live documents that match, counted against its live documents. */
  ghost predicate LocalAnswer(plan: Option<Plan>, live: seq<Document>, segment: SegmentDocuments, ratio: real, f: EvaluatedFilter) {
    && Selects(f, segment.docs, ChosenKeys(plan, live))
    && f.total == |Rows(segment.docs, IDs(live))|
    && f.present == plan.Some?
    && f.usedIndex == UsesIndex(plan, segment, ratio)
  }

  ghost predicate AnyUsesIndex(plan: Option<Plan>, segments: seq<SegmentDocuments>, ratio: real) {
    exists k :: 0 <= k < |segments| && segments[k].docs != [] && UsesIndex(plan, segments[k], ratio)
  }

  ghost predicate GlobalAnswer(plan: Option<Plan>, live: seq<Document>, segments: seq<SegmentDocuments>, ratio: real, f: EvaluatedFilter) {
    && Selects(f, live, ChosenKeys(plan, live))
    && f.total == |live|
    && f.present == plan.Some?
    && f.usedIndex == AnyUsesIndex(plan, segments, ratio)
  }

  /** Exactly the nonempty segments among the first have an answer. */
  ghost predicate Covers(segments: seq<SegmentDocuments>, local: map<nat, EvaluatedFilter>) {
    forall id: nat :: id in local <==> exists k :: 0 <= k < |segments| && segments[k].docs != [] && segments[k].id == id
  }

  ghost predicate LocalAnswers(plan: Option<Plan>, live: seq<Document>, segments: seq<SegmentDocuments>, ratio: real, local: map<nat, EvaluatedFilter>) {
    && Covers(segments, local)
    && forall k :: 0 <= k < |segments| && segments[k].docs != [] ==> LocalAnswer(plan, live, segments[k], ratio, local[segments[k].id])
  }

  /** The answer both evaluations give. */
  ghost predicate Answers(plan: Option<Plan>, live: seq<Document>, segments: seq<SegmentDocuments>, ratio: real, r: SegmentFilters) {
    LocalAnswers(plan, live, segments, ratio, r.local) && GlobalAnswer(plan, live, segments, ratio, r.global)
  }

  /** Indistinguishable to a query: same membership, same rows once listed, same counts and marks. */
  ghost predicate Agree(f: EvaluatedFilter, g: EvaluatedFilter) {
    && (forall key: nat :: f.test.Accepts(key) <==> g.test.Accepts(key))
    && RowsOf(f) == RowsOf(g)
    && f.matched == g.matched && f.total == g.total && f.present == g.present && f.usedIndex == g.usedIndex
  }

  /** The whole mask: nothing is deleted, so no membership test is needed. */
  ghost predicate WhollyLiveMask(live: seq<Document>, segments: seq<SegmentDocuments>, r: SegmentFilters) {
    && Covers(segments, r.local)
    && (forall k :: 0 <= k < |segments| && segments[k].docs != [] ==>
          r.local[segments[k].id] == EvaluatedFilter(Absent, [], None, |segments[k].docs|, |segments[k].docs|, false, false))
    && r.global == EvaluatedFilter(Absent, [], None, |live|, |live|, false, false)
  }

  ghost predicate NoneAbsent(local: map<nat, EvaluatedFilter>) {
    forall id :: id in local ==> !local[id].test.Absent?
  }

  /** The specification of both evaluations. Without a plan and with nothing deleted, filters are
      unconstrained; otherwise they are the answer. */
  ghost predicate Answered(plan: Option<Plan>, live: seq<Document>, segments: seq<SegmentDocuments>, ratio: real, r: SegmentFilters) {
    if plan.None? && AllDocs(segments) == live then WhollyLiveMask(live, segments, r)
    else Answers(plan, live, segments, ratio, r) && (plan.None? ==> NoneAbsent(r.local))
  }

  lemma AgreesWithItself(f: EvaluatedFilter)
    ensures Agree(f, f)
  {
  }

  lemma LocalsAgree(plan: Option<Plan>, live: seq<Document>, segment: SegmentDocuments, ratio: real, f: EvaluatedFilter, g: EvaluatedFilter)
    requires LocalAnswer(plan, live, segment, ratio, f) && LocalAnswer(plan, live, segment, ratio, g)
    ensures Agree(f, g)
  {
    hide UsesIndex, Rows, ChosenKeys, IDs;
  }

  lemma GlobalsAgree(plan: Option<Plan>, live: seq<Document>, segments: seq<SegmentDocuments>, ratio: real, f: EvaluatedFilter, g: EvaluatedFilter)
    requires GlobalAnswer(plan, live, segments, ratio, f) && GlobalAnswer(plan, live, segments, ratio, g)
    ensures Agree(f, g)
  {
    hide AnyUsesIndex, Rows, ChosenKeys, IDs;
  }

  /** The specification leaves nothing open: any two results agree locally and globally. */
  lemma AnsweredAgree(plan: Option<Plan>, live: seq<Document>, segments: seq<SegmentDocuments>, ratio: real, a: SegmentFilters, b: SegmentFilters)
    requires Answered(plan, live, segments, ratio, a) && Answered(plan, live, segments, ratio, b)
    ensures Agree(a.global, b.global)
    ensures a.local.Keys == b.local.Keys && forall id :: id in a.local ==> Agree(a.local[id], b.local[id])
  {
    hide LocalAnswer, GlobalAnswer, Agree, AllDocs, NoneAbsent;
    if plan.None? && AllDocs(segments) == live {
      AgreesWithItself(a.global);
    } else {
      GlobalsAgree(plan, live, segments, ratio, a.global, b.global);
    }
    forall id: nat | id in a.local ensures id in b.local && Agree(a.local[id], b.local[id]) {
      var k :| 0 <= k < |segments| && segments[k].docs != [] && segments[k].id == id;
      if plan.None? && AllDocs(segments) == live {
        AgreesWithItself(a.local[id]);
      } else {
        assert LocalAnswer(plan, live, segments[k], ratio, a.local[id]);
        assert LocalAnswer(plan, live, segments[k], ratio, b.local[id]);
        LocalsAgree(plan, live, segments[k], ratio, a.local[id], b.local[id]);
      }
    }
  }

  // ----- The direct evaluation --------------------------------------------------------------------------

  /** Keys of the live documents of a segment that a predicate accepts. */
  function AcceptedKeys(docs: seq<Document>, live: set<nat>, p: Predicate): set<nat> {
    set d | d in docs && d.docID in live && p.Accepts(d.docID) :: d.docID
  }

  lemma RowsStep(docs: seq<Document>, k: nat, keys: set<nat>)
    requires k < |docs|
    ensures Rows(docs[..k + 1], keys) == Rows(docs[..k], keys) + if docs[k].docID in keys then [k] else []
  {
    assert docs[..k + 1][..k] == docs[..k];
  }

  lemma AcceptedStep(docs: seq<Document>, k: nat, live: set<nat>, p: Predicate)
    requires k < |docs|
    ensures var d := docs[k].docID;
      AcceptedKeys(docs[..k + 1], live, p) == AcceptedKeys(docs[..k], live, p) + if d in live && p.Accepts(d) then {d} else {}
    ensures docs[k].docID in AcceptedKeys(docs, live, p) <==> docs[k].docID in live && p.Accepts(docs[k].docID)
  {
    assert docs[..k + 1] == docs[..k] + [docs[k]];
  }

  /** Walk a segment's documents, keeping the live ones the predicate accepts. */
  method MatchLive(docs: seq<Document>, live: set<nat>, p: Predicate) returns (rows: seq<nat>, keys: set<nat>, matched: nat, total: nat)
    requires NoRepeats(docs)
    ensures keys == AcceptedKeys(docs, live, p)
    ensures rows == Rows(docs, keys) && matched == |rows|
    ensures total == |Rows(docs, live)|
  {
    ghost var accepted := AcceptedKeys(docs, live, p);
    assert Rows(docs[..0], accepted) == [] && Rows(docs[..0], live) == [];
    assert AcceptedKeys(docs[..0], live, p) == {};
    hide *;
    rows, keys, matched, total := [], {}, 0, 0;
    for ordinal := 0 to |docs|
      invariant rows == Rows(docs[..ordinal], accepted) && matched == |rows|
      invariant keys == AcceptedKeys(docs[..ordinal], live, p)
      invariant total == |Rows(docs[..ordinal], live)|
    {
      var key := docs[ordinal].docID;
      RowsStep(docs, ordinal, accepted);
      RowsStep(docs, ordinal, live);
      AcceptedStep(docs, ordinal, live, p);
      if key in live {
        total := total + 1;
        if p.Accepts(key) {
          keys := keys + {key};
          rows := rows + [ordinal];
          matched := matched + 1;
        }
      }
    }
    assert docs[..|docs|] == docs;
  }

  /** Whether the segments' documents are, in order, exactly the live ones. */
  method WhollyLive(live: seq<Document>, segments: seq<SegmentDocuments>) returns (whole: bool)
    requires LiveOK(live, segments)
    ensures whole <==> AllDocs(segments) == live
  {
    var liveIndex := 0;
    for k := 0 to |segments|
      invariant liveIndex <= |live| && AllDocs(segments[..k]) == live[..liveIndex]
    {
      assert segments[..k + 1][..k] == segments[..k];
      PrefixOfAll(segments, k + 1);
      for i := 0 to |segments[k].docs|
        invariant liveIndex <= |live| && AllDocs(segments[..k]) + segments[k].docs[..i] == live[..liveIndex]
      {
        var d := segments[k].docs[i];
        ghost var before := AllDocs(segments[..k]) + segments[k].docs[..i];
        assert AllDocs(segments)[|before|] == d;
        if liveIndex >= |live| || live[liveIndex].docID != d.docID {
          assert |before| == liveIndex;
          return false;
        }
        SameDocument(AllDocs(segments), live[liveIndex], d);
        assert before + [d] == AllDocs(segments[..k]) + segments[k].docs[..i + 1];
        assert live[..liveIndex + 1] == live[..liveIndex] + [live[liveIndex]];
        liveIndex := liveIndex + 1;
      }
      assert segments[k].docs[..|segments[k].docs|] == segments[k].docs;
    }
    assert segments[..|segments|] == segments;
    assert live[..|live|] == live;
    whole := liveIndex == |live|;
  }

  lemma {:induction false} PrefixOfAll(segments: seq<SegmentDocuments>, k: nat)
    requires k <= |segments|
    ensures AllDocs(segments[..k]) <= AllDocs(segments)
    decreases |segments|
  {
    if k == |segments| {
      assert segments[..k] == segments;
    } else {
      var n := |segments| - 1;
      assert segments[..n][..k] == segments[..k];
      PrefixOfAll(segments[..n], k);
    }
  }

  /** Keys the direct walk accepts are the chosen live keys present in the segment. */
  lemma AcceptedAreChosen(plan: Option<Plan>, live: seq<Document>, segments: seq<SegmentDocuments>, k: nat, p: Predicate)
    requires LiveOK(live, segments) && k < |segments|
    requires if plan.None? then p == Absent
      else forall key: nat :: p.Accepts(key) <==> key in ChosenKeys(plan, segments[k].docs) && key in IDs(segments[k].docs)
    ensures AcceptedKeys(segments[k].docs, IDs(live), p) == ChosenKeys(plan, live) * IDs(segments[k].docs)
    ensures Rows(segments[k].docs, AcceptedKeys(segments[k].docs, IDs(live), p)) == Rows(segments[k].docs, ChosenKeys(plan, live))
  {
    var docs := segments[k].docs;
    ChosenInSegment(plan, live, segments, k);
    forall d | d in docs
      ensures d.docID in AcceptedKeys(docs, IDs(live), p) <==> d.docID in ChosenKeys(plan, live)
    {
      if plan.None? {
        assert d.docID in ChosenKeys(plan, docs);
      }
    }
    RowsDependOnPresent(docs, AcceptedKeys(docs, IDs(live), p), ChosenKeys(plan, live));
  }

  /** One segment of the direct evaluation. */
  method EvaluateLocal(plan: Option<Plan>, live: seq<Document>, liveIDs: set<nat>, segments: seq<SegmentDocuments>, k: nat, ratio: real)
    returns (r: Result<(EvaluatedFilter, set<nat>), FilterError>)
    requires LiveOK(live, segments) && k < |segments| && liveIDs == IDs(live)
    requires plan.Some? ==> PlanOK(plan.value, segments[k])
    ensures r.Err? <==> EvaluationFails(plan, segments[k], ratio)
    ensures r.Ok? ==>
      && LocalAnswer(plan, live, segments[k], ratio, r.value.0)
      && r.value.0.test == InSet(r.value.1)
      && r.value.1 == ChosenKeys(plan, live) * IDs(segments[k].docs)
  {
    SegmentWithin(segments, k);
    hide LiveOK, NoRepeats, PlanOK, EvaluationFails, UsesIndex, Rows, ChosenKeys, AcceptedKeys, IDs, AllDocs;
    var outcome := EvaluateDocuments(plan, segments[k], ratio, None);
    if outcome.Err? {
      return Err(outcome.error);
    }
    var local := outcome.value;
    AcceptedAreChosen(plan, live, segments, k, local.test);
    var rows, keys, matched, total := MatchLive(segments[k].docs, liveIDs, local.test);
    r := Ok((local.(ordinals := rows, total := total, matched := matched, test := InSet(keys)), keys));
  }

  lemma CoverStep(segments: seq<SegmentDocuments>, k: nat, local: map<nat, EvaluatedFilter>, f: EvaluatedFilter)
    requires k < |segments| && Covers(segments[..k], local)
    ensures segments[k].docs == [] ==> Covers(segments[..k + 1], local)
    ensures segments[k].docs != [] ==> Covers(segments[..k + 1], local[segments[k].id := f])
  {
    var now := segments[..k + 1];
    var next := if segments[k].docs == [] then local else local[segments[k].id := f];
    forall id: nat | id in next ensures exists j :: 0 <= j < |now| && now[j].docs != [] && now[j].id == id {
      if id in local {
        var j :| 0 <= j < k && segments[..k][j].docs != [] && segments[..k][j].id == id;
        assert now[j].docs != [] && now[j].id == id;
      } else {
        assert now[k].docs != [] && now[k].id == id;
      }
    }
    forall j | 0 <= j < |now| && now[j].docs != [] ensures now[j].id in next {
      if j < k {
        assert segments[..k][j] == now[j];
      }
    }
  }

  lemma LocalStep(plan: Option<Plan>, live: seq<Document>, segments: seq<SegmentDocuments>, ratio: real, k: nat,
                  local: map<nat, EvaluatedFilter>, f: EvaluatedFilter)
    requires k < |segments| && LiveOK(live, segments) && LocalAnswers(plan, live, segments[..k], ratio, local)
    requires segments[k].docs != [] ==> LocalAnswer(plan, live, segments[k], ratio, f)
    ensures LocalAnswers(plan, live, segments[..k + 1], ratio, if segments[k].docs == [] then local else local[segments[k].id := f])
  {
    hide LocalAnswer;
    CoverStep(segments, k, local, f);
    var next := if segments[k].docs == [] then local else local[segments[k].id := f];
    var now := segments[..k + 1];
    forall j | 0 <= j < |now| && now[j].docs != [] ensures LocalAnswer(plan, live, now[j], ratio, next[now[j].id]) {
      if j < k {
        assert segments[..k][j] == now[j] && segments[j].id != segments[k].id;
      }
    }
  }

  lemma GatherStep(segments: seq<SegmentDocuments>, k: nat, keys: set<nat>)
    requires k < |segments|
    ensures keys * IDs(AllDocs(segments[..k + 1])) == keys * IDs(AllDocs(segments[..k])) + keys * IDs(segments[k].docs)
  {
    assert segments[..k + 1][..k] == segments[..k];
  }

  lemma NothingYet(plan: Option<Plan>, live: seq<Document>, segments: seq<SegmentDocuments>, ratio: real)
    ensures ChosenKeys(plan, live) * IDs(AllDocs(segments[..0])) == {} && IDs([]) == {}
    ensures LocalAnswers(plan, live, segments[..0], ratio, map[])
  {
    hide LocalAnswer;
  }

  lemma NoPlanNeverFails(segments: seq<SegmentDocuments>, ratio: real)
    ensures !AnyFails(None, segments, ratio)
  {
  }

  lemma AllGathered(plan: Option<Plan>, live: seq<Document>, segments: seq<SegmentDocuments>)
    requires LiveOK(live, segments)
    ensures ChosenKeys(plan, live) * IDs(AllDocs(segments)) == ChosenKeys(plan, live) == ChosenKeys(plan, live) * IDs(live)
    ensures |ChosenKeys(plan, live)| == |Rows(live, ChosenKeys(plan, live))|
  {
    RowsCount(live, ChosenKeys(plan, live));
  }

  ghost predicate AnyFails(plan: Option<Plan>, segments: seq<SegmentDocuments>, ratio: real) {
    exists k :: 0 <= k < |segments| && segments[k].docs != [] && EvaluationFails(plan, segments[k], ratio)
  }

  /** Evaluate every nonempty segment, gathering all matching keys. */
  method EvaluateLocals(plan: Option<Plan>, live: seq<Document>, segments: seq<SegmentDocuments>, ratio: real)
    returns (r: Result<(map<nat, EvaluatedFilter>, set<nat>), FilterError>)
    requires LiveOK(live, segments)
    requires plan.Some? ==> forall k :: 0 <= k < |segments| ==> PlanOK(plan.value, segments[k])
    ensures r.Err? <==> AnyFails(plan, segments, ratio)
    ensures r.Ok? ==> LocalAnswers(plan, live, segments, ratio, r.value.0) && NoneAbsent(r.value.0)
    ensures r.Ok? ==> r.value.1 == ChosenKeys(plan, live)
  {
    hide LiveOK, PlanOK, EvaluationFails, UsesIndex, Rows, ChosenKeys, IDs, AllDocs, LocalAnswer, LocalAnswers, Covers, Selects;
    NothingYet(plan, live, segments, ratio);
    AllGathered(plan, live, segments);
    var liveIDs := IDs(live);
    var local: map<nat, EvaluatedFilter> := map[];
    var matched: set<nat> := {};
    for k := 0 to |segments|
      invariant LocalAnswers(plan, live, segments[..k], ratio, local) && NoneAbsent(local)
      invariant matched == ChosenKeys(plan, live) * IDs(AllDocs(segments[..k]))
      invariant forall j :: 0 <= j < k && segments[j].docs != [] ==> !EvaluationFails(plan, segments[j], ratio)
    {
      GatherStep(segments, k, ChosenKeys(plan, live));
      if segments[k].docs == [] {
        LocalStep(plan, live, segments, ratio, k, local, EvaluatedFilter(Absent, [], None, 0, 0, false, false));
      } else {
        var outcome := EvaluateLocal(plan, live, liveIDs, segments, k, ratio);
        if outcome.Err? {
          return Err(outcome.error);
        }
        LocalStep(plan, live, segments, ratio, k, local, outcome.value.0);
        matched := matched + outcome.value.1;
        local := local[segments[k].id := outcome.value.0];
      }
    }
    assert segments[..|segments|] == segments;
    r := Ok((local, matched));
  }

  /** The evaluation that walks every live document. */
  method EvaluateSegmentFilters(plan: Option<Plan>, live: seq<Document>, segments: seq<SegmentDocuments>, ratio: real)
    returns (r: Result<SegmentFilters, FilterError>)
    requires LiveOK(live, segments)
    requires plan.Some? ==> forall k :: 0 <= k < |segments| ==> PlanOK(plan.value, segments[k])
    ensures r.Err? <==> AnyFails(plan, segments, ratio)
    ensures r.Ok? ==> Answered(plan, live, segments, ratio, r.value)
  {
    hide LiveOK, PlanOK, AnyFails, AnyUsesIndex, Covers, LocalAnswers, Rows, ChosenKeys, IDs, AllDocs;
    AllGathered(plan, live, segments);
    NoPlanNeverFails(segments, ratio);
    if plan.None? {
      var whole := WhollyLive(live, segments);
      if whole {
        var masks := WholeMask(live, segments);
        return Ok(SegmentFilters(EvaluatedFilter(Absent, [], None, |live|, |live|, false, false), masks));
      }
    }
    var outcome := EvaluateLocals(plan, live, segments, ratio);
    if outcome.Err? {
      return Err(outcome.error);
    }
    var (local, matched) := outcome.value;
    var rows := RowsWithin(live, matched);
    var usedIndex := AnyMarked(plan, live, segments, ratio, local);
    assert forall key: nat :: key in matched <==> key in matched && key in IDs(live);
    r := Ok(SegmentFilters(EvaluatedFilter(InSet(matched), rows, None, |matched|, |live|, plan.Some?, usedIndex), local));
  }

  method WholeMask(live: seq<Document>, segments: seq<SegmentDocuments>) returns (local: map<nat, EvaluatedFilter>)
    requires LiveOK(live, segments)
    ensures Covers(segments, local)
    ensures forall k :: 0 <= k < |segments| && segments[k].docs != [] ==>
      local[segments[k].id] == EvaluatedFilter(Absent, [], None, |segments[k].docs|, |segments[k].docs|, false, false)
  {
    local := map[];
    for k := 0 to |segments|
      invariant Covers(segments[..k], local)
      invariant forall j :: 0 <= j < k && segments[j].docs != [] ==>
        segments[j].id in local && local[segments[j].id] == EvaluatedFilter(Absent, [], None, |segments[j].docs|, |segments[j].docs|, false, false)
    {
      var count := |segments[k].docs|;
      CoverStep(segments, k, local, EvaluatedFilter(Absent, [], None, count, count, false, false));
      if count > 0 {
        local := local[segments[k].id := EvaluatedFilter(Absent, [], None, count, count, false, false)];
      }
    }
    assert segments[..|segments|] == segments;
  }

  method RowsWithin(docs: seq<Document>, keys: set<nat>) returns (rows: seq<nat>)
    ensures rows == Rows(docs, keys)
  {
    rows := [];
    for ordinal := 0 to |docs|
      invariant rows == Rows(docs[..ordinal], keys)
    {
      RowsStep(docs, ordinal, keys);
      if docs[ordinal].docID in keys {
        rows := rows + [ordinal];
      }
    }
    assert docs[..|docs|] == docs;
  }

  method AnyMarked(plan: Option<Plan>, live: seq<Document>, segments: seq<SegmentDocuments>, ratio: real,
                   local: map<nat, EvaluatedFilter>) returns (usedIndex: bool)
    requires LocalAnswers(plan, live, segments, ratio, local)
    ensures usedIndex == AnyUsesIndex(plan, segments, ratio)
  {
    hide Selects, UsesIndex, Rows;
    usedIndex := false;
    var ids := local.Keys;
    while ids != {}
      invariant ids <= local.Keys
      invariant usedIndex <==> exists id :: id in local.Keys - ids && local[id].usedIndex
      decreases |ids|
    {
      var id :| id in ids;
      usedIndex := usedIndex || local[id].usedIndex;
      ids := ids - {id};
    }
    MarksAreUses(plan, live, segments, ratio, local);
  }

  lemma MarksAreUses(plan: Option<Plan>, live: seq<Document>, segments: seq<SegmentDocuments>, ratio: real, local: map<nat, EvaluatedFilter>)
    requires LocalAnswers(plan, live, segments, ratio, local)
    ensures AnyUsesIndex(plan, segments, ratio) <==> exists id :: id in local && local[id].usedIndex
  {
    hide Selects, UsesIndex, Rows;
    forall k | 0 <= k < |segments| && segments[k].docs != []
      ensures local[segments[k].id].usedIndex == UsesIndex(plan, segments[k], ratio)
    {
      assert LocalAnswer(plan, live, segments[k], ratio, local[segments[k].id]);
    }
  }

  // ----- The snapshot evaluation --------------------------------------------------------------------------

  /** A query snapshot: its live documents with their row numbers, its segments, and the live mask
      computed when it was created. */
  datatype Snapshot = Snapshot(live: seq<Document>, ordinals: map<nat, nat>, segments: seq<SegmentDocuments>, mask: SegmentFilters)

  /** The mask is the direct evaluation without a plan, for whatever ratio: see `MaskIgnoresRatio`. */
  ghost predicate SnapshotOK(s: Snapshot) {
    && LiveOK(s.live, s.segments)
    && Numbers(s.ordinals, s.live)
    && Answered(None, s.live, s.segments, 0.0, s.mask)
  }

  /** Without a plan no index is used, so the ratio that guards their use changes nothing. */
  lemma MaskIgnoresRatio(live: seq<Document>, segments: seq<SegmentDocuments>, a: real, b: real, mask: SegmentFilters)
    requires Answered(None, live, segments, a, mask)
    ensures Answered(None, live, segments, b, mask)
  {
    hide Selects, Rows, IDs, ChosenKeys, AllDocs, Covers, WhollyLiveMask, NoneAbsent;
    if AllDocs(segments) != live {
      LocalsIgnoreRatio(live, segments, a, b, mask.local);
      assert AnyUsesIndex(None, segments, a) == AnyUsesIndex(None, segments, b);
    }
  }

  lemma LocalsIgnoreRatio(live: seq<Document>, segments: seq<SegmentDocuments>, a: real, b: real, local: map<nat, EvaluatedFilter>)
    requires LocalAnswers(None, live, segments, a, local)
    ensures LocalAnswers(None, live, segments, b, local)
  {
    hide Selects, Rows, IDs, ChosenKeys;
    forall k | 0 <= k < |segments| && segments[k].docs != []
      ensures LocalAnswer(None, live, segments[k], b, local[segments[k].id])
    {
      assert LocalAnswer(None, live, segments[k], a, local[segments[k].id]);
    }
  }

  method CreateSnapshot(live: seq<Document>, segments: seq<SegmentDocuments>, ratio: real) returns (r: Result<Snapshot, FilterError>)
    requires LiveOK(live, segments)
    ensures r.Ok? && SnapshotOK(r.value) && r.value.live == live && r.value.segments == segments
  {
    NoPlanNeverFails(segments, ratio);
    hide AnyFails, Answers, WhollyLiveMask, AllDocs;
    var mask := EvaluateSegmentFilters(None, live, segments, ratio);
    MaskIgnoresRatio(live, segments, ratio, 0.0, mask.value);
    r := Ok(Snapshot(live, IndexOrdinals(live), segments, mask.value));
  }

  function IndexOrdinals(docs: seq<Document>): (r: map<nat, nat>)
    requires NoRepeats(docs)
    ensures Numbers(r, docs)
  {
    map d | d in docs :: d.docID := OrdinalOf(docs, d)
  }

  function OrdinalOf(docs: seq<Document>, d: Document): (i: nat)
    requires d in docs
    ensures i < |docs| && docs[i] == d
  {
    if docs[0] == d then 0 else OrdinalOf(docs[1..], d) + 1
  }

  /** What a mask says of one segment: how many documents are live, and which unless all are. */
  ghost predicate MaskSays(f: EvaluatedFilter, docs: seq<Document>, live: set<nat>, whole: bool) {
    && f.matched == |Rows(docs, live)|
    && (f.test.Absent? <==> whole)
    && (whole ==> IDs(docs) <= live)
    && (!whole ==> forall key: nat :: f.test.Accepts(key) <==> key in live && key in IDs(docs))
  }

  lemma WholeMaskSays(s: Snapshot, k: nat)
    requires LiveOK(s.live, s.segments) && WhollyLiveMask(s.live, s.segments, s.mask) && AllDocs(s.segments) == s.live
    requires k < |s.segments| && s.segments[k].docs != []
    ensures s.segments[k].id in s.mask.local
    ensures MaskSays(s.mask.local[s.segments[k].id], s.segments[k].docs, IDs(s.live), true)
  {
    SegmentWithin(s.segments, k);
    AllSelected(s.segments[k].docs, IDs(s.live));
  }

  lemma PartialMaskSays(s: Snapshot, k: nat)
    requires LocalAnswers(None, s.live, s.segments, 0.0, s.mask.local) && NoneAbsent(s.mask.local)
    requires k < |s.segments| && s.segments[k].docs != []
    ensures s.segments[k].id in s.mask.local
    ensures MaskSays(s.mask.local[s.segments[k].id], s.segments[k].docs, IDs(s.live), false)
  {
    assert s.segments[k].id in s.mask.local;
    assert LocalAnswer(None, s.live, s.segments[k], 0.0, s.mask.local[s.segments[k].id]);
    assert ChosenKeys(None, s.live) == IDs(s.live);
  }

  lemma MaskOf(s: Snapshot, k: nat)
    requires SnapshotOK(s) && k < |s.segments| && s.segments[k].docs != []
    ensures s.segments[k].id in s.mask.local
    ensures MaskSays(s.mask.local[s.segments[k].id], s.segments[k].docs, IDs(s.live), AllDocs(s.segments) == s.live)
  {
    hide LiveOK, LocalAnswers, WhollyLiveMask, MaskSays, NoneAbsent;
    if AllDocs(s.segments) == s.live {
      WholeMaskSays(s, k);
    } else {
      PartialMaskSays(s, k);
    }
  }

  lemma AllSelected(docs: seq<Document>, keys: set<nat>)
    requires IDs(docs) <= keys
    ensures Rows(docs, keys) == AllRows(|docs|)
  {
    AllRowsVisited(|docs|);
    AscendingUnique(Rows(docs, keys), AllRows(|docs|));
  }

  lemma SelectsTransfer(f: EvaluatedFilter, docs: seq<Document>, a: set<nat>, b: set<nat>)
    requires Selects(f, docs, a) && forall d :: d in docs ==> (d.docID in a <==> d.docID in b)
    ensures Selects(f, docs, b)
  {
    RowsDependOnPresent(docs, a, b);
  }

  /** Keep the rows whose document the mask accepts. */
  method KeepLive(docs: seq<Document>, rows: seq<nat>, mask: Predicate) returns (accepted: seq<nat>, keys: set<nat>)
    requires Increasing(rows) && forall i: nat :: i in rows ==> i < |docs|
    ensures Increasing(accepted) && forall i: nat :: i in accepted ==> i < |docs|
    ensures forall i: nat :: i in accepted <==> i in rows && mask.Accepts(docs[i].docID)
    ensures forall key: nat :: key in keys <==> exists i: nat :: i in accepted && docs[i].docID == key
  {
    accepted, keys := [], {};
    for k := 0 to |rows|
      invariant Increasing(accepted)
      invariant forall i: nat :: i in rows[..k] ==> i in rows
      invariant forall i: nat :: i in accepted <==> i in rows[..k] && mask.Accepts(docs[i].docID)
      invariant forall key: nat :: key in keys <==> exists i: nat :: i in accepted && docs[i].docID == key
    {
      var ordinal := rows[k];
      assert ordinal in rows && rows[..k + 1] == rows[..k] + [ordinal];
      var key := docs[ordinal].docID;
      if mask.Accepts(key) {
        KeepsAscending(accepted, rows, k);
        keys := keys + {key};
        accepted := accepted + [ordinal];
        assert accepted[|accepted| - 1] == ordinal;
      }
    }
    assert rows[..|rows|] == rows;
  }

  lemma KeptAreChosen(plan: Option<Plan>, live: seq<Document>, segments: seq<SegmentDocuments>, k: nat,
                      mask: Predicate, accepted: seq<nat>, keys: set<nat>)
    requires LiveOK(live, segments) && k < |segments|
    requires forall key: nat :: mask.Accepts(key) <==> key in IDs(live) && key in IDs(segments[k].docs)
    requires var docs := segments[k].docs;
      && Increasing(accepted)
      && (forall i: nat :: i in accepted ==> i < |docs|)
      && (forall i: nat :: i in accepted <==> i in Rows(docs, ChosenKeys(plan, docs)) && mask.Accepts(docs[i].docID))
      && (forall key: nat :: key in keys <==> exists i: nat :: i in accepted && docs[i].docID == key)
    ensures accepted == Rows(segments[k].docs, ChosenKeys(plan, live))
    ensures forall key: nat :: key in keys <==> key in ChosenKeys(plan, live) && key in IDs(segments[k].docs)
  {
    var docs := segments[k].docs;
    ChosenInSegment(plan, live, segments, k);
    AscendingUnique(accepted, Rows(docs, ChosenKeys(plan, live)));
    forall key: nat | key in ChosenKeys(plan, live) && key in IDs(docs) ensures key in keys {
      var i: nat :| i < |docs| && docs[i].docID == key;
      assert i in accepted;
    }
  }

  /** Restrict a segment's filter to its live documents. */
  method ApplyMask(plan: Plan, s: Snapshot, k: nat, mask: EvaluatedFilter, f: EvaluatedFilter) returns (r: EvaluatedFilter)
    requires LiveOK(s.live, s.segments) && k < |s.segments|
    requires MaskSays(mask, s.segments[k].docs, IDs(s.live), AllDocs(s.segments) == s.live)
    requires Selects(f, s.segments[k].docs, ChosenKeys(Some(plan), s.segments[k].docs))
    ensures Selects(r, s.segments[k].docs, ChosenKeys(Some(plan), s.live))
    ensures r.total == |Rows(s.segments[k].docs, IDs(s.live))| && r.present == f.present && r.usedIndex == f.usedIndex
  {
    hide LiveOK, Rows, ChosenKeys, AllDocs;
    var docs := s.segments[k].docs;
    r := f;
    if !mask.test.Absent? {
      r := MaterializeOrdinals(r);
      var accepted, keys := KeepLive(docs, r.ordinals, mask.test);
      KeptAreChosen(Some(plan), s.live, s.segments, k, mask.test, accepted, keys);
      r := r.(ordinals := accepted, matched := |accepted|, test := InSet(keys));
    } else {
      ChosenInSegment(Some(plan), s.live, s.segments, k);
      SelectsTransfer(r, docs, ChosenKeys(Some(plan), docs), ChosenKeys(Some(plan), s.live));
    }
    r := r.(total := mask.matched);
  }

  /** One segment of the snapshot evaluation. */
  method EvaluateMasked(plan: Plan, s: Snapshot, k: nat, ratio: real) returns (r: Result<EvaluatedFilter, FilterError>)
    requires SnapshotOK(s) && k < |s.segments| && s.segments[k].docs != [] && PlanOK(plan, s.segments[k])
    ensures r.Err? <==> EvaluationFails(Some(plan), s.segments[k], ratio)
    ensures r.Ok? ==> LocalAnswer(Some(plan), s.live, s.segments[k], ratio, r.value)
  {
    hide LiveOK, MaskSays, Numbers, NoRepeats, PlanOK, EvaluationFails, UsesIndex, Rows, ChosenKeys, AllDocs, WhollyLiveMask, Answers, Selects, IDs;
    MaskOf(s, k);
    SegmentDistinct(s.live, s.segments, k);
    var docs := s.segments[k].docs;
    var ordinals: Option<map<nat, nat>> := if s.segments[k].indexed then Some(IndexOrdinals(docs)) else None;
    var outcome := EvaluateDocuments(Some(plan), s.segments[k], ratio, ordinals);
    if outcome.Err? {
      return Err(outcome.error);
    }
    var local := ApplyMask(plan, s, k, s.mask.local[s.segments[k].id], outcome.value);
    r := Ok(local);
  }

  lemma SegmentDistinct(live: seq<Document>, segments: seq<SegmentDocuments>, k: nat)
    requires LiveOK(live, segments) && k < |segments|
    ensures NoRepeats(segments[k].docs)
  {
    SegmentWithin(segments, k);
  }

  /** Rows of the live list, each once, whose document is among the keys. */
  ghost predicate Listed(live: seq<Document>, keys: set<nat>, rows: seq<nat>) {
    && (forall i, j :: 0 <= i < j < |rows| ==> rows[i] != rows[j])
    && (forall i: nat :: i in rows <==> i < |live| && live[i].docID in keys)
  }

  lemma ListedStep(live: seq<Document>, keys: set<nat>, rows: seq<nat>, key: nat, row: nat)
    requires NoRepeats(live) && Listed(live, keys, rows)
    requires key !in keys && row < |live| && live[row].docID == key
    ensures Listed(live, keys + {key}, rows + [row])
  {
    assert row !in rows;
    forall i: nat ensures i in rows + [row] <==> i < |live| && live[i].docID in keys + {key} {
      if i < |live| && live[i].docID == key {
        assert i == row;
      }
    }
  }

  /** Translate a segment's rows into rows of the live list. */
  method GatherRows(s: Snapshot, docs: seq<Document>, local: seq<nat>, keys: set<nat>, rows: seq<nat>)
    returns (allKeys: set<nat>, allRows: seq<nat>)
    requires NoRepeats(s.live) && NoRepeats(docs) && Numbers(s.ordinals, s.live)
    requires Increasing(local) && forall i: nat :: i in local ==> i < |docs| && docs[i].docID in IDs(s.live)
    requires keys !! IDs(docs) && Listed(s.live, keys, rows)
    ensures forall key: nat :: key in allKeys <==> key in keys || exists i: nat :: i in local && docs[i].docID == key
    ensures Listed(s.live, allKeys, allRows)
  {
    hide Listed, IDs;
    assert forall i: nat :: i < |docs| ==> docs[i].docID in IDs(docs) by { KnownIDs(docs); }
    allKeys, allRows := keys, rows;
    for k := 0 to |local|
      invariant forall i :: 0 <= i < |local| ==> local[i] in local && local[i] < |docs|
      invariant forall key :: key in allKeys <==> key in keys || exists i :: 0 <= i < k && docs[local[i]].docID == key
      invariant Listed(s.live, allKeys, allRows)
    {
      var key := docs[local[k]].docID;
      assert local[k] in local;
      assert key !in allKeys by {
        forall i | 0 <= i < k ensures docs[local[i]].docID != key {
          assert local[i] in local && local[i] < local[k];
        }
      }
      var row := s.ordinals[key];
      NumberOf(s.ordinals, s.live, key);
      ListedStep(s.live, allKeys, allRows, key, row);
      allKeys := allKeys + {key};
      allRows := allRows + [row];
    }
    assert forall i: nat :: i in local ==> exists j :: 0 <= j < |local| && local[j] == i;
  }

  lemma KnownIDs(docs: seq<Document>)
    ensures forall i: nat :: i < |docs| ==> docs[i].docID in IDs(docs)
  {
  }

  lemma NumberOf(ordinals: map<nat, nat>, live: seq<Document>, key: nat)
    requires Numbers(ordinals, live) && key in IDs(live)
    ensures key in ordinals && ordinals[key] < |live| && live[ordinals[key]].docID == key
  {
    var i: nat :| i < |live| && live[i].docID == key;
    assert ordinals[live[i].docID] == i;
  }

  lemma GatheredAll(docs: seq<Document>, chosen: set<nat>, local: seq<nat>, keys: set<nat>, allKeys: set<nat>)
    requires local == Rows(docs, chosen)
    requires forall key: nat :: key in allKeys <==> key in keys || exists i: nat :: i in local && docs[i].docID == key
    ensures allKeys == keys + chosen * IDs(docs)
  {
    forall key | key in chosen * IDs(docs) ensures key in allKeys {
      var r: nat :| r < |docs| && docs[r].docID == key;
      assert r in local;
    }
    forall key | key in allKeys && key !in keys ensures key in chosen * IDs(docs) {
      var i: nat :| i in local && docs[i].docID == key;
      assert docs[i] in docs;
    }
  }

  /** A number put where it belongs. */
  lemma InsertedInOrder(sorted: seq<nat>, p: nat, x: nat)
    requires Increasing(sorted) && p <= |sorted| && x !in sorted
    requires (forall q :: 0 <= q < p ==> sorted[q] < x) && (p < |sorted| ==> x <= sorted[p])
    ensures var r := sorted[..p] + [x] + sorted[p..];
      Increasing(r) && forall y: nat :: y in r <==> y in sorted || y == x
  {
    assert sorted == sorted[..p] + sorted[p..];
    assert p < |sorted| ==> sorted[p] in sorted;
  }

  /** Sort rows that hold no number twice. */
  method SortOrdinals(rows: seq<nat>) returns (sorted: seq<nat>)
    requires forall i, j :: 0 <= i < j < |rows| ==> rows[i] != rows[j]
    ensures Increasing(sorted) && forall x: nat :: x in sorted <==> x in rows
  {
    hide Increasing;
    sorted := [];
    EmptyAscends();
    for k := 0 to |rows|
      invariant Increasing(sorted)
      invariant forall x: nat :: x in sorted <==> x in rows[..k]
    {
      var p := 0;
      while p < |sorted| && sorted[p] < rows[k]
        invariant p <= |sorted|
        invariant forall q :: 0 <= q < p ==> sorted[q] < rows[k]
      {
        p := p + 1;
      }
      assert rows[..k + 1] == rows[..k] + [rows[k]];
      assert rows[k] !in rows[..k];
      InsertedInOrder(sorted, p, rows[k]);
      sorted := sorted[..p] + [rows[k]] + sorted[p..];
    }
    assert rows[..|rows|] == rows;
  }

  lemma EmptyAscends()
    ensures Increasing([])
  {
  }

  lemma ListedSorts(live: seq<Document>, keys: set<nat>, rows: seq<nat>, sorted: seq<nat>)
    requires Listed(live, keys, rows) && Increasing(sorted) && forall x: nat :: x in sorted <==> x in rows
    ensures sorted == Rows(live, keys)
  {
    AscendingUnique(sorted, Rows(live, keys));
  }

  /** The only nonempty segment. */
  ghost predicate Alone(segments: seq<SegmentDocuments>, k: nat) {
    k < |segments| && forall j :: 0 <= j < |segments| && segments[j].docs != [] ==> j == k
  }

  lemma AloneInMask(s: Snapshot, k: nat)
    requires SnapshotOK(s) && k < |s.segments| && s.segments[k].docs != [] && |s.mask.local| == 1
    ensures Alone(s.segments, k)
  {
    hide Answers, LocalAnswer;
    forall j | 0 <= j < |s.segments| && s.segments[j].docs != [] ensures j == k {
      MaskOf(s, j);
      MaskOf(s, k);
      var ids := s.mask.local.Keys;
      assert |ids| == 1;
      OnlyOne(ids, s.segments[j].id, s.segments[k].id);
    }
  }

  lemma OnlyOne(ids: set<nat>, a: nat, b: nat)
    requires |ids| == 1 && a in ids && b in ids
    ensures a == b
  {
    assert |ids - {a}| == 0;
    assert ids - {a} == {};
  }

  lemma {:induction false} NothingIn(segments: seq<SegmentDocuments>)
    requires forall j :: 0 <= j < |segments| ==> segments[j].docs == []
    ensures AllDocs(segments) == []
    decreases |segments|
  {
    if segments != [] {
      NothingIn(segments[..|segments| - 1]);
    }
  }

  lemma {:induction false} AloneIsAll(segments: seq<SegmentDocuments>, k: nat)
    requires Alone(segments, k)
    ensures AllDocs(segments) == segments[k].docs
    decreases |segments|
  {
    var n := |segments| - 1;
    if k == n {
      NothingIn(segments[..n]);
    } else {
      AloneIsAll(segments[..n], k);
    }
  }

  /** With one nonempty segment, wholly live, its own answer is the global one. */
  lemma AloneAnswers(plan: Plan, s: Snapshot, ratio: real, k: nat, local: map<nat, EvaluatedFilter>, f: EvaluatedFilter)
    requires LiveOK(s.live, s.segments) && Alone(s.segments, k) && s.segments[k].docs != [] && AllDocs(s.segments) == s.live
    requires LocalAnswers(Some(plan), s.live, s.segments[..k], ratio, local)
    requires LocalAnswer(Some(plan), s.live, s.segments[k], ratio, f)
    ensures Answered(Some(plan), s.live, s.segments, ratio, SegmentFilters(f, local[s.segments[k].id := f]))
  {
    hide LiveOK, Rows, UsesIndex, LocalAnswers;
    AloneLocal(Some(plan), s.live, s.segments, ratio, k, local, f);
    AloneGlobal(Some(plan), s.live, s.segments, ratio, k, f);
  }

  lemma AloneLocal(plan: Option<Plan>, live: seq<Document>, segments: seq<SegmentDocuments>, ratio: real, k: nat,
                   local: map<nat, EvaluatedFilter>, f: EvaluatedFilter)
    requires Alone(segments, k) && segments[k].docs != []
    requires LocalAnswers(plan, live, segments[..k], ratio, local) && LocalAnswer(plan, live, segments[k], ratio, f)
    ensures LocalAnswers(plan, live, segments, ratio, local[segments[k].id := f])
  {
    hide LocalAnswer;
    assert forall j :: 0 <= j < k ==> segments[..k][j].docs == [];
    assert forall id: nat :: id !in local;
    assert segments[k].id in local[segments[k].id := f];
  }

  lemma AloneGlobal(plan: Option<Plan>, live: seq<Document>, segments: seq<SegmentDocuments>, ratio: real, k: nat, f: EvaluatedFilter)
    requires Alone(segments, k) && segments[k].docs != [] && AllDocs(segments) == live && LocalAnswer(plan, live, segments[k], ratio, f)
    ensures GlobalAnswer(plan, live, segments, ratio, f)
  {
    AloneIsAll(segments, k);
    AllSelected(live, IDs(live));
    hide Selects, Rows, UsesIndex, IDs, AllDocs;
  }

  lemma SnapshotFacts(s: Snapshot, ratio: real)
    requires SnapshotOK(s)
    ensures LiveOK(s.live, s.segments) && Numbers(s.ordinals, s.live) && NoRepeats(s.live)
    ensures Answered(None, s.live, s.segments, ratio, s.mask)
  {
    hide Answered;
    MaskIgnoresRatio(s.live, s.segments, 0.0, ratio, s.mask);
  }

  lemma AnswerParts(plan: Option<Plan>, live: seq<Document>, segment: SegmentDocuments, ratio: real, f: EvaluatedFilter)
    requires LocalAnswer(plan, live, segment, ratio, f)
    ensures RowsOf(f) == Rows(segment.docs, ChosenKeys(plan, live)) && f.usedIndex == UsesIndex(plan, segment, ratio)
  {
  }

  lemma MaskParts(f: EvaluatedFilter, docs: seq<Document>, live: set<nat>, whole: bool)
    requires MaskSays(f, docs, live, whole)
    ensures f.test.Absent? <==> whole
  {
  }

  lemma StillAnswers(plan: Option<Plan>, live: seq<Document>, segment: SegmentDocuments, ratio: real, f: EvaluatedFilter, g: EvaluatedFilter)
    requires LocalAnswer(plan, live, segment, ratio, f) && g == f.(ordinals := RowsOf(f), bitmap := None)
    ensures LocalAnswer(plan, live, segment, ratio, g)
  {
  }

  /** A segment's documents are none of those before it, and each appears once. */
  lemma SegmentsApart(live: seq<Document>, segments: seq<SegmentDocuments>, k: nat)
    requires LiveOK(live, segments) && k < |segments|
    ensures NoRepeats(segments[k].docs) && IDs(AllDocs(segments[..k])) !! IDs(segments[k].docs)
  {
    SegmentWithin(segments, k);
    PrefixOfAll(segments, k + 1);
    var before, docs, all := AllDocs(segments[..k]), segments[k].docs, AllDocs(segments);
    assert segments[..k + 1][..k] == segments[..k];
    forall d, e | d in before && e in docs ensures d.docID != e.docID {
      var i :| 0 <= i < |before| && before[i] == d;
      var j :| 0 <= j < |docs| && docs[j] == e;
      assert all[i] == d && all[|before| + j] == e;
    }
  }

  lemma GlobalFits(plan: Option<Plan>, live: seq<Document>, segments: seq<SegmentDocuments>, ratio: real, f: EvaluatedFilter)
    requires plan.Some? && LiveOK(live, segments)
    requires f == EvaluatedFilter(InSet(ChosenKeys(plan, live)), Rows(live, ChosenKeys(plan, live)), None,
      |ChosenKeys(plan, live)|, |live|, true, AnyUsesIndex(plan, segments, ratio))
    ensures GlobalAnswer(plan, live, segments, ratio, f)
  {
    AllGathered(plan, live, segments);
    hide *;
    var keys := ChosenKeys(plan, live);
    assert forall key: nat :: key in keys ==> key in keys * IDs(live);
    SelectsIs(f, live, keys);
    GlobalIs(plan, live, segments, ratio, f);
  }

  lemma SelectsIs(f: EvaluatedFilter, docs: seq<Document>, keys: set<nat>)
    requires f.test == InSet(keys) && f.ordinals == Rows(docs, keys) && f.bitmap == None && f.matched == |Rows(docs, keys)|
    requires forall key: nat :: key in keys ==> key in IDs(docs)
    ensures Selects(f, docs, keys)
  {
    hide Rows, IDs;
  }

  lemma GlobalIs(plan: Option<Plan>, live: seq<Document>, segments: seq<SegmentDocuments>, ratio: real, f: EvaluatedFilter)
    requires Selects(f, live, ChosenKeys(plan, live)) && f.total == |live| && f.present == plan.Some?
    requires f.usedIndex == AnyUsesIndex(plan, segments, ratio)
    ensures GlobalAnswer(plan, live, segments, ratio, f)
  {
    hide Selects, AnyUsesIndex;
  }

  /** What the snapshot evaluation has gathered so far. */
  datatype Merge = Merge(local: map<nat, EvaluatedFilter>, matched: set<nat>, rows: seq<nat>, usedIndex: bool)

  ghost predicate Merged(plan: Plan, s: Snapshot, ratio: real, k: nat, m: Merge)
    requires k <= |s.segments|
  {
    && LocalAnswers(Some(plan), s.live, s.segments[..k], ratio, m.local)
    && m.matched == ChosenKeys(Some(plan), s.live) * IDs(AllDocs(s.segments[..k]))
    && Listed(s.live, m.matched, m.rows)
    && m.usedIndex == AnyUsesIndex(Some(plan), s.segments[..k], ratio)
  }

  lemma NothingMerged(plan: Plan, s: Snapshot, ratio: real)
    ensures Merged(plan, s, ratio, 0, Merge(map[], {}, [], false))
  {
    NothingYet(Some(plan), s.live, s.segments, ratio);
  }

  lemma UseStep(plan: Option<Plan>, segments: seq<SegmentDocuments>, ratio: real, k: nat)
    requires k < |segments|
    ensures AnyUsesIndex(plan, segments[..k + 1], ratio) ==
      (AnyUsesIndex(plan, segments[..k], ratio) || (segments[k].docs != [] && UsesIndex(plan, segments[k], ratio)))
  {
    hide UsesIndex;
    assert segments[..k + 1][k] == segments[k];
    forall j | 0 <= j < k ensures segments[..k + 1][j] == segments[..k][j] {}
  }

  /** Empty segments contribute nothing. */
  lemma MergeEmpty(plan: Plan, s: Snapshot, ratio: real, k: nat, m: Merge)
    requires LiveOK(s.live, s.segments) && k < |s.segments| && s.segments[k].docs == [] && Merged(plan, s, ratio, k, m)
    ensures Merged(plan, s, ratio, k + 1, m)
  {
    LocalStep(Some(plan), s.live, s.segments, ratio, k, m.local, EvaluatedFilter(Absent, [], None, 0, 0, false, false));
    GatherStep(s.segments, k, ChosenKeys(Some(plan), s.live));
    NothingYet(Some(plan), s.live, s.segments, ratio);
    UseStep(Some(plan), s.segments, ratio, k);
    hide LocalAnswers, UsesIndex, LiveOK, ChosenKeys;
  }

  /** Add a segment's answer to the global one. */
  method MergeSegment(plan: Plan, s: Snapshot, ratio: real, k: nat, m: Merge, f: EvaluatedFilter) returns (r: Merge)
    requires LiveOK(s.live, s.segments) && Numbers(s.ordinals, s.live) && k < |s.segments| && s.segments[k].docs != []
    requires Merged(plan, s, ratio, k, m) && LocalAnswer(Some(plan), s.live, s.segments[k], ratio, f)
    ensures Merged(plan, s, ratio, k + 1, r)
  {
    hide LocalAnswer, LocalAnswers, Covers, UsesIndex, AnyUsesIndex, LiveOK, ChosenKeys, IDs, AllDocs, Listed, Numbers, NoRepeats, Rows;
    var segment := s.segments[k];
    ghost var chosen := ChosenKeys(Some(plan), s.live);
    GatherStep(s.segments, k, chosen);
    UseStep(Some(plan), s.segments, ratio, k);
    AnswerParts(Some(plan), s.live, segment, ratio, f);
    var g := MaterializeOrdinals(f);
    StillAnswers(Some(plan), s.live, segment, ratio, f, g);
    LocalStep(Some(plan), s.live, s.segments, ratio, k, m.local, g);
    SegmentsApart(s.live, s.segments, k);
    LiveParts(s.live, s.segments);
    AllGathered(Some(plan), s.live, s.segments);
    var matched, rows := GatherRows(s, segment.docs, g.ordinals, m.matched, m.rows);
    GatheredAll(segment.docs, chosen, g.ordinals, m.matched, matched);
    r := Merge(m.local[segment.id := g], matched, rows, m.usedIndex || f.usedIndex);
  }

  lemma LiveParts(live: seq<Document>, segments: seq<SegmentDocuments>)
    requires LiveOK(live, segments)
    ensures NoRepeats(live)
  {
  }

  lemma MergedListed(plan: Plan, s: Snapshot, ratio: real, m: Merge)
    requires Merged(plan, s, ratio, |s.segments|, m)
    ensures Listed(s.live, m.matched, m.rows)
    ensures forall i, j :: 0 <= i < j < |m.rows| ==> m.rows[i] != m.rows[j]
  {
    hide LocalAnswers, AnyUsesIndex;
  }

  lemma MergeAnswers(plan: Plan, s: Snapshot, ratio: real, m: Merge, f: EvaluatedFilter)
    requires LiveOK(s.live, s.segments) && Merged(plan, s, ratio, |s.segments|, m)
    requires f == EvaluatedFilter(InSet(m.matched), Rows(s.live, m.matched), None, |m.matched|, |s.live|, true, m.usedIndex)
    ensures Answered(Some(plan), s.live, s.segments, ratio, SegmentFilters(f, m.local))
  {
    hide LocalAnswers, AnyUsesIndex, Selects, LiveOK, ChosenKeys, IDs, AllDocs, Rows;
    assert s.segments[..|s.segments|] == s.segments;
    AllGathered(Some(plan), s.live, s.segments);
    GlobalFits(Some(plan), s.live, s.segments, ratio, f);
  }

  /** The evaluation that works from the snapshot's masks and row numbers. */
  method EvaluateSnapshotFilters(plan: Option<Plan>, s: Snapshot, ratio: real) returns (r: Result<SegmentFilters, FilterError>)
    requires SnapshotOK(s)
    requires plan.Some? ==> forall k :: 0 <= k < |s.segments| ==> PlanOK(plan.value, s.segments[k])
    ensures r.Err? <==> AnyFails(plan, s.segments, ratio)
    ensures r.Ok? ==> Answered(plan, s.live, s.segments, ratio, r.value)
  {
    hide SnapshotOK, LiveOK, PlanOK, EvaluationFails, LocalAnswer, LocalAnswers, Covers, Rows, ChosenKeys, IDs, AllDocs, Answers,
      WhollyLiveMask, AnyUsesIndex, UsesIndex, Listed, Numbers, NoRepeats, MaskSays, Merged, Answered;
    SnapshotFacts(s, ratio);
    if plan.None? {
      NoPlanNeverFails(s.segments, ratio);
      return Ok(s.mask);
    }
    var m := Merge(map[], {}, [], false);
    NothingMerged(plan.value, s, ratio);
    for k := 0 to |s.segments|
      invariant Merged(plan.value, s, ratio, k, m)
      invariant forall j :: 0 <= j < k && s.segments[j].docs != [] ==> !EvaluationFails(plan, s.segments[j], ratio)
    {
      if s.segments[k].docs == [] {
        MergeEmpty(plan.value, s, ratio, k, m);
        continue;
      }
      MaskOf(s, k);
      var id := s.segments[k].id;
      var outcome := EvaluateMasked(plan.value, s, k, ratio);
      if outcome.Err? {
        return Err(outcome.error);
      }
      if |s.mask.local| == 1 && s.mask.local[id].test.Absent? {
        AloneMerged(plan.value, s, ratio, k, m, outcome.value);
        return Ok(SegmentFilters(outcome.value, m.local[id := outcome.value]));
      }
      m := MergeSegment(plan.value, s, ratio, k, m, outcome.value);
    }
    MergedListed(plan.value, s, ratio, m);
    var sorted := SortOrdinals(m.rows);
    ListedSorts(s.live, m.matched, m.rows, sorted);
    var global := EvaluatedFilter(InSet(m.matched), sorted, None, |m.matched|, |s.live|, true, m.usedIndex);
    MergeAnswers(plan.value, s, ratio, m, global);
    r := Ok(SegmentFilters(global, m.local));
  }

  lemma AloneMerged(plan: Plan, s: Snapshot, ratio: real, k: nat, m: Merge, f: EvaluatedFilter)
    requires SnapshotOK(s) && k < |s.segments| && s.segments[k].docs != []
    requires Merged(plan, s, ratio, k, m) && LocalAnswer(Some(plan), s.live, s.segments[k], ratio, f)
    requires |s.mask.local| == 1 && s.segments[k].id in s.mask.local && s.mask.local[s.segments[k].id].test.Absent?
    ensures Answered(Some(plan), s.live, s.segments, ratio, SegmentFilters(f, m.local[s.segments[k].id := f]))
    ensures forall j :: 0 <= j < |s.segments| && s.segments[j].docs != [] ==> j == k
  {
    hide LocalAnswers, LocalAnswer, LiveOK, MaskSays, Rows, ChosenKeys, IDs, AllDocs, Answered;
    MaskOf(s, k);
    AloneInMask(s, k);
    MaskParts(s.mask.local[s.segments[k].id], s.segments[k].docs, IDs(s.live), AllDocs(s.segments) == s.live);
    AloneAnswers(plan, s, ratio, k, m.local, f);
  }

  /** The fast evaluation refines the direct one: for any plan, snapshot and ratio they fail together,
      and otherwise a query cannot tell their results apart. */
  method SnapshotRefinesDirect(plan: Option<Plan>, s: Snapshot, ratio: real)
    returns (fast: Result<SegmentFilters, FilterError>, direct: Result<SegmentFilters, FilterError>)
    requires SnapshotOK(s)
    requires plan.Some? ==> forall k :: 0 <= k < |s.segments| ==> PlanOK(plan.value, s.segments[k])
    ensures fast.Ok? <==> direct.Ok?
    ensures fast.Ok? ==>
      && Agree(fast.value.global, direct.value.global)
      && fast.value.local.Keys == direct.value.local.Keys
      && forall id :: id in fast.value.local ==> Agree(fast.value.local[id], direct.value.local[id])
  {
    hide SnapshotOK, LiveOK, PlanOK, AnyFails, Answered, Agree;
    SnapshotFacts(s, ratio);
    fast := EvaluateSnapshotFilters(plan, s, ratio);
    direct := EvaluateSegmentFilters(plan, s.live, s.segments, ratio);
    if fast.Ok? {
      AnsweredAgree(plan, s.live, s.segments, ratio, fast.value, direct.value);
    }
  }
}
