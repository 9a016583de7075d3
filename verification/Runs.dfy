/** The canonical immutable layout: greedy runs of consecutive document IDs. */
module Runs {
  import opened Keys
  import opened Segments
  import opened Managers

  /** Length of the run that starts a document list. */
  function RunLength(docs: seq<Document>, maximum: nat): (n: nat)
    requires docs != []
    ensures 1 <= n <= |docs|
  {
    Extend(docs, maximum, 1)
  }

  function Extend(docs: seq<Document>, maximum: nat, n: nat): (end: nat)
    requires 1 <= n <= |docs|
    ensures n <= end <= |docs|
    decreases |docs| - n
  {
    if n < |docs| && n < maximum && docs[n].docID == docs[n - 1].docID + 1 then Extend(docs, maximum, n + 1) else n
  }

  function DocumentRuns(docs: seq<Document>, maximum: nat): seq<seq<Document>> {
    if docs == [] then []
    else
      var n := RunLength(docs, maximum);
      [docs[..n]] + DocumentRuns(docs[n..], maximum)
  }

  function Concat(blocks: seq<seq<Document>>): seq<Document> {
    if blocks == [] then [] else blocks[0] + Concat(blocks[1..])
  }

  ghost predicate Blocks(blocks: seq<seq<Document>>, maximum: nat) {
    forall i :: 0 <= i < |blocks| ==> Block(blocks[i], maximum)
  }

  /** Appending one document that does not extend the last block leaves the earlier runs alone. */
  lemma {:induction false} ExtendFacts(docs: seq<Document>, maximum: nat, n: nat)
    requires 1 <= n <= |docs| && n <= maximum
    requires forall i :: 0 <= i < n ==> docs[i].docID == docs[0].docID + i
    ensures Block(docs[..Extend(docs, maximum, n)], maximum)
    ensures var end := Extend(docs, maximum, n);
            end == |docs| || end == maximum || docs[end].docID != docs[end - 1].docID + 1
    decreases |docs| - n
  {
    if n < |docs| && n < maximum && docs[n].docID == docs[n - 1].docID + 1 {
      ExtendFacts(docs, maximum, n + 1);
    }
  }

  /** No block that starts a list outruns the greedy run. */
  lemma {:induction false} RunIsLongest(docs: seq<Document>, maximum: nat, n: nat, k: nat)
    requires 1 <= n <= k <= |docs| && Block(docs[..k], maximum)
    ensures k <= Extend(docs, maximum, n)
    decreases |docs| - n
  {
    if n < k {
      assert docs[..k][n] == docs[n] && docs[..k][n - 1] == docs[n - 1];
      RunIsLongest(docs, maximum, n + 1, k);
    }
  }

  lemma {:induction false} RunsAreBlocks(docs: seq<Document>, maximum: nat)
    requires maximum > 0
    ensures Blocks(DocumentRuns(docs, maximum), maximum)
    decreases |docs|
  {
    if docs != [] {
      var n := RunLength(docs, maximum);
      ExtendFacts(docs, maximum, 1);
      RunsAreBlocks(docs[n..], maximum);
      BlocksCons(docs[..n], DocumentRuns(docs[n..], maximum), maximum);
    }
  }

  lemma BlocksCons(block: seq<Document>, blocks: seq<seq<Document>>, maximum: nat)
    requires Block(block, maximum) && Blocks(blocks, maximum)
    ensures Blocks([block] + blocks, maximum)
  {
  }

  /** The runs partition the documents, in order, into admissible blocks. */
  lemma {:induction false} RunsPartition(docs: seq<Document>, maximum: nat)
    requires maximum > 0
    ensures Concat(DocumentRuns(docs, maximum)) == docs
    ensures Blocks(DocumentRuns(docs, maximum), maximum)
    decreases |docs|
  {
    hide Blocks;
    RunsAreBlocks(docs, maximum);
    if docs != [] {
      var n := RunLength(docs, maximum);
      RunsPartition(docs[n..], maximum);
      var runs := DocumentRuns(docs, maximum);
      assert runs[1..] == DocumentRuns(docs[n..], maximum);
      assert docs == docs[..n] + docs[n..];
    }
  }

  lemma {:induction false} ConcatConsumes(blocks: seq<seq<Document>>)
    requires blocks != []
    ensures |blocks[0]| <= |Concat(blocks)|
    ensures Concat(blocks)[..|blocks[0]|] == blocks[0]
    ensures Concat(blocks)[|blocks[0]|..] == Concat(blocks[1..])
  {
  }

  /** Any partition of a list into admissible blocks has at least as many blocks as the greedy
      runs of any of its suffixes. */
  lemma {:induction false} SuffixRunsAreFewest(blocks: seq<seq<Document>>, maximum: nat, k: nat)
    requires Blocks(blocks, maximum) && k <= |Concat(blocks)|
    ensures |DocumentRuns(Concat(blocks)[k..], maximum)| <= |blocks|
    decreases |blocks|
  {
    if blocks != [] {
      var docs, b := Concat(blocks), |blocks[0]|;
      ConcatConsumes(blocks);
      if k >= b {
        SuffixRunsAreFewest(blocks[1..], maximum, k - b);
        assert docs[k..] == docs[b..][k - b..];
      } else {
        var suffix := docs[k..];
        var head := suffix[..b - k];
        forall i | 0 <= i < |head| ensures head[i].docID == head[0].docID + i {
          assert suffix[i] == blocks[0][k + i];
          assert suffix[0] == blocks[0][k];
        }
        RunIsLongest(suffix, maximum, 1, b - k);
        var n := RunLength(suffix, maximum);
        hide RunLength;
        assert docs[b..][k + n - b..] == suffix[n..];
        SuffixRunsAreFewest(blocks[1..], maximum, k + n - b);
      }
    }
  }

  /** rewriteDocumentRuns yields the fewest blocks any admissible partition can have. */
  lemma RunsAreFewest(blocks: seq<seq<Document>>, maximum: nat)
    requires Blocks(blocks, maximum)
    ensures |DocumentRuns(Concat(blocks), maximum)| <= |blocks|
  {
    SuffixRunsAreFewest(blocks, maximum, 0);
    assert Concat(blocks)[0..] == Concat(blocks);
  }

  lemma RunsOptimal(docs: seq<Document>, maximum: nat)
    requires maximum > 0
    ensures var runs := DocumentRuns(docs, maximum);
            && Concat(runs) == docs && Blocks(runs, maximum)
            && forall blocks :: Blocks(blocks, maximum) && Concat(blocks) == docs ==> |runs| <= |blocks|
  {
    hide Blocks, DocumentRuns, Concat;
    RunsPartition(docs, maximum);
    forall blocks | Blocks(blocks, maximum) && Concat(blocks) == docs
      ensures |DocumentRuns(docs, maximum)| <= |blocks|
    {
      RunsAreFewest(blocks, maximum);
    }
  }

  lemma RunsSplit(docs: seq<Document>, maximum: nat, start: nat, end: nat)
    requires start < end <= |docs| && end - start == RunLength(docs[start..], maximum)
    ensures DocumentRuns(docs[start..], maximum) == [docs[start..end]] + DocumentRuns(docs[end..], maximum)
  {
    FirstRun(docs[start..], maximum);
    hide DocumentRuns, RunLength;
    SliceOf(docs, start, end);
  }

  /** The greedy runs of a list are its first run and the greedy runs of the rest. */
  lemma FirstRun(docs: seq<Document>, maximum: nat)
    requires docs != []
    ensures var n := RunLength(docs, maximum);
            DocumentRuns(docs, maximum) == [docs[..n]] + DocumentRuns(docs[n..], maximum)
  {
    hide RunLength;
  }

  lemma SliceOf<T>(s: seq<T>, start: nat, end: nat)
    requires start <= end <= |s|
    ensures s[start..][..end - start] == s[start..end] && s[start..][end - start..] == s[end..]
  {
  }

  method RewriteDocumentRuns(docs: seq<Document>, maximum: nat) returns (runs: seq<seq<Document>>)
    requires maximum > 0
    ensures runs == DocumentRuns(docs, maximum)
    ensures Concat(runs) == docs && Blocks(runs, maximum)
    ensures forall blocks :: Blocks(blocks, maximum) && Concat(blocks) == docs ==> |runs| <= |blocks|
  {
    hide Blocks, Concat, DocumentRuns;
    runs := [];
    var start := 0;
    assert docs[0..] == docs;
    while start < |docs|
      invariant 0 <= start <= |docs|
      invariant runs + DocumentRuns(docs[start..], maximum) == DocumentRuns(docs, maximum)
    {
      var end := start + 1;
      while end < |docs| && end - start < maximum && docs[end].docID == docs[end - 1].docID + 1
        invariant start < end <= |docs|
        invariant Extend(docs[start..], maximum, end - start) == RunLength(docs[start..], maximum)
      {
        end := end + 1;
      }
      RunsSplit(docs, maximum, start, end);
      assert runs + ([docs[start..end]] + DocumentRuns(docs[end..], maximum))
          == (runs + [docs[start..end]]) + DocumentRuns(docs[end..], maximum);
      runs := runs + [docs[start..end]];
      start := end;
    }
    NoRuns(docs, maximum);
    RunsOptimal(docs, maximum);
  }

  lemma NoRuns(docs: seq<Document>, maximum: nat)
    ensures DocumentRuns(docs[|docs|..], maximum) == []
  {
  }

  // ----- When a layout is already canonical --------------------------------------

  /** Two neighbours that the greedy layout would not keep apart. */
  predicate Mergeable(a: seq<Document>, b: seq<Document>, maximum: nat) {
    a != [] && b != [] && |a| < maximum && a[|a| - 1].docID + 1 == b[0].docID
  }

  ghost predicate Canonical(blocks: seq<seq<Document>>, maximum: nat) {
    forall i :: 1 <= i < |blocks| ==> !Mergeable(blocks[i - 1], blocks[i], maximum)
  }

  lemma FirstBlockIsRun(blocks: seq<seq<Document>>, maximum: nat)
    requires Blocks(blocks, maximum) && Canonical(blocks, maximum) && blocks != []
    ensures RunLength(Concat(blocks), maximum) == |blocks[0]|
  {
    var docs, b := Concat(blocks), |blocks[0]|;
    ConcatConsumes(blocks);
    var n := RunLength(docs, maximum);
    RunIsLongest(docs, maximum, 1, b);
    ExtendFacts(docs, maximum, 1);
    var run := docs[..n];
    assert forall i :: 0 <= i < n ==> run[i] == docs[i];
    if |blocks| > 1 {
      ConcatConsumes(blocks[1..]);
      assert docs[b] == blocks[1][0];
      assert !Mergeable(blocks[0], blocks[1], maximum);
    }
  }

  lemma {:induction false} CanonicalBlocks(blocks: seq<seq<Document>>, maximum: nat)
    requires Blocks(blocks, maximum)
    requires Canonical(blocks, maximum)
    ensures DocumentRuns(Concat(blocks), maximum) == blocks
    decreases |blocks|
  {
    if blocks != [] {
      var docs, b := Concat(blocks), |blocks[0]|;
      ConcatConsumes(blocks);
      FirstBlockIsRun(blocks, maximum);
      hide RunLength, Mergeable, Concat;
      forall i | 1 <= i < |blocks[1..]|
        ensures !Mergeable(blocks[1..][i - 1], blocks[1..][i], maximum)
      {
        assert !Mergeable(blocks[i + 1 - 1], blocks[i + 1], maximum);
      }
      CanonicalBlocks(blocks[1..], maximum);
    }
  }

  /** Greedy runs never leave a mergeable pair behind. */
  lemma {:induction false} RunsAreCanonical(docs: seq<Document>, maximum: nat)
    requires maximum > 0
    ensures Blocks(DocumentRuns(docs, maximum), maximum)
    ensures Canonical(DocumentRuns(docs, maximum), maximum)
    decreases |docs|
  {
    RunsPartition(docs, maximum);
    if docs != [] {
      var n := RunLength(docs, maximum);
      ExtendFacts(docs, maximum, 1);
      RunsAreCanonical(docs[n..], maximum);
      var runs := DocumentRuns(docs, maximum);
      assert runs[1..] == DocumentRuns(docs[n..], maximum);
      forall i | 1 <= i < |runs| ensures !Mergeable(runs[i - 1], runs[i], maximum) {
        if i > 1 {
          assert runs[i - 1] == runs[1..][i - 2] && runs[i] == runs[1..][i - 1];
        } else {
          assert runs[1] == docs[n..][..RunLength(docs[n..], maximum)];
          assert runs[1][0] == docs[n];
        }
      }
    }
  }
}
