/** The writer's Flat index: shared by every runtime of the write segment, appended to in place, and
    searched by older snapshots through a filter that bounds keys to their own documents. */
module FlatIndexes {
  import opened Common

  /** A document as the index sees it: a row, or nothing when the field is absent. */
  datatype Document<V> = Document(docID: nat, vector: Option<V>)

  datatype Entry<V> = Entry(key: nat, vector: V)

  ghost predicate Ascending<V>(docs: seq<Document<V>>) {
    forall i, j :: 0 <= i < j < |docs| ==> docs[i].docID < docs[j].docID
  }

  /** An index built from documents alone. */
  function Built<V>(docs: seq<Document<V>>): seq<Entry<V>> {
    if docs == [] then []
    else
      var last := docs[|docs| - 1];
      Built(docs[..|docs| - 1]) + if last.vector.Some? then [Entry(last.docID, last.vector.value)] else []
  }

  /** The entries a search considers. */
  function Visible<V>(entries: seq<Entry<V>>, accepts: nat -> bool): seq<Entry<V>> {
    if entries == [] then []
    else
      var last := entries[|entries| - 1];
      Visible(entries[..|entries| - 1], accepts) + if accepts(last.key) then [last] else []
  }

  /** The filter a snapshot searches with: keys in its own range that its visibility filter accepts. */
  function Bounded<V>(docs: seq<Document<V>>, filter: Option<nat -> bool>): nat -> bool {
    if docs == [] then _ => false
    else
      var first, last := docs[0].docID, docs[|docs| - 1].docID;
      (key: nat) => first <= key <= last && (filter.None? || filter.value(key))
  }

  function Unbounded(filter: Option<nat -> bool>): nat -> bool {
    (key: nat) => filter.None? || filter.value(key)
  }

  lemma {:induction false} BuiltKeys<V>(docs: seq<Document<V>>, e: Entry<V>)
    requires e in Built(docs)
    ensures exists i :: 0 <= i < |docs| && docs[i].docID == e.key
    decreases |docs|
  {
    var n := |docs| - 1;
    if e in Built(docs[..n]) {
      BuiltKeys(docs[..n], e);
      var i :| 0 <= i < n && docs[..n][i].docID == e.key;
      assert docs[i].docID == e.key;
    } else {
      assert docs[n].docID == e.key;
    }
  }

  lemma {:induction false} VisibleConcat<V>(a: seq<Entry<V>>, b: seq<Entry<V>>, accepts: nat -> bool)
    ensures Visible(a + b, accepts) == Visible(a, accepts) + Visible(b, accepts)
    decreases |b|
  {
    if b == [] {
      assert a + b == a;
    } else {
      var n := |b| - 1;
      VisibleConcat(a, b[..n], accepts);
      assert (a + b)[..|a + b| - 1] == a + b[..n];
    }
  }

  lemma {:induction false} VisibleSame<V>(entries: seq<Entry<V>>, p: nat -> bool, q: nat -> bool)
    requires forall e :: e in entries ==> p(e.key) == q(e.key)
    ensures Visible(entries, p) == Visible(entries, q)
    decreases |entries|
  {
    if entries != [] {
      var n := |entries| - 1;
      assert entries == entries[..n] + [entries[n]];
      VisibleSame(entries[..n], p, q);
    }
  }

  /** Growth after a snapshot is invisible to it: the bounded search of an index grown from more
      documents sees what an index built from the snapshot's own documents shows. */
  lemma {:induction false} GrowthInvisible<V>(own: seq<Document<V>>, all: seq<Document<V>>, filter: Option<nat -> bool>)
    requires Ascending(all) && own <= all
    ensures Visible(Built(all), Bounded(own, filter)) == Visible(Built(own), Unbounded(filter))
    decreases |all|
  {
    if |own| == |all| {
      assert own == all;
      forall e | e in Built(own) ensures Bounded(own, filter)(e.key) == Unbounded(filter)(e.key) {
        BuiltKeys(own, e);
      }
      VisibleSame(Built(own), Bounded(own, filter), Unbounded(filter));
    } else {
      var n := |all| - 1;
      assert own <= all[..n];
      GrowthInvisible(own, all[..n], filter);
      var last := all[n];
      if last.vector.Some? {
        var e := Entry(last.docID, last.vector.value);
        VisibleConcat(Built(all[..n]), [e], Bounded(own, filter));
        assert [e][..0] == [];
        if own != [] {
          assert own[|own| - 1] == all[|own| - 1];
        }
        assert !Bounded(own, filter)(e.key);
        assert Visible([e], Bounded(own, filter)) == [];
      } else {
        assert Built(all[..n]) + [] == Built(all[..n]);
      }
    }
  }

  lemma {:induction false} BuiltRow<V>(docs: seq<Document<V>>, i: nat)
    requires i < |docs| && docs[i].vector.Some?
    ensures Entry(docs[i].docID, docs[i].vector.value) in Built(docs)
    decreases |docs|
  {
    if i < |docs| - 1 {
      BuiltRow(docs[..|docs| - 1], i);
    }
  }

  // ----- The shared index --------------------------------------------------------------------------

  /** The write segment's runtime state: the index all its runtimes share, the segment's documents so
      far, and how many of them the current runtime covers. */
  class WriterFlat<V(==)> {
    var entries: seq<Entry<V>>
    var documents: seq<Document<V>>
    var count: nat
    ghost var added: nat
    ghost var leased: set<seq<Document<V>>>

    /** The index may be ahead of the runtime after a failed extension, never behind it. */
    ghost predicate Valid()
      reads this
    {
      && Ascending(documents)
      && count <= added <= |documents|
      && entries == Built(documents[..added])
      && forall own :: own in leased ==> own <= documents[..count]
    }

    constructor ()
      ensures Valid() && documents == [] && leased == {}
    {
      entries, documents, count := [], [], 0;
      added, leased := 0, {};
    }

    /** A key already present is refused and leaves the index as it was. */
    method Add(key: nat, vector: V) returns (duplicate: bool)
      modifies this`entries
      ensures duplicate == exists e :: e in old(entries) && e.key == key
      ensures entries == if duplicate then old(entries) else old(entries) + [Entry(key, vector)]
    {
      duplicate := false;
      for i := 0 to |entries|
        invariant duplicate == exists e :: e in entries[..i] && e.key == key
        invariant entries == old(entries)
      {
        assert entries[..i + 1] == entries[..i] + [entries[i]];
        duplicate := duplicate || entries[i].key == key;
      }
      assert entries[..|entries|] == entries;
      if !duplicate {
        entries := entries + [Entry(key, vector)];
      }
    }

    /** The segment gains documents with larger IDs. */
    method Write(suffix: seq<Document<V>>)
      requires Valid() && Ascending(documents + suffix)
      modifies this`documents
      ensures Valid() && documents == old(documents) + suffix
    {
      ghost var was := documents;
      documents := documents + suffix;
      assert documents[..added] == was[..added] && documents[..count] == was[..count];
    }

    /** Extend the shared index to all documents of the segment, unless something fails after
        `budget` of them. A failure may leave rows behind that the runtime does not cover yet; the next
        attempt meets them as duplicates. */
    method AppendWriterFlat(budget: nat) returns (ok: bool)
      requires Valid()
      modifies this`entries, this`count, this`added
      ensures Valid() && ok == (old(count) + budget >= |documents|)
      ensures count == if ok then |documents| else old(count)
      ensures ok ==> entries == Built(documents)
    {
      hide Built, Ascending;
      var i := count;
      while i < |documents|
        invariant count <= i <= |documents| && Valid() && count == old(count) && i <= added && i <= count + budget
        decreases |documents| - i
      {
        if i >= count + budget {
          return false;
        }
        ghost var before := entries;
        if documents[i].vector.Some? {
          var duplicate := Add(documents[i].docID, documents[i].vector.value);
          ExtendBuilt(documents, added, i, before, duplicate);
        }
        AddedNext(documents, added, i, before, entries);
        if i == added {
          added := added + 1;
        }
        i := i + 1;
      }
      count := |documents|;
      ok := true;
      assert documents[..added] == documents;
    }

    /** A query pins the documents the runtime covers now. */
    method Lease() returns (own: seq<Document<V>>)
      requires Valid()
      modifies this`leased
      ensures Valid() && own == documents[..count] && leased == old(leased) + {own}
    {
      own := documents[..count];
      leased := leased + {own};
    }

    /** Search the shared index for a lease: whatever was appended since, the candidates are those of an
        index built from the leased documents. */
    method Search(own: seq<Document<V>>, filter: Option<nat -> bool>) returns (found: seq<Entry<V>>)
      requires Valid() && own in leased
      ensures found == Visible(Built(own), Unbounded(filter))
    {
      var accepts := Bounded(own, filter);
      found := [];
      for i := 0 to |entries|
        invariant found == Visible(entries[..i], accepts)
      {
        assert entries[..i + 1][..i] == entries[..i];
        if accepts(entries[i].key) {
          found := found + [entries[i]];
        }
      }
      assert entries[..|entries|] == entries;
      assert own <= documents[..added];
      GrowthInvisible(own, documents[..added], filter);
    }
  }

  lemma AddedNext<V>(documents: seq<Document<V>>, added: nat, i: nat, before: seq<Entry<V>>, after: seq<Entry<V>>)
    requires i < |documents| && i <= added <= |documents| && before == Built(documents[..added])
    requires after == if i == added && documents[i].vector.Some? then before + [Entry(documents[i].docID, documents[i].vector.value)] else before
    ensures after == Built(documents[..if i == added then added + 1 else added])
  {
    BuiltStep(documents, i);
  }

  lemma BuiltStep<V>(documents: seq<Document<V>>, i: nat)
    requires i < |documents|
    ensures Built(documents[..i + 1]) == Built(documents[..i]) +
      if documents[i].vector.Some? then [Entry(documents[i].docID, documents[i].vector.value)] else []
  {
    assert documents[..i + 1][..i] == documents[..i];
  }

  lemma ExtendBuilt<V>(documents: seq<Document<V>>, added: nat, i: nat, entries: seq<Entry<V>>, duplicate: bool)
    requires Ascending(documents) && i < |documents| && i <= added <= |documents|
    requires entries == Built(documents[..added]) && documents[i].vector.Some?
    requires duplicate == exists e :: e in entries && e.key == documents[i].docID
    ensures duplicate == (i < added)
  {
    if i < added {
      BuiltRow(documents[..added], i);
    } else if duplicate {
      var e :| e in entries && e.key == documents[i].docID;
      BuiltKeys(documents[..added], e);
    }
  }
}
