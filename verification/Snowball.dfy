/** The Snowball runtime's among search: a binary search over a sorted table that remembers how
    much of the text each bound already matched, then a walk down longest-proper-prefix links. */
module Snowball {
  import opened Keys

  /** A table entry. `guarded` entries call a routine that may still refuse the match. */
  datatype Among = Among(str: Bytes, a: int, b: int, guarded: bool)

  /** A guard's verdict for an entry tried with the cursor at a position, and where the guard
      leaves the cursor. Guards read the text but do not change it. */
  type Guard = (nat, int) -> (bool, int)

  // ----- Byte order -----------------------------------------------------------------------

  predicate Leq(a: Bytes, b: Bytes)
    decreases |a|
  {
    a == [] || (b != [] && (a[0] < b[0] || (a[0] == b[0] && Leq(a[1..], b[1..]))))
  }

  predicate Shares(a: Bytes, b: Bytes, m: nat) {
    m <= |a| && m <= |b| && a[..m] == b[..m]
  }

  lemma {:induction false} LeqTransitive(a: Bytes, b: Bytes, c: Bytes)
    requires Leq(a, b) && Leq(b, c)
    ensures Leq(a, c)
    decreases |a|
  {
    if a != [] && a[0] == b[0] == c[0] {
      LeqTransitive(a[1..], b[1..], c[1..]);
    }
  }

  /** What lies between two strings shares every prefix they share. */
  lemma {:induction false} BetweenShares(a: Bytes, b: Bytes, c: Bytes, m: nat)
    requires Leq(a, b) && Leq(b, c) && Shares(a, c, m)
    ensures Shares(b, c, m)
    decreases m
  {
    if m > 0 {
      assert a[..m][0] == c[..m][0];
      assert a[1..][..m - 1] == a[..m][1..] && c[1..][..m - 1] == c[..m][1..];
      BetweenShares(a[1..], b[1..], c[1..], m - 1);
      assert b[..m] == [b[0]] + b[1..][..m - 1];
      assert c[..m] == [c[0]] + c[1..][..m - 1];
    }
  }

  /** The first disagreement, or the end of either string, decides the order. */
  lemma {:induction false} DecidedAt(w: Bytes, t: Bytes, m: nat)
    requires Shares(w, t, m)
    ensures m == |w| ==> Leq(w, t)
    ensures m < |w| && m == |t| ==> !Leq(w, t)
    ensures m < |w| && m < |t| ==> (t[m] < w[m] ==> !Leq(w, t)) && (t[m] > w[m] ==> Leq(w, t))
    decreases m
  {
    if m > 0 {
      assert w[..m][0] == t[..m][0];
      assert w[1..][..m - 1] == w[..m][1..] && t[1..][..m - 1] == t[..m][1..];
      DecidedAt(w[1..], t[1..], m - 1);
    }
  }

  // ----- Tables ----------------------------------------------------------------------------

  /** Entry strings as the search compares them: forwards, or reversed for backward search. */
  ghost predicate TableOK(keys: seq<Bytes>, links: seq<int>) {
    && 0 < |keys| == |links|
    && (forall i, j :: 0 <= i < j < |keys| ==> Leq(keys[i], keys[j]) && keys[i] != keys[j])
    && (forall i :: 0 <= i < |keys| ==> -1 <= links[i] < i)
    && (forall i :: 0 <= i < |keys| && links[i] >= 0 ==> keys[links[i]] < keys[i])
    && (forall i, p :: 0 <= i < |keys| && 0 <= p < |keys| && keys[p] < keys[i] ==>
          links[i] >= 0 && keys[p] <= keys[links[i]])
  }

  /** One call: the entries as the search reads them, the text it reads, and the entries' guards. */
  datatype Search = Search(keys: seq<Bytes>, text: Bytes, amongs: seq<Among>, guard: Guard, start: int, forward: bool) {
    ghost predicate Valid() {
      TableOK(keys, Links(amongs)) && forall p :: 0 <= p < |amongs| ==> |keys[p]| == |amongs[p].str|
    }

    /** The cursor past (or before) entry `p`. */
    function Past(p: nat): int
      requires p < |amongs|
    {
      if forward then start + |amongs[p].str| else start - |amongs[p].str|
    }

    predicate Accepts(p: nat)
      requires p < |amongs|
    {
      !amongs[p].guarded || guard(p, Past(p)).0
    }

    ghost predicate Starts(p: nat) {
      p < |keys| && keys[p] <= text
    }

    /** The longest accepted entry that starts the text. */
    ghost predicate Longest(p: nat)
      requires Valid()
    {
      Starts(p) && Accepts(p) && forall q: nat :: Starts(q) && Accepts(q) ==> |keys[q]| <= |keys[p]|
    }

    /** The shortest entry that starts the text, accepted or not: the last one a failing search tries. */
    ghost predicate Shortest(p: nat) {
      Starts(p) && forall q: nat :: Starts(q) ==> |keys[p]| <= |keys[q]|
    }

    /** What a search promises: the result of the longest accepted entry and the cursor moved by its
        length; without one, 0 and the cursor where the shortest matching entry's guard left it. */
    ghost predicate Found(r: int, cursor: int)
      requires Valid()
    {
      || (exists p: nat :: Longest(p) && r == amongs[p].b && cursor == Past(p))
      || (&& r == 0
          && (forall p: nat :: Starts(p) ==> !Accepts(p))
          && ((forall p: nat :: !Starts(p)) ==> cursor == start)
          && (forall p: nat :: Shortest(p) ==> cursor == guard(p, Past(p)).1))
    }
  }

  // ----- The binary search --------------------------------------------------------------------

  /** `m` is as much as the two strings share from the start. */
  ghost predicate SharesMost(w: Bytes, t: Bytes, m: nat) {
    Shares(w, t, m) && (m < |w| && m < |t| ==> w[m] != t[m])
  }

  /** What the bounds of the search know: every entry from `j` on is above the text, entry `i` is not
      above it once examined, and `commonI` and `commonJ` bytes of them agree with the text. */
  ghost predicate Bracket(keys: seq<Bytes>, text: Bytes, i: int, j: int, commonI: nat, commonJ: nat) {
    && 0 <= i <= j <= |keys| && i < |keys|
    && (i > 0 ==> i < j && Leq(keys[i], text) && SharesMost(keys[i], text, commonI))
    && Shares(keys[i], text, commonI)
    && (j == |keys| ==> commonJ == 0)
    && (j < |keys| ==> !Leq(keys[j], text) && Shares(keys[j], text, commonJ))
  }

  /** Whatever lies inside the bracket shares at least what both bounds share, so the comparison may
      start there. */
  lemma InsideShares(keys: seq<Bytes>, links: seq<int>, text: Bytes, i: int, j: int, commonI: nat, commonJ: nat, k: int)
    requires TableOK(keys, links) && Bracket(keys, text, i, j, commonI, commonJ) && i <= k < j
    ensures Shares(keys[k], text, if commonI < commonJ then commonI else commonJ)
  {
    var m := if commonI < commonJ then commonI else commonJ;
    assert keys[i][..commonI][..m] == keys[i][..m] && text[..commonI][..m] == text[..m];
    if m > 0 && k > i {
      assert keys[j][..commonJ][..m] == keys[j][..m] && text[..commonJ][..m] == text[..m];
      assert Shares(keys[i], keys[j], m);
      BetweenShares(keys[i], keys[k], keys[j], m);
      assert keys[k][..m] == keys[j][..m] == text[..m];
    }
  }

  // ----- The prefix walk ------------------------------------------------------------------------

  lemma PrefixLeq(p: Bytes, t: Bytes)
    requires p <= t
    ensures Leq(p, t)
  {
    assert t[..|p|] == p && p[..|p|] == p;
    DecidedAt(p, t, |p|);
  }

  /** Where the search stops, every entry that starts the text is a prefix of the entry found, no
      longer than what that entry shares with the text; and conversely. */
  ghost predicate Stopped(keys: seq<Bytes>, text: Bytes, i: int, common: nat) {
    && 0 <= i < |keys|
    && Shares(keys[i], text, common)
    && (forall p :: 0 <= p < |keys| ==> (keys[p] <= text <==> keys[p] <= keys[i] && |keys[p]| <= common))
  }

  lemma PrefixOfPrefix(p: Bytes, w: Bytes, t: Bytes, m: nat)
    requires p <= w && |p| <= m && Shares(w, t, m)
    ensures p <= t
  {
    assert w[..m][..|p|] == p && t[..m][..|p|] == t[..|p|];
  }

  lemma SearchStops(keys: seq<Bytes>, links: seq<int>, text: Bytes, i: int, j: int, commonI: nat, commonJ: nat)
    requires TableOK(keys, links) && Bracket(keys, text, i, j, commonI, commonJ)
    requires j <= i + 1 && (i == j || (Leq(keys[i], text) && SharesMost(keys[i], text, commonI)))
    ensures Stopped(keys, text, i, commonI)
  {
    forall p | 0 <= p < |keys| ensures keys[p] <= text <==> keys[p] <= keys[i] && |keys[p]| <= commonI {
      if keys[p] <= text {
        PrefixLeq(keys[p], text);
        if p >= j {
          if p > j { LeqTransitive(keys[j], keys[p], text); }
          assert false;
        }
        var m := |keys[p]|;
        assert keys[p][..m] == keys[p] && text[..m] == keys[p];
        if p < i { BetweenShares(keys[p], keys[i], text, m); }
        assert keys[i][..m] == keys[p];
      } else if keys[p] <= keys[i] && |keys[p]| <= commonI {
        PrefixOfPrefix(keys[p], keys[i], text, commonI);
      }
    }
  }

  /** Before entry `i` is tried: matching entries are prefixes of it, or refused and no shorter than
      the last one tried; the cursor is where that one's guard left it. */
  ghost predicate Refused(s: Search, i: int, last: int, cursor: int)
    requires s.Valid() && 0 <= i < |s.keys|
  {
    LongerRefused(s, i, last) && LeftBy(s, last, cursor)
  }

  ghost predicate LongerRefused(s: Search, i: int, last: int)
    requires s.Valid() && 0 <= i < |s.keys|
  {
    && -1 <= last < |s.keys|
    && forall p: nat :: s.Starts(p) ==>
         s.keys[p] <= s.keys[i] || (!s.Accepts(p) && last >= 0 && |s.keys[last]| <= |s.keys[p]|)
  }

  ghost predicate LeftBy(s: Search, last: int, cursor: int)
    requires s.Valid() && -1 <= last < |s.keys|
  {
    if last < 0 then cursor == s.start else s.Starts(last) && cursor == s.guard(last, s.Past(last)).1
  }

  lemma LongestHere(s: Search, i: int, last: int)
    requires s.Valid() && 0 <= i < |s.keys| && LongerRefused(s, i, last)
    requires s.Starts(i) && s.Accepts(i)
    ensures s.Longest(i)
  {
  }

  /** One step down the links reaches the next shorter matching entry, or there is none. */
  lemma RefusedNext(s: Search, top: int, common: nat, i: int, last: int, cursor: int)
    requires s.Valid() && Stopped(s.keys, s.text, top, common) && 0 <= i < |s.keys| && s.keys[i] <= s.keys[top]
    requires LongerRefused(s, i, last) && LeftBy(s, last, cursor)
    requires s.Starts(i) ==> last == i && !s.Accepts(i)
    ensures s.amongs[i].a < i
    ensures var next := s.amongs[i].a;
      if next < 0 then s.Found(0, cursor) else s.keys[next] <= s.keys[top] && Refused(s, next, last, cursor)
  {
    var next := Links(s.amongs)[i];
    forall p: nat | s.Starts(p)
      ensures (next >= 0 && s.keys[p] <= s.keys[next]) || (!s.Accepts(p) && last >= 0 && |s.keys[last]| <= |s.keys[p]|)
    {
      if s.keys[p] <= s.keys[i] && p != i {
        assert s.keys[p] < s.keys[i];
      }
    }
  }

  class Env {
    var current: Bytes
    var cursor: int
    var limit: int
    var limitBackward: int

    ghost predicate Valid()
      reads this
    {
      0 <= limitBackward <= cursor <= limit <= |current|
    }

    /** Compare the text after the cursor with one entry, starting from what is known to match. */
    method CompareForward(w: Bytes, from: nat) returns (diff: int, common: nat)
      requires Valid() && Shares(w, current[cursor..limit], from)
      ensures SharesMost(w, current[cursor..limit], common)
      ensures diff >= 0 <==> Leq(w, current[cursor..limit])
    {
      ghost var text := current[cursor..limit];
      diff, common := 0, from;
      var l := common;
      while l < |w|
        invariant from <= l == common <= |w| && diff == 0
        invariant Shares(w, text, common)
        decreases |w| - l
      {
        if cursor + common == limit {
          diff := diff - 1;
          break;
        }
        diff := current[cursor + common] as int - w[l] as int;
        if diff != 0 {
          break;
        }
        assert w[..common + 1] == w[..common] + [w[common]] && text[..common + 1] == text[..common] + [text[common]];
        common := common + 1;
        l := l + 1;
      }
      DecidedAt(w, text, common);
    }

    /** Compare the text before the cursor with one entry, last byte first. */
    method CompareBackward(w: Bytes, from: nat) returns (diff: int, common: nat)
      requires Valid() && Shares(Reversed(w), Reversed(current[limitBackward..cursor]), from)
      ensures SharesMost(Reversed(w), Reversed(current[limitBackward..cursor]), common)
      ensures diff >= 0 <==> Leq(Reversed(w), Reversed(current[limitBackward..cursor]))
    {
      ghost var key, text := Reversed(w), Reversed(current[limitBackward..cursor]);
      diff, common := 0, from;
      var l := |w| - common - 1;
      while l >= 0
        invariant from <= common <= |w| && l == |w| - common - 1 && diff == 0
        invariant Shares(key, text, common)
        decreases l
      {
        if cursor - common == limitBackward {
          diff := diff - 1;
          break;
        }
        assert w[l] == key[common] && current[cursor - common - 1] == text[common];
        diff := current[cursor - common - 1] as int - w[l] as int;
        if diff != 0 {
          break;
        }
        assert key[..common + 1] == key[..common] + [key[common]] && text[..common + 1] == text[..common] + [text[common]];
        common := common + 1;
        l := l - 1;
      }
      DecidedAt(key, text, common);
    }

    /** Binary search for the last entry not above the text after the cursor. */
    method SearchForward(amongs: seq<Among>) returns (i: int, commonI: nat)
      requires Valid() && TableOK(ForwardKeys(amongs), Links(amongs))
      ensures Stopped(ForwardKeys(amongs), current[cursor..limit], i, commonI)
    {
      ghost var keys, links, text := ForwardKeys(amongs), Links(amongs), current[cursor..limit];
      i, commonI := 0, 0;
      var j, commonJ := |amongs|, 0;
      var firstKeyInspected := false;
      while true
        invariant Bracket(keys, text, i, j, commonI, commonJ) && i < j
        invariant j - i <= 1 ==> i == 0 && j == 1
        invariant firstKeyInspected ==> j - i <= 1
        decreases j - i, !firstKeyInspected
      {
        var k := i + (j - i) / 2;
        InsideShares(keys, links, text, i, j, commonI, commonJ, k);
        var diff, common := CompareForward(amongs[k].str, if commonI < commonJ then commonI else commonJ);
        if diff < 0 {
          j, commonJ := k, common;
        } else {
          i, commonI := k, common;
        }
        if j - i <= 1 {
          if i > 0 || j == i || firstKeyInspected {
            break;
          }
          firstKeyInspected := true;
        }
      }
      SearchStops(keys, links, text, i, j, commonI, commonJ);
    }

    /** Binary search for the last entry not above the text before the cursor, both read backwards. */
    method SearchBackward(amongs: seq<Among>) returns (i: int, commonI: nat)
      requires Valid() && TableOK(BackwardKeys(amongs), Links(amongs))
      ensures Stopped(BackwardKeys(amongs), Reversed(current[limitBackward..cursor]), i, commonI)
    {
      ghost var keys, links, text := BackwardKeys(amongs), Links(amongs), Reversed(current[limitBackward..cursor]);
      i, commonI := 0, 0;
      var j, commonJ := |amongs|, 0;
      var firstKeyInspected := false;
      while true
        invariant Bracket(keys, text, i, j, commonI, commonJ) && i < j
        invariant j - i <= 1 ==> i == 0 && j == 1
        invariant firstKeyInspected ==> j - i <= 1
        decreases j - i, !firstKeyInspected
      {
        var k := i + (j - i) / 2;
        InsideShares(keys, links, text, i, j, commonI, commonJ, k);
        var diff, common := CompareBackward(amongs[k].str, if commonI < commonJ then commonI else commonJ);
        if diff < 0 {
          j, commonJ := k, common;
        } else {
          i, commonI := k, common;
        }
        if j - i <= 1 {
          if i > 0 || j == i || firstKeyInspected {
            break;
          }
          firstKeyInspected := true;
        }
      }
      SearchStops(keys, links, text, i, j, commonI, commonJ);
    }

    /** Walk down the links from where a search stopped until an entry that matched is accepted. */
    method Walk(amongs: seq<Among>, guard: Guard, top: int, commonI: nat, forward: bool, ghost s: Search)
      returns (r: int)
      requires s.Valid() && s == Search(s.keys, s.text, amongs, guard, cursor, forward)
      requires Stopped(s.keys, s.text, top, commonI)
      modifies this`cursor
      ensures s.Found(r, cursor)
    {
      var c := cursor;
      var i := top;
      ghost var last := -1;
      while true
        invariant 0 <= i < |amongs| && s.keys[i] <= s.keys[top]
        invariant Refused(s, i, last, cursor)
        decreases i
      {
        var w := amongs[i];
        if commonI >= |w.str| {
          cursor := if forward then c + |w.str| else c - |w.str|;
          if w.guarded {
            var (ok, left) := guard(i, cursor);
            cursor := left;
            if ok {
              cursor := if forward then c + |w.str| else c - |w.str|;
              LongestHere(s, i, last);
              return w.b;
            }
          } else {
            LongestHere(s, i, last);
            return w.b;
          }
          last := i;
        }
        RefusedNext(s, top, commonI, i, last, cursor);
        i := w.a;
        if i < 0 {
          return 0;
        }
      }
    }

    /** The longest accepted entry after the cursor, with the cursor moved past it; 0 when none is
        accepted, with the cursor where the last refusing guard left it. */
    method FindAmong(amongs: seq<Among>, guard: Guard) returns (r: int)
      requires Valid() && TableOK(ForwardKeys(amongs), Links(amongs))
      modifies this`cursor
      ensures Search(ForwardKeys(amongs), old(current[cursor..limit]), amongs, guard, old(cursor), true).Found(r, cursor)
    {
      ghost var s := Search(ForwardKeys(amongs), current[cursor..limit], amongs, guard, cursor, true);
      var i, commonI := SearchForward(amongs);
      r := Walk(amongs, guard, i, commonI, true, s);
    }

    /** The same before the cursor, for entries read backwards, with the cursor moved before the entry. */
    method FindAmongB(amongs: seq<Among>, guard: Guard) returns (r: int)
      requires Valid() && TableOK(BackwardKeys(amongs), Links(amongs))
      modifies this`cursor
      ensures Search(BackwardKeys(amongs), Reversed(old(current[limitBackward..cursor])), amongs, guard, old(cursor), false).Found(r, cursor)
    {
      ghost var s := Search(BackwardKeys(amongs), Reversed(current[limitBackward..cursor]), amongs, guard, cursor, false);
      var i, commonI := SearchBackward(amongs);
      r := Walk(amongs, guard, i, commonI, false, s);
    }
  }

  function Reversed(s: Bytes): (r: Bytes)
    ensures |r| == |s| && forall i :: 0 <= i < |s| ==> r[i] == s[|s| - 1 - i]
  {
    seq(|s|, i requires 0 <= i < |s| => s[|s| - 1 - i])
  }

  function ForwardKeys(amongs: seq<Among>): seq<Bytes> {
    seq(|amongs|, i requires 0 <= i < |amongs| => amongs[i].str)
  }

  function BackwardKeys(amongs: seq<Among>): seq<Bytes> {
    seq(|amongs|, i requires 0 <= i < |amongs| => Reversed(amongs[i].str))
  }

  function Links(amongs: seq<Among>): seq<int> {
    seq(|amongs|, i requires 0 <= i < |amongs| => amongs[i].a)
  }
}
