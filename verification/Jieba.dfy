/** Jieba segmentation: the word graph with prefix pruning, the maximum-weight path through it, the
    Viterbi tagger, and the cutters built from them. Weights are exact reals. */
module Jieba {

  const MAX_WORD_LENGTH := 512

  /** The floor no segmentation's weight is expected to reach. */
  const MIN_DOUBLE: real := -3.14e100

  type Key = seq<nat>

  datatype Entry = Entry(weight: real, length: nat)

  /** The immutable resources a segmenter cuts with. */
  datatype Words = Words(entries: map<Key, Entry>, prefixes: set<Key>, minWeight: real, maxWordLength: nat, userSingles: set<nat>)

  /** Every proper prefix of a word, up to the longest length tried, is marked extendable. */
  ghost predicate PrefixesMarked(entries: map<Key, Entry>, prefixes: set<Key>) {
    forall k: Key, p: nat :: k in entries && 1 <= p < |k| && p < MAX_WORD_LENGTH ==> k[..p] in prefixes
  }

  ghost predicate LengthsRecorded(entries: map<Key, Entry>) {
    forall k: Key :: k in entries ==> entries[k].length == |k| > 0
  }

  ghost predicate LongestCovered(entries: map<Key, Entry>, maxWordLength: nat) {
    && maxWordLength <= MAX_WORD_LENGTH
    && forall k: Key :: k in entries ==> |k| <= maxWordLength || maxWordLength == MAX_WORD_LENGTH
  }

  ghost predicate WordsOK(d: Words) {
    && PrefixesMarked(d.entries, d.prefixes)
    && LengthsRecorded(d.entries)
    && LongestCovered(d.entries, d.maxWordLength)
  }

  // ----- The dictionary under construction ----------------------------------------------------

  class Dictionary {
    var entries: map<Key, Entry>
    var prefixes: set<Key>
    var minWeight: real
    var medianWeight: real
    var maxWordLength: nat
    var userSingles: set<nat>

    ghost predicate Valid()
      reads this
    {
      WordsOK(Contents())
    }

    function Contents(): Words
      reads this
    {
      Words(entries, prefixes, minWeight, maxWordLength, userSingles)
    }

    constructor (minWeight: real, medianWeight: real)
      ensures Valid() && Contents() == Words(map[], {}, minWeight, 0, {}) && this.medianWeight == medianWeight
    {
      this.entries, this.prefixes, this.userSingles := map[], {}, {};
      this.minWeight, this.medianWeight, this.maxWordLength := minWeight, medianWeight, 0;
    }

    /** Mark the proper prefixes of a word. */
    method AddPrefixes(key: Key)
      modifies this`prefixes
      ensures prefixes == old(prefixes) + ProperPrefixes(key)
    {
      var limit := if |key| > MAX_WORD_LENGTH then MAX_WORD_LENGTH else |key|;
      var length := 1;
      while length < limit
        invariant 1 <= length && (length <= limit || limit == 0)
        invariant prefixes == old(prefixes) + set p | 1 <= p < length && p <= |key| :: key[..p]
      {
        prefixes := prefixes + {key[..length]};
        length := length + 1;
      }
    }

    /** Enter a word; a later entry for the same word replaces the earlier one. */
    method AddWord(key: Key, weight: real)
      requires Valid() && key != []
      modifies this
      ensures Valid()
      ensures entries == old(entries)[key := Entry(weight, |key|)]
      ensures prefixes == old(prefixes) + ProperPrefixes(key)
      ensures minWeight == old(minWeight) && medianWeight == old(medianWeight) && userSingles == old(userSingles)
    {
      entries := entries[key := Entry(weight, |key|)];
      AddPrefixes(key);
      if |key| > maxWordLength {
        maxWordLength := if |key| > MAX_WORD_LENGTH then MAX_WORD_LENGTH else |key|;
      }
    }

    /** Enter a word of a user dictionary; single runes are also kept whole by the mixed cutter. */
    method AddUserWord(key: Key, weight: real)
      requires Valid() && key != []
      modifies this
      ensures Valid()
      ensures entries == old(entries)[key := Entry(weight, |key|)]
      ensures userSingles == old(userSingles) + if |key| == 1 then {key[0]} else {}
      ensures minWeight == old(minWeight)
    {
      AddWord(key, weight);
      if |key| == 1 {
        userSingles := userSingles + {key[0]};
      }
    }
  }

  function ProperPrefixes(key: Key): set<Key> {
    set p | 1 <= p < |key| && p < MAX_WORD_LENGTH :: key[..p]
  }

  // ----- Ranges of words ------------------------------------------------------------------------

  /** A word covering runes `start` to `end`, both included. */
  datatype WordRange = WordRange(start: nat, end: nat)

  /** The words cover the runes from `start` up to `end`, in order, without gap or overlap. */
  ghost predicate Tiles(words: seq<WordRange>, start: nat, end: nat) {
    if words == [] then start == end
    else
      var last := words[|words| - 1];
      last.start <= last.end && last.end + 1 == end && Tiles(words[..|words| - 1], start, last.start)
  }

  lemma {:induction false} TilesConcat(a: seq<WordRange>, b: seq<WordRange>, start: nat, mid: nat, end: nat)
    requires Tiles(a, start, mid) && Tiles(b, mid, end)
    ensures Tiles(a + b, start, end)
    decreases |b|
  {
    if b == [] {
      assert a + b == a;
    } else {
      var n := |b| - 1;
      TilesConcat(a, b[..n], start, mid, b[n].start);
      assert (a + b)[..|a + b| - 1] == a + b[..n];
    }
  }

  lemma {:induction false} TilesRest(words: seq<WordRange>, start: nat, end: nat)
    requires Tiles(words, start, end) && words != []
    ensures words[0].start == start && start <= words[0].end < end
    ensures Tiles(words[1..], words[0].end + 1, end)
    decreases |words|
  {
    var n := |words| - 1;
    if n > 0 {
      TilesRest(words[..n], start, words[n].start);
      assert words[..n][1..] == words[1..][..n - 1];
    }
  }

  lemma {:induction false} TilesWithin(words: seq<WordRange>, start: nat, end: nat)
    requires Tiles(words, start, end)
    ensures start <= end
    ensures forall w :: w in words ==> start <= w.start <= w.end < end
    decreases |words|
  {
    if words != [] {
      var n := |words| - 1;
      TilesWithin(words[..n], start, words[n].start);
      assert words == words[..n] + [words[n]];
    }
  }

  /** The runes of the words, one after the other. */
  ghost function Spelled(runes: seq<nat>, words: seq<WordRange>): seq<nat>
    requires forall w :: w in words ==> w.start <= w.end < |runes|
  {
    if words == [] then []
    else
      var n := |words| - 1;
      assert words[n] in words;
      Spelled(runes, words[..n]) + runes[words[n].start..words[n].end + 1]
  }

  /** Words that tile a range spell it. */
  lemma {:induction false} TilesSpell(runes: seq<nat>, words: seq<WordRange>, start: nat, end: nat)
    requires Tiles(words, start, end) && end <= |runes|
    ensures forall w :: w in words ==> w.start <= w.end < |runes|
    ensures start <= end && Spelled(runes, words) == runes[start..end]
    decreases |words|
  {
    TilesWithin(words, start, end);
    if words != [] {
      var n := |words| - 1;
      var rest, last := words[..n], words[n];
      TilesWithin(rest, start, last.start);
      TilesSpell(runes, rest, start, last.start);
      hide Tiles;
      assert runes[start..end] == runes[start..last.start] + runes[last.start..end];
    }
  }

  // ----- The word graph ---------------------------------------------------------------------------

  /** An edge of the graph: a word starting at some rune and ending at `end`, included. */
  datatype Candidate = Candidate(end: nat, entry: Entry, found: bool)

  function EntryOf(d: Words, key: Key): Entry {
    if key in d.entries then d.entries[key] else Entry(0.0, 0)
  }

  function Limit(d: Words, absolute: nat, end: nat): nat
    requires absolute <= end
  {
    if end - absolute > d.maxWordLength then d.maxWordLength else end - absolute
  }

  /** Every dictionary word at a rune with length from `length` to `limit`: nothing is pruned. */
  function Longer(d: Words, runes: seq<nat>, absolute: nat, length: nat, limit: nat): seq<Candidate>
    requires absolute + limit <= |runes| && length > 0
    decreases limit + 1 - length
  {
    if length > limit then []
    else
      var key := runes[absolute..absolute + length];
      (if key in d.entries then [Candidate(absolute + length - 1, d.entries[key], true)] else [])
      + Longer(d, runes, absolute, length + 1, limit)
  }

  /** All edges from a rune: the rune itself, known or not, and every longer word. */
  function Candidates(d: Words, runes: seq<nat>, absolute: nat, end: nat): seq<Candidate>
    requires absolute < end <= |runes|
  {
    var key := runes[absolute..absolute + 1];
    [Candidate(absolute, EntryOf(d, key), key in d.entries)] + Longer(d, runes, absolute, 2, Limit(d, absolute, end))
  }

  /** Pruning is safe: a text that starts no word has no extension that is one. */
  lemma PruningIsSafe(d: Words, runes: seq<nat>, absolute: nat, length: nat, limit: nat)
    requires WordsOK(d) && limit <= d.maxWordLength && absolute + limit <= |runes| && length > 1
    requires length <= limit && runes[absolute..absolute + length - 1] !in d.prefixes
    ensures Longer(d, runes, absolute, length, limit) == []
  {
    NoLonger(d, runes, absolute, length - 1, length, limit);
  }

  ghost predicate NoWord(d: Words, runes: seq<nat>, absolute: nat, stop: nat, length: nat, limit: nat)
    requires absolute + limit <= |runes|
  {
    1 <= stop < length && stop <= limit && runes[absolute..absolute + stop] !in d.prefixes
  }

  lemma {:induction false} NoLonger(d: Words, runes: seq<nat>, absolute: nat, stop: nat, length: nat, limit: nat)
    requires WordsOK(d) && limit <= d.maxWordLength && absolute + limit <= |runes| && length > 0
    requires NoWord(d, runes, absolute, stop, length, limit)
    ensures Longer(d, runes, absolute, length, limit) == []
    decreases limit + 1 - length
  {
    if length <= limit {
      var key := runes[absolute..absolute + length];
      assert key[..stop] == runes[absolute..absolute + stop];
      NoLonger(d, runes, absolute, stop, length + 1, limit);
    }
  }

  /** The edges from one rune, stopping as soon as no word starts with the text so far. */
  method ExtendWord(d: Words, runes: seq<nat>, absolute: nat, end: nat) returns (row: seq<Candidate>)
    requires WordsOK(d) && absolute < end <= |runes|
    ensures row == Candidates(d, runes, absolute, end)
  {
    var key := runes[absolute..absolute + 1];
    var canExtend := key in d.prefixes;
    row := [Candidate(absolute, EntryOf(d, key), key in d.entries)];
    var limit := Limit(d, absolute, end);
    var length := 2;
    while length <= limit && canExtend
      invariant 2 <= length
      invariant row + Longer(d, runes, absolute, length, limit) == Candidates(d, runes, absolute, end)
      invariant length - 1 <= limit ==> canExtend == (runes[absolute..absolute + length - 1] in d.prefixes)
      decreases limit as int - length as int
    {
      key := runes[absolute..absolute + length];
      canExtend := key in d.prefixes;
      ghost var rest := Longer(d, runes, absolute, length + 1, limit);
      if key in d.entries {
        assert row + ([Candidate(absolute + length - 1, d.entries[key], true)] + rest)
            == (row + [Candidate(absolute + length - 1, d.entries[key], true)]) + rest;
        row := row + [Candidate(absolute + length - 1, d.entries[key], true)];
      } else {
        assert [] + rest == rest;
      }
      length := length + 1;
    }
    if length <= limit {
      PruningIsSafe(d, runes, absolute, length, limit);
    }
    assert row + [] == row;
  }

  method BuildDAG(d: Words, runes: seq<nat>, start: nat, end: nat) returns (dag: seq<seq<Candidate>>)
    requires WordsOK(d) && start <= end <= |runes|
    ensures |dag| == end - start
    ensures forall i :: 0 <= i < end - start ==> dag[i] == Candidates(d, runes, start + i, end)
  {
    dag := [];
    for absolute := start to end
      invariant |dag| == absolute - start
      invariant forall i :: 0 <= i < absolute - start ==> dag[i] == Candidates(d, runes, start + i, end)
    {
      var row := ExtendWord(d, runes, absolute, end);
      dag := dag + [row];
    }
  }

  // ----- Segmentations ------------------------------------------------------------------------------

  /** A dictionary word no longer than the longest tried, or one rune. */
  predicate IsWord(d: Words, runes: seq<nat>, w: WordRange) {
    && w.start <= w.end < |runes|
    && (w.start == w.end || (w.end - w.start + 1 <= d.maxWordLength && runes[w.start..w.end + 1] in d.entries))
  }

  function WordWeight(d: Words, runes: seq<nat>, w: WordRange): real
    requires w.start <= w.end < |runes|
  {
    var key := runes[w.start..w.end + 1];
    if key in d.entries then d.entries[key].weight else d.minWeight
  }

  ghost predicate AllWords(d: Words, runes: seq<nat>, words: seq<WordRange>) {
    forall w :: w in words ==> IsWord(d, runes, w)
  }

  /** A split of a range into words and single runes. */
  ghost predicate Splits(d: Words, runes: seq<nat>, words: seq<WordRange>, start: nat, end: nat) {
    Tiles(words, start, end) && AllWords(d, runes, words)
  }

  ghost function Total(d: Words, runes: seq<nat>, words: seq<WordRange>): real
    requires AllWords(d, runes, words)
  {
    if words == [] then 0.0
    else
      var n := |words| - 1;
      assert words[n] in words;
      Total(d, runes, words[..n]) + WordWeight(d, runes, words[n])
  }

  lemma {:induction false} TotalConcat(d: Words, runes: seq<nat>, a: seq<WordRange>, b: seq<WordRange>)
    requires AllWords(d, runes, a) && AllWords(d, runes, b)
    ensures AllWords(d, runes, a + b) && Total(d, runes, a + b) == Total(d, runes, a) + Total(d, runes, b)
    decreases |b|
  {
    if b == [] {
      assert a + b == a;
    } else {
      var n := |b| - 1;
      TotalConcat(d, runes, a, b[..n]);
      assert (a + b)[..|a + b| - 1] == a + b[..n];
    }
  }

  /** No split of the range weighs more. */
  ghost predicate Heaviest(d: Words, runes: seq<nat>, words: seq<WordRange>, start: nat, end: nat) {
    && Splits(d, runes, words, start, end)
    && forall other :: Splits(d, runes, other, start, end) ==> Total(d, runes, other) <= Total(d, runes, words)
  }

  /** The edges from a rune are exactly its words within the range. */
  lemma CandidatesAreWords(d: Words, runes: seq<nat>, absolute: nat, end: nat, e: nat)
    requires WordsOK(d) && absolute < end <= |runes|
    ensures (exists c :: c in Candidates(d, runes, absolute, end) && c.end == e)
      <==> e < end && IsWord(d, runes, WordRange(absolute, e))
  {
    var limit := Limit(d, absolute, end);
    var first, rest := Candidates(d, runes, absolute, end)[0], Longer(d, runes, absolute, 2, limit);
    assert Candidates(d, runes, absolute, end) == [first] + rest;
    LongerAreWords(d, runes, absolute, 2, limit, e);
    if e == absolute {
      assert first in Candidates(d, runes, absolute, end);
    } else {
      forall c | c in Candidates(d, runes, absolute, end) && c.end == e ensures c in rest {}
    }
  }

  lemma {:induction false} LongerAreWords(d: Words, runes: seq<nat>, absolute: nat, length: nat, limit: nat, e: nat)
    requires absolute + limit <= |runes| && length > 0
    ensures (exists c :: c in Longer(d, runes, absolute, length, limit) && c.end == e)
      <==> absolute + length <= e + 1 <= absolute + limit && runes[absolute..e + 1] in d.entries
    decreases limit + 1 - length
  {
    if length <= limit {
      LongerAreWords(d, runes, absolute, length + 1, limit, e);
      var key := runes[absolute..absolute + length];
      var here := if key in d.entries then [Candidate(absolute + length - 1, d.entries[key], true)] else [];
      var rest := Longer(d, runes, absolute, length + 1, limit);
      assert Longer(d, runes, absolute, length, limit) == here + rest;
      if e + 1 == absolute + length {
        if key in d.entries {
          assert here[0] in here + rest;
        }
      } else {
        assert forall c :: c in here ==> c.end != e;
        assert forall c :: c in rest ==> c in here + rest;
      }
    }
  }

  /** What an edge records. */
  ghost predicate EdgeOf(d: Words, runes: seq<nat>, absolute: nat, end: nat, c: Candidate) {
    && absolute <= c.end < end <= |runes|
    && IsWord(d, runes, WordRange(absolute, c.end))
    && c.found == (runes[absolute..c.end + 1] in d.entries)
    && (c.found ==> c.entry == d.entries[runes[absolute..c.end + 1]])
    && (!c.found ==> c.end == absolute)
  }

  lemma {:induction false} LongerAreEdges(d: Words, runes: seq<nat>, absolute: nat, end: nat, length: nat, limit: nat)
    requires WordsOK(d) && absolute < end <= |runes| && length > 0 && absolute + limit <= end && limit <= d.maxWordLength
    ensures forall c :: c in Longer(d, runes, absolute, length, limit) ==> EdgeOf(d, runes, absolute, end, c)
    decreases limit + 1 - length
  {
    if length <= limit {
      LongerAreEdges(d, runes, absolute, end, length + 1, limit);
    }
  }

  lemma CandidatesAreEdges(d: Words, runes: seq<nat>, absolute: nat, end: nat)
    requires WordsOK(d) && absolute < end <= |runes|
    ensures forall c :: c in Candidates(d, runes, absolute, end) ==> EdgeOf(d, runes, absolute, end, c)
  {
    LongerAreEdges(d, runes, absolute, end, 2, Limit(d, absolute, end));
  }

  // ----- Maximum-weight segmentation ------------------------------------------------------------------

  /** Every later rune starts some split that weighs more than the floor. */
  ghost predicate AboveFloor(d: Words, runes: seq<nat>, start: nat, end: nat, floor: real) {
    forall a: nat :: start <= a < end ==> HasHeavySplit(d, runes, a, end, floor)
  }

  ghost predicate HasHeavySplit(d: Words, runes: seq<nat>, start: nat, end: nat, floor: real) {
    exists words :: Splits(d, runes, words, start, end) && Total(d, runes, words) > floor
  }

  /** `count` times a weight. */
  ghost function LowTotal(low: real, count: nat): real {
    if count == 0 then 0.0 else LowTotal(low, count - 1) + low
  }

  ghost function Singles(start: nat, end: nat): seq<WordRange>
    requires start <= end
  {
    if start == end then [] else Singles(start, end - 1) + [WordRange(end - 1, end - 1)]
  }

  lemma OneRuneWeight(d: Words, runes: seq<nat>, a: nat, low: real)
    requires a < |runes| && d.minWeight >= low && forall k :: k in d.entries ==> d.entries[k].weight >= low
    ensures WordWeight(d, runes, WordRange(a, a)) >= low
  {
  }

  lemma {:induction false} SinglesSplit(d: Words, runes: seq<nat>, start: nat, end: nat, low: real)
    requires start <= end <= |runes| && low <= 0.0 && d.minWeight >= low
    requires forall k :: k in d.entries ==> d.entries[k].weight >= low
    ensures Splits(d, runes, Singles(start, end), start, end)
    ensures Total(d, runes, Singles(start, end)) >= LowTotal(low, end - start)
    decreases end - start
  {
    if start == end {
      NoWords(d, runes, start);
    } else {
      SinglesSplit(d, runes, start, end - 1, low);
      hide Tiles, Total, AllWords, Splits, IsWord, WordWeight;
      OneRune(d, runes, end - 1);
      OneRuneWeight(d, runes, end - 1, low);
      AppendWord(d, runes, Singles(start, end - 1), start, WordRange(end - 1, end - 1));
    }
  }

  lemma {:induction false} SmallerShare(low: real, few: nat, many: nat)
    requires low <= 0.0 && few <= many
    ensures LowTotal(low, few) >= LowTotal(low, many)
    decreases many
  {
    if few < many {
      SmallerShare(low, few, many - 1);
    }
  }

  /** No weight so low that the range could reach the floor: then the floor never matters. */
  lemma LowWeightsAreAbove(d: Words, runes: seq<nat>, start: nat, end: nat, floor: real, low: real)
    requires start <= end <= |runes| && low <= 0.0 && d.minWeight >= low && LowTotal(low, end - start) > floor
    requires forall k :: k in d.entries ==> d.entries[k].weight >= low
    ensures AboveFloor(d, runes, start, end, floor)
  {
    hide Tiles, Total, Singles, LowTotal;
    forall a: nat | start <= a < end ensures HasHeavySplit(d, runes, a, end, floor) {
      SinglesSplit(d, runes, a, end, low);
      SmallerShare(low, end - a, end - start);
      assert Splits(d, runes, Singles(a, end), a, end) && Total(d, runes, Singles(a, end)) > floor;
    }
  }

  lemma {:induction false} LowTotalIs(low: real, count: nat)
    ensures LowTotal(low, count) == low * count as real
  {
    if count > 0 {
      LowTotalIs(low, count - 1);
    }
  }

  /** Logarithms of frequencies and a text that fits in memory never reach the source's floor. */
  lemma OrdinaryWeightsAreAbove(d: Words, runes: seq<nat>, start: nat, end: nat)
    requires start <= end <= |runes| && end - start <= 0x1_0000_0000_0000_0000
    requires d.minWeight >= -1.0e6 && forall k :: k in d.entries ==> d.entries[k].weight >= -1.0e6
    ensures AboveFloor(d, runes, start, end, MIN_DOUBLE)
  {
    LowTotalIs(-1.0e6, end - start);
    LowWeightsAreAbove(d, runes, start, end, MIN_DOUBLE, -1.0e6);
  }

  /** `weights[i]` bounds the weight of every split from rune `start + i` on. */
  ghost predicate BoundsFrom(d: Words, runes: seq<nat>, start: nat, end: nat, weights: seq<real>, from: nat) {
    && |weights| == end - start
    && forall words, i: nat :: from <= i < |weights| && Splits(d, runes, words, start + i, end) ==> Total(d, runes, words) <= weights[i]
  }

  /** The value of an edge: its word and the best that follows. */
  function ValueOf(d: Words, start: nat, weights: seq<real>, c: Candidate): real
    requires start <= c.end
  {
    (if c.end - start + 1 < |weights| then weights[c.end - start + 1] else 0.0)
    + (if c.found then c.entry.weight else d.minWeight)
  }

  /** A split starts with one of the edges, so it weighs no more than the best edge. */
  lemma SplitBelowBest(d: Words, runes: seq<nat>, start: nat, end: nat, weights: seq<real>, local: nat, best: real, words: seq<WordRange>)
    requires WordsOK(d) && start <= end <= |runes| && local < end - start && BoundsFrom(d, runes, start, end, weights, local + 1)
    requires forall c :: c in Candidates(d, runes, start + local, end) ==> start <= c.end && ValueOf(d, start, weights, c) <= best
    requires Splits(d, runes, words, start + local, end)
    ensures Total(d, runes, words) <= best
  {
    hide Candidates, Tiles, Total, AllWords, IsWord, WordsOK;
    var absolute := start + local;
    TotalFirst(d, runes, words, absolute, end);
    var first, rest := words[0], words[1..];
    CandidatesAreWords(d, runes, absolute, end, first.end);
    var c :| c in Candidates(d, runes, absolute, end) && c.end == first.end;
    CandidatesAreEdges(d, runes, absolute, end);
    if first.end + 1 < end {
      var i := first.end + 1 - start;
      assert Splits(d, runes, rest, start + i, end);
    }
  }

  /** Taking the first word off a split. */
  lemma TotalFirst(d: Words, runes: seq<nat>, words: seq<WordRange>, start: nat, end: nat)
    requires start < end && Splits(d, runes, words, start, end)
    ensures words != [] && words[0].start == start <= words[0].end < end && IsWord(d, runes, words[0])
    ensures Splits(d, runes, words[1..], words[0].end + 1, end)
    ensures Total(d, runes, words) == WordWeight(d, runes, words[0]) + Total(d, runes, words[1..])
    ensures words[0].end + 1 == end ==> Total(d, runes, words[1..]) == 0.0
  {
    TilesRest(words, start, end);
    var first, rest := words[0], words[1..];
    assert words == [first] + rest && first in words;
    assert AllWords(d, runes, rest) && AllWords(d, runes, [first]);
    TotalConcat(d, runes, [first], rest);
    assert [first][..0] == [];
    if first.end + 1 == end && rest != [] {
      TilesRest(rest, end, end);
    }
  }

  const NO_EDGE := Candidate(0, Entry(0.0, 0), false)

  /** What a rune's choice records: its best edge, or none when nothing exceeds the floor. */
  ghost predicate Picked(d: Words, start: nat, weights: seq<real>, row: seq<Candidate>, floor: real, best: real, pick: Candidate) {
    && (forall c :: c in row ==> start <= c.end)
    && (if best > floor then pick in row && ValueOf(d, start, weights, pick) == best else best == floor && pick == NO_EDGE)
  }

  method BestEdge(d: Words, start: nat, weights: array<real>, row: seq<Candidate>, floor: real) returns (best: real, pick: Candidate)
    requires forall c :: c in row ==> start <= c.end
    ensures Picked(d, start, weights[..], row, floor, best, pick)
    ensures forall c :: c in row ==> ValueOf(d, start, weights[..], c) <= best
  {
    best, pick := floor, NO_EDGE;
    for k := 0 to |row|
      invariant best >= floor
      invariant if best > floor then pick in row && ValueOf(d, start, weights[..], pick) == best else pick == NO_EDGE
      invariant forall j :: 0 <= j < k ==> ValueOf(d, start, weights[..], row[j]) <= best
    {
      var candidate := row[k];
      assert candidate in row;
      var value := 0.0;
      var nextLocal := candidate.end - start + 1;
      if nextLocal < weights.Length {
        value := value + weights[nextLocal];
      }
      if candidate.found {
        value := value + candidate.entry.weight;
      } else {
        value := value + d.minWeight;
      }
      if value > best {
        best, pick := value, candidate;
      }
    }
  }

  /** The table from rune `from` on: bounds for every split, each realised by the recorded choice. */
  ghost predicate Solved(d: Words, runes: seq<nat>, start: nat, end: nat, weights: seq<real>, chosen: seq<Candidate>, from: nat, floor: real)
    requires start <= end <= |runes|
  {
    && BoundsFrom(d, runes, start, end, weights, from)
    && |chosen| == |weights|
    && forall i: nat :: from <= i < |weights| ==> Picked(d, start, weights, Candidates(d, runes, start + i, end), floor, weights[i], chosen[i])
  }

  lemma SolveStep(d: Words, runes: seq<nat>, start: nat, end: nat, weights: seq<real>, chosen: seq<Candidate>, local: nat, floor: real,
                  best: real, pick: Candidate)
    requires WordsOK(d) && start <= end <= |runes| && local < end - start
    requires Solved(d, runes, start, end, weights, chosen, local + 1, floor)
    requires Picked(d, start, weights, Candidates(d, runes, start + local, end), floor, best, pick)
    requires forall c :: c in Candidates(d, runes, start + local, end) ==> ValueOf(d, start, weights, c) <= best
    ensures Solved(d, runes, start, end, weights[local := best], chosen[local := pick], local, floor)
  {
    hide Candidates, Tiles, WordsOK;
    var w, h := weights[local := best], chosen[local := pick];
    forall words, i: nat | local <= i < |w| && Splits(d, runes, words, start + i, end) ensures Total(d, runes, words) <= w[i] {
      if i == local {
        SplitBelowBest(d, runes, start, end, weights, local, best, words);
      }
    }
    forall i: nat | local <= i < |w| ensures Picked(d, start, w, Candidates(d, runes, start + i, end), floor, w[i], h[i]) {
      CandidatesAreEdges(d, runes, start + i, end);
      assert forall c :: c in Candidates(d, runes, start + i, end) ==> start + i <= c.end && ValueOf(d, start, w, c) == ValueOf(d, start, weights, c);
    }
  }

  /** Above the floor every position has a real choice. */
  lemma AlwaysPicked(d: Words, runes: seq<nat>, start: nat, end: nat, weights: seq<real>, chosen: seq<Candidate>, floor: real, i: nat)
    requires start <= end <= |runes| && Solved(d, runes, start, end, weights, chosen, 0, floor) && i < end - start
    requires AboveFloor(d, runes, start, end, floor)
    ensures weights[i] > floor
  {
    assert HasHeavySplit(d, runes, start + i, end, floor);
    var words :| Splits(d, runes, words, start + i, end) && Total(d, runes, words) > floor;
  }

  ghost function WeightAt(weights: seq<real>, local: nat): real {
    if local < |weights| then weights[local] else 0.0
  }

  lemma AppendWord(d: Words, runes: seq<nat>, words: seq<WordRange>, start: nat, w: WordRange)
    requires Splits(d, runes, words, start, w.start) && IsWord(d, runes, w)
    ensures Splits(d, runes, words + [w], start, w.end + 1)
    ensures AllWords(d, runes, words + [w]) && Total(d, runes, words + [w]) == Total(d, runes, words) + WordWeight(d, runes, w)
  {
    assert (words + [w])[..|words|] == words;
  }

  /** The maximum-weight segmentation: best edges from the end, then a walk from the start. */
  method CutMP(d: Words, runes: seq<nat>, start: nat, end: nat, floor: real) returns (words: seq<WordRange>)
    requires WordsOK(d) && start <= end <= |runes|
    ensures Splits(d, runes, words, start, end)
    ensures AboveFloor(d, runes, start, end, floor) ==> Heaviest(d, runes, words, start, end)
  {
    hide WordsOK, Candidates, Solved, BoundsFrom, AboveFloor, Splits, Heaviest, Picked, IsWord, AllWords, Total, WordWeight;
    var dag := BuildDAG(d, runes, start, end);
    var weights := new real[|dag|];
    var chosen := new Candidate[|dag|];
    NothingSolved(d, runes, start, end, weights[..], chosen[..], floor);
    var local: nat := |dag|;
    while local > 0
      invariant local <= |dag|
      invariant Solved(d, runes, start, end, weights[..], chosen[..], local, floor)
    {
      local := local - 1;
      RowsStart(d, runes, start + local, end);
      var best, pick := BestEdge(d, start, weights, dag[local], floor);
      SolveStep(d, runes, start, end, weights[..], chosen[..], local, floor, best, pick);
      ghost var w, h := weights[..][local := best], chosen[..][local := pick];
      weights[local], chosen[local] := best, pick;
      assert weights[..] == w && chosen[..] == h;
    }
    words := [];
    NoWords(d, runes, start);
    local := 0;
    while local < |dag|
      invariant local <= |dag| && Solved(d, runes, start, end, weights[..], chosen[..], 0, floor)
      invariant Splits(d, runes, words, start, start + local) && AllWords(d, runes, words)
      invariant AboveFloor(d, runes, start, end, floor) ==>
        Total(d, runes, words) + WeightAt(weights[..], local) == WeightAt(weights[..], 0)
      decreases |dag| - local
    {
      var candidate := chosen[local];
      var wordEnd := start + local;
      PickedEdge(d, runes, start, end, weights[..], chosen[..], floor, local);
      if candidate.found {
        wordEnd := start + local + candidate.entry.length - 1;
      }
      AppendWord(d, runes, words, start, WordRange(start + local, wordEnd));
      if AboveFloor(d, runes, start, end, floor) {
        AlwaysPicked(d, runes, start, end, weights[..], chosen[..], floor, local);
      }
      words := words + [WordRange(start + local, wordEnd)];
      local := wordEnd - start + 1;
    }
    WalkedHeaviest(d, runes, start, end, weights[..], chosen[..], floor, words);
  }

  lemma NothingSolved(d: Words, runes: seq<nat>, start: nat, end: nat, weights: seq<real>, chosen: seq<Candidate>, floor: real)
    requires start <= end <= |runes| && |weights| == |chosen| == end - start
    ensures Solved(d, runes, start, end, weights, chosen, end - start, floor)
  {
  }

  lemma RowsStart(d: Words, runes: seq<nat>, absolute: nat, end: nat)
    requires WordsOK(d) && absolute < end <= |runes|
    ensures forall c :: c in Candidates(d, runes, absolute, end) ==> absolute <= c.end
  {
    CandidatesAreEdges(d, runes, absolute, end);
  }

  lemma NoWords(d: Words, runes: seq<nat>, start: nat)
    ensures Splits(d, runes, [], start, start) && AllWords(d, runes, []) && Total(d, runes, []) == 0.0
  {
  }

  lemma SolvedAt(d: Words, runes: seq<nat>, start: nat, end: nat, weights: seq<real>, chosen: seq<Candidate>, floor: real, local: nat)
    requires start <= end <= |runes| && Solved(d, runes, start, end, weights, chosen, 0, floor) && local < end - start
    ensures |weights| == |chosen| == end - start
    ensures Picked(d, start, weights, Candidates(d, runes, start + local, end), floor, weights[local], chosen[local])
  {
  }

  /** Where the word of a choice ends. */
  function EndOf(absolute: nat, pick: Candidate): int {
    if pick.found then absolute + pick.entry.length - 1 else absolute
  }

  lemma EdgeEnd(d: Words, runes: seq<nat>, absolute: nat, end: nat, c: Candidate)
    requires WordsOK(d) && EdgeOf(d, runes, absolute, end, c)
    ensures EndOf(absolute, c) == c.end
    ensures WordWeight(d, runes, WordRange(absolute, c.end)) == if c.found then c.entry.weight else d.minWeight
  {
  }

  /** The word a choice stands for, and its share of the recorded weight. */
  lemma PickedEdge(d: Words, runes: seq<nat>, start: nat, end: nat, weights: seq<real>, chosen: seq<Candidate>, floor: real, local: nat)
    requires WordsOK(d) && start <= end <= |runes| && Solved(d, runes, start, end, weights, chosen, 0, floor) && local < end - start
    ensures |weights| == |chosen| == end - start
    ensures chosen[local].found ==> chosen[local].entry.length > 0
    ensures var e := EndOf(start + local, chosen[local]);
      && start + local <= e < end && IsWord(d, runes, WordRange(start + local, e))
      && (weights[local] > floor ==> WordWeight(d, runes, WordRange(start + local, e)) + WeightAt(weights, e + 1 - start) == weights[local])
  {
    hide Candidates, Solved, WordsOK, IsWord;
    SolvedAt(d, runes, start, end, weights, chosen, floor, local);
    CandidatesAreEdges(d, runes, start + local, end);
    if weights[local] > floor {
      EdgeEnd(d, runes, start + local, end, chosen[local]);
    } else {
      OneRune(d, runes, start + local);
    }
  }

  lemma OneRune(d: Words, runes: seq<nat>, a: nat)
    requires a < |runes|
    ensures IsWord(d, runes, WordRange(a, a))
  {
  }

  lemma WalkedHeaviest(d: Words, runes: seq<nat>, start: nat, end: nat, weights: seq<real>, chosen: seq<Candidate>, floor: real, words: seq<WordRange>)
    requires start <= end <= |runes| && Solved(d, runes, start, end, weights, chosen, 0, floor)
    requires Splits(d, runes, words, start, end)
    requires AboveFloor(d, runes, start, end, floor) ==> Total(d, runes, words) == WeightAt(weights, 0)
    ensures AboveFloor(d, runes, start, end, floor) ==> Heaviest(d, runes, words, start, end)
  {
    if AboveFloor(d, runes, start, end, floor) {
      forall other | Splits(d, runes, other, start, end) ensures Total(d, runes, other) <= Total(d, runes, words) {
        if start == end {
          if other != [] { TilesRest(other, start, end); }
        } else {
          assert Splits(d, runes, other, start + 0, end);
        }
      }
    }
  }
}
