/** The hidden Markov tagger: Viterbi's table over begin, end, middle and single states, the path read
    back from it, and the words between its end and single states. Probabilities are exact reals. */
module Tagging {
  import opened Jieba

  /** States 0 to 3: begin, end, middle, single. */
  const STATES := 4

  datatype Model = Model(start: seq<real>, transition: seq<seq<real>>, emission: seq<map<nat, real>>)

  predicate ModelOK(m: Model) {
    && |m.start| == |m.transition| == |m.emission| == STATES
    && forall s :: 0 <= s < STATES ==> |m.transition[s]| == STATES
  }

  /** Logarithms of probabilities. */
  ghost predicate LogProbabilities(m: Model)
    requires ModelOK(m)
  {
    && (forall s, t :: 0 <= s < STATES && 0 <= t < STATES ==> m.transition[s][t] <= 0.0)
    && (forall s, v :: 0 <= s < STATES && v in m.emission[s] ==> m.emission[s][v] <= 0.0)
  }

  function Emit(m: Model, floor: real, state: nat, value: nat): real
    requires ModelOK(m) && state < STATES
  {
    if value in m.emission[state] then m.emission[state][value] else floor
  }

  // ----- Paths ----------------------------------------------------------------------------------

  ghost predicate IsPath(path: seq<nat>) {
    path != [] && forall i :: 0 <= i < |path| ==> path[i] < STATES
  }

  function Last(path: seq<nat>): nat
    requires path != []
  {
    path[|path| - 1]
  }

  /** The weight of tagging the runes `text` with a path. */
  ghost function PathWeight(m: Model, floor: real, text: seq<nat>, path: seq<nat>): real
    requires ModelOK(m) && IsPath(path) && |path| <= |text|
  {
    var n := |path| - 1;
    if n == 0 then m.start[path[0]] + Emit(m, floor, path[0], text[0])
    else PathWeight(m, floor, text, path[..n]) + m.transition[path[n - 1]][path[n]] + Emit(m, floor, path[n], text[n])
  }

  // ----- The table --------------------------------------------------------------------------------

  /** The best predecessor among the first `k` states and its weight; state 1 when none exceeds the floor. */
  function Choose(m: Model, floor: real, text: seq<nat>, offset: nat, state: nat, k: nat): (real, nat)
    requires ModelOK(m) && 0 < offset < |text| && state < STATES && k <= STATES
    decreases offset, k
  {
    if k == 0 then (floor, 1)
    else
      var (best, from) := Choose(m, floor, text, offset, state, k - 1);
      var candidate := Weight(m, floor, text, offset - 1, k - 1) + m.transition[k - 1][state] + Emit(m, floor, state, text[offset]);
      if candidate > best then (candidate, k - 1) else (best, from)
  }

  function Weight(m: Model, floor: real, text: seq<nat>, offset: nat, state: nat): real
    requires ModelOK(m) && offset < |text| && state < STATES
    decreases offset, STATES + 1
  {
    if offset == 0 then m.start[state] + Emit(m, floor, state, text[0])
    else Choose(m, floor, text, offset, state, STATES).0
  }

  function From(m: Model, floor: real, text: seq<nat>, offset: nat, state: nat): nat
    requires ModelOK(m) && 0 < offset < |text| && state < STATES
  {
    Choose(m, floor, text, offset, state, STATES).1
  }

  lemma {:induction false} ChooseBounds(m: Model, floor: real, text: seq<nat>, offset: nat, state: nat, k: nat)
    requires ModelOK(m) && 0 < offset < |text| && state < STATES && k <= STATES
    ensures var (best, from) := Choose(m, floor, text, offset, state, k);
      && from < STATES && best >= floor
      && (forall p: nat :: p < k ==> Weight(m, floor, text, offset - 1, p) + m.transition[p][state] + Emit(m, floor, state, text[offset]) <= best)
      && (best > floor ==> best == Weight(m, floor, text, offset - 1, from) + m.transition[from][state] + Emit(m, floor, state, text[offset]))
    decreases k
  {
    hide Emit;
    if k > 0 {
      ChooseBounds(m, floor, text, offset, state, k - 1);
    }
  }

  /** No path to a state weighs more than its table entry. */
  lemma {:induction false} WeightBounds(m: Model, floor: real, text: seq<nat>, path: seq<nat>)
    requires ModelOK(m) && IsPath(path) && |path| <= |text|
    ensures PathWeight(m, floor, text, path) <= Weight(m, floor, text, |path| - 1, Last(path))
    decreases |path|
  {
    hide Emit;
    var n := |path| - 1;
    if n > 0 {
      WeightBounds(m, floor, text, path[..n]);
      ChooseBounds(m, floor, text, n, path[n], STATES);
    }
  }

  /** The path read back from an entry. */
  ghost function Trace(m: Model, floor: real, text: seq<nat>, offset: nat, state: nat): (path: seq<nat>)
    requires ModelOK(m) && offset < |text| && state < STATES
    ensures |path| == offset + 1 && Last(path) == state && IsPath(path)
    decreases offset
  {
    if offset == 0 then [state]
    else
      ChooseBounds(m, floor, text, offset, state, STATES);
      Trace(m, floor, text, offset - 1, From(m, floor, text, offset, state)) + [state]
  }

  /** An entry above the floor is realised by the path read back from it. */
  lemma {:induction false} TraceWeight(m: Model, floor: real, text: seq<nat>, offset: nat, state: nat)
    requires ModelOK(m) && LogProbabilities(m) && floor <= 0.0 && offset < |text| && state < STATES
    requires offset > 0 ==> Weight(m, floor, text, offset, state) > floor
    ensures PathWeight(m, floor, text, Trace(m, floor, text, offset, state)) == Weight(m, floor, text, offset, state)
    decreases offset
  {
    if offset > 0 {
      hide Choose, PathWeight, Emit, Trace, LogProbabilities, Weight;
      StepBack(m, floor, text, offset, state);
      var from := From(m, floor, text, offset, state);
      TraceWeight(m, floor, text, offset - 1, from);
      TraceStep(m, floor, text, offset, state);
      PathStep(m, floor, text, Trace(m, floor, text, offset - 1, from), state);
      var path := Trace(m, floor, text, offset, state);
      assert path == path[..offset] + [state];
    } else {
      TraceFirst(m, floor, text, state);
    }
  }

  lemma TraceFirst(m: Model, floor: real, text: seq<nat>, state: nat)
    requires ModelOK(m) && text != [] && state < STATES
    ensures PathWeight(m, floor, text, Trace(m, floor, text, 0, state)) == Weight(m, floor, text, 0, state)
  {
    hide Emit;
  }

  /** The recorded predecessor explains an entry above the floor, and was above the floor itself. */
  lemma StepBack(m: Model, floor: real, text: seq<nat>, offset: nat, state: nat)
    requires ModelOK(m) && LogProbabilities(m) && floor <= 0.0 && 0 < offset < |text| && state < STATES
    requires Weight(m, floor, text, offset, state) > floor
    ensures var from := From(m, floor, text, offset, state);
      && from < STATES && Weight(m, floor, text, offset - 1, from) > floor
      && Weight(m, floor, text, offset, state) ==
           Weight(m, floor, text, offset - 1, from) + m.transition[from][state] + Emit(m, floor, state, text[offset])
  {
    ChooseBounds(m, floor, text, offset, state, STATES);
    ColumnStep(m, floor, text, offset, state);
    EmitNegative(m, floor, state, text[offset]);
    hide Choose, Weight, Emit;
    var from := From(m, floor, text, offset, state);
    assert m.transition[from][state] <= 0.0;
  }

  lemma EmitNegative(m: Model, floor: real, state: nat, value: nat)
    requires ModelOK(m) && LogProbabilities(m) && floor <= 0.0 && state < STATES
    ensures Emit(m, floor, state, value) <= 0.0
  {
  }

  lemma PathStep(m: Model, floor: real, text: seq<nat>, path: seq<nat>, state: nat)
    requires ModelOK(m) && IsPath(path) && |path| < |text| && state < STATES
    ensures IsPath(path + [state])
    ensures PathWeight(m, floor, text, path + [state]) ==
      PathWeight(m, floor, text, path) + m.transition[Last(path)][state] + Emit(m, floor, state, text[|path|])
  {
    hide Emit;
    assert (path + [state])[..|path|] == path;
  }

  // ----- Tagging ------------------------------------------------------------------------------------

  /** A path that ends a word at the end of the text. */
  ghost predicate Ends(path: seq<nat>, length: nat) {
    IsPath(path) && |path| == length && (Last(path) == 1 || Last(path) == 3)
  }

  ghost predicate MostLikely(m: Model, floor: real, text: seq<nat>, path: seq<nat>)
    requires ModelOK(m)
  {
    && Ends(path, |text|)
    && forall other :: Ends(other, |text|) ==> PathWeight(m, floor, text, other) <= PathWeight(m, floor, text, path)
  }

  /** Some tagging that ends a word at the end is possible at all. */
  ghost predicate Possible(m: Model, floor: real, text: seq<nat>)
    requires ModelOK(m)
  {
    exists path :: Ends(path, |text|) && PathWeight(m, floor, text, path) > floor
  }

  lemma TraceMostLikely(m: Model, floor: real, text: seq<nat>, final: nat)
    requires ModelOK(m) && text != [] && (final == 1 || final == 3)
    requires Weight(m, floor, text, |text| - 1, final) >= Weight(m, floor, text, |text| - 1, 4 - final)
    ensures LogProbabilities(m) && floor <= 0.0 && Possible(m, floor, text) ==>
      MostLikely(m, floor, text, Trace(m, floor, text, |text| - 1, final))
  {
    hide Weight, PathWeight, Trace;
    if LogProbabilities(m) && floor <= 0.0 && Possible(m, floor, text) {
      forall other | Ends(other, |text|)
        ensures PathWeight(m, floor, text, other) <= Weight(m, floor, text, |text| - 1, final)
      {
        WeightBounds(m, floor, text, other);
      }
      var path :| Ends(path, |text|) && PathWeight(m, floor, text, path) > floor;
      TraceWeight(m, floor, text, |text| - 1, final);
    }
  }

  /** Fill the table column by column. */
  method FillTable(m: Model, floor: real, text: seq<nat>) returns (weights: array2<real>, paths: array2<int>)
    requires ModelOK(m) && text != []
    ensures weights.Length0 == paths.Length0 == STATES && weights.Length1 == paths.Length1 == |text|
    ensures forall s: nat, o: nat :: s < STATES && o < |text| ==> weights[s, o] == Weight(m, floor, text, o, s)
    ensures forall s: nat, o: nat :: s < STATES && 0 < o < |text| ==> paths[s, o] == From(m, floor, text, o, s)
    ensures fresh(weights) && fresh(paths)
  {
    hide Choose, Weight, From, Emit;
    weights, paths := new real[STATES, |text|], new int[STATES, |text|];
    for state := 0 to STATES
      invariant forall s: nat :: s < state ==> weights[s, 0] == Weight(m, floor, text, 0, s)
    {
      FirstColumn(m, floor, text, state);
      weights[state, 0] := m.start[state] + Emit(m, floor, state, text[0]);
      paths[state, 0] := -1;
    }
    for offset := 1 to |text|
      invariant forall s: nat, o: nat :: s < STATES && o < offset ==> weights[s, o] == Weight(m, floor, text, o, s)
      invariant forall s: nat, o: nat :: s < STATES && 0 < o < offset ==> paths[s, o] == From(m, floor, text, o, s)
    {
      for state := 0 to STATES
        invariant forall s: nat, o: nat :: s < STATES && o < offset ==> weights[s, o] == Weight(m, floor, text, o, s)
        invariant forall s: nat, o: nat :: s < STATES && 0 < o < offset ==> paths[s, o] == From(m, floor, text, o, s)
        invariant forall s: nat :: s < state ==>
          weights[s, offset] == Weight(m, floor, text, offset, s) && paths[s, offset] == From(m, floor, text, offset, s)
      {
        ColumnStep(m, floor, text, offset, state);
        weights[state, offset] := floor;
        paths[state, offset] := 1;
        var emission := Emit(m, floor, state, text[offset]);
        for previous := 0 to STATES
          invariant forall s: nat, o: nat :: s < STATES && o < offset ==> weights[s, o] == Weight(m, floor, text, o, s)
          invariant forall s: nat, o: nat :: s < STATES && 0 < o < offset ==> paths[s, o] == From(m, floor, text, o, s)
          invariant forall s: nat :: s < state ==>
            weights[s, offset] == Weight(m, floor, text, offset, s) && paths[s, offset] == From(m, floor, text, offset, s)
          invariant (weights[state, offset], paths[state, offset]) == Choose(m, floor, text, offset, state, previous)
        {
          ChooseStep(m, floor, text, offset, state, previous);
          var candidate := weights[previous, offset - 1] + m.transition[previous][state] + emission;
          if candidate > weights[state, offset] {
            weights[state, offset] := candidate;
            paths[state, offset] := previous;
          }
        }
      }
    }
  }

  /** Tag a text: the last state is the better of end and single, the rest is read back. */
  method Tag(m: Model, floor: real, text: seq<nat>) returns (statuses: seq<nat>)
    requires ModelOK(m) && text != []
    ensures |statuses| == |text| && Ends(statuses, |text|)
    ensures LogProbabilities(m) && floor <= 0.0 && Possible(m, floor, text) ==> MostLikely(m, floor, text, statuses)
  {
    hide Choose, Weight, PathWeight, Emit, MostLikely, Possible, LogProbabilities;
    var length := |text|;
    var weights, paths := FillTable(m, floor, text);
    var state: int := 3;
    if weights[1, length - 1] >= weights[3, length - 1] {
      state := 1;
    }
    var final: nat := state;
    TraceMostLikely(m, floor, text, final);
    statuses := ReadBack(m, floor, text, paths, final);
  }

  /** Follow the recorded predecessors back from the last column. */
  method ReadBack(m: Model, floor: real, text: seq<nat>, paths: array2<int>, final: nat) returns (statuses: seq<nat>)
    requires ModelOK(m) && text != [] && final < STATES
    requires paths.Length0 == STATES && paths.Length1 == |text|
    requires forall s: nat, o: nat :: s < STATES && 0 < o < |text| ==> paths[s, o] == From(m, floor, text, o, s)
    ensures statuses == Trace(m, floor, text, |text| - 1, final)
  {
    hide Trace, From, Choose;
    ghost var trace := Trace(m, floor, text, |text| - 1, final);
    statuses := [];
    var state: int := final;
    var offset := |text|;
    assert trace[..offset] == trace;
    while offset > 0
      invariant 0 <= offset <= |text| && statuses == trace[offset..]
      invariant offset > 0 ==> 0 <= state < STATES && trace[..offset] == Trace(m, floor, text, offset - 1, state)
    {
      offset := offset - 1;
      TraceStep(m, floor, text, offset, state);
      assert trace[..offset + 1][offset] == trace[offset] == state;
      assert trace[offset..] == [trace[offset]] + trace[offset + 1..];
      assert trace[..offset] == trace[..offset + 1][..offset];
      statuses := [state] + statuses;
      state := paths[state, offset];
    }
    assert trace[0..] == trace;
  }

  lemma TraceStep(m: Model, floor: real, text: seq<nat>, offset: nat, state: nat)
    requires ModelOK(m) && offset < |text| && state < STATES
    ensures var path := Trace(m, floor, text, offset, state);
      path[offset] == state && (offset > 0 ==>
        var from := From(m, floor, text, offset, state);
        from < STATES && path[..offset] == Trace(m, floor, text, offset - 1, from))
  {
    if offset > 0 {
      ChooseBounds(m, floor, text, offset, state, STATES);
    }
  }

  lemma FirstColumn(m: Model, floor: real, text: seq<nat>, state: nat)
    requires ModelOK(m) && text != [] && state < STATES
    ensures Weight(m, floor, text, 0, state) == m.start[state] + Emit(m, floor, state, text[0])
  {
  }

  lemma ColumnStep(m: Model, floor: real, text: seq<nat>, offset: nat, state: nat)
    requires ModelOK(m) && 0 < offset < |text| && state < STATES
    ensures Choose(m, floor, text, offset, state, 0) == (floor, 1)
    ensures Choose(m, floor, text, offset, state, STATES) == (Weight(m, floor, text, offset, state), From(m, floor, text, offset, state))
  {
    hide Emit;
  }

  lemma ChooseStep(m: Model, floor: real, text: seq<nat>, offset: nat, state: nat, k: nat)
    requires ModelOK(m) && 0 < offset < |text| && state < STATES && k < STATES
    ensures var candidate := Weight(m, floor, text, offset - 1, k) + m.transition[k][state] + Emit(m, floor, state, text[offset]);
      Choose(m, floor, text, offset, state, k + 1) ==
        if candidate > Choose(m, floor, text, offset, state, k).0 then (candidate, k) else Choose(m, floor, text, offset, state, k)
  {
    hide Emit;
  }

  // ----- Words from tags ------------------------------------------------------------------------------

  /** A tagging that ends a word at the end, and a most likely such one whenever one is possible. */
  ghost predicate Tagged(m: Model, floor: real, text: seq<nat>, tags: seq<nat>)
    requires ModelOK(m)
  {
    && Ends(tags, |text|)
    && (LogProbabilities(m) && floor <= 0.0 && Possible(m, floor, text) ==> MostLikely(m, floor, text, tags))
  }

  ghost predicate EndsAt(words: seq<WordRange>, e: nat) {
    exists w :: w in words && w.end == e
  }

  /** From rune `start` on, words end exactly at the tags end (1) and single (3). */
  ghost predicate CutAt(words: seq<WordRange>, start: nat, tags: seq<nat>) {
    forall k: nat :: k < |tags| ==> (EndsAt(words, start + k) <==> tags[k] == 1 || tags[k] == 3)
  }

  lemma AppendEnds(words: seq<WordRange>, w: WordRange)
    ensures forall e: nat :: EndsAt(words + [w], e) <==> EndsAt(words, e) || e == w.end
  {
    forall e: nat | EndsAt(words, e) || e == w.end ensures EndsAt(words + [w], e) {
      assert w in words + [w];
      if EndsAt(words, e) {
        var x :| x in words && x.end == e;
        assert x in words + [w];
      }
    }
  }

  /** Cut after every end and single state. */
  method CutHMMInternal(m: Model, floor: real, runes: seq<nat>, start: nat, end: nat)
    returns (words: seq<WordRange>, ghost tags: seq<nat>)
    requires ModelOK(m) && start < end <= |runes|
    ensures Tiles(words, start, end)
    ensures |tags| == end - start && Tagged(m, floor, runes[start..end], tags) && CutAt(words, start, tags)
  {
    hide MostLikely, Possible, LogProbabilities, EndsAt;
    var statuses := Tag(m, floor, runes[start..end]);
    tags := statuses;
    words := [];
    var left := start;
    NoEnds();
    for offset := 0 to |statuses|
      invariant start <= left <= start + offset && Tiles(words, start, left)
      invariant offset > 0 && statuses[offset - 1] % 2 == 1 ==> left == start + offset
      invariant forall e: nat :: EndsAt(words, e) <==> start <= e < start + offset && (tags[e - start] == 1 || tags[e - start] == 3)
    {
      if statuses[offset] % 2 == 1 {
        assert (words + [WordRange(left, start + offset)])[..|words|] == words;
        AppendEnds(words, WordRange(left, start + offset));
        words := words + [WordRange(left, start + offset)];
        left := start + offset + 1;
      }
    }
  }

  lemma NoEnds()
    ensures forall e: nat :: !EndsAt([], e)
  {
  }
}
