/** Bitmap contents in two representations: up to two IDs inline, in order, or a compressed bitmap,
    here a set. Every operation refines the same operation on a plain set. */
module Bitmaps {
  import opened Common

  // ----- Words -----------------------------------------------------------------------------------

  /** The positions of the bits set in a word. */
  function Bits(word: nat): set<nat> {
    if word == 0 then {} else (if word % 2 == 1 then {0} else {}) + Raised(Bits(word / 2))
  }

  function Raised(bits: set<nat>): set<nat> {
    set b | b in bits :: b + 1
  }

  lemma RaisedUnion(bits: set<nat>, k: nat)
    ensures Raised(bits + {k}) == Raised(bits) + {k + 1}
    ensures Raised(bits - {k}) == Raised(bits) - {k + 1}
    ensures 0 !in Raised(bits)
  {
    forall x | x in Raised(bits) && x != k + 1 ensures x in Raised(bits - {k}) {
      var b :| b in bits && b + 1 == x;
      assert b in bits - {k};
    }
  }

  lemma RaisedMember(bits: set<nat>, k: nat)
    requires k in bits
    ensures k + 1 in Raised(bits)
  {
  }

  lemma BitsHalves(word: nat)
    ensures Bits(word) == (if word % 2 == 1 then {0} else {}) + Raised(Bits(word / 2))
  {
  }

  function TrailingZeros(word: nat): nat
    requires word > 0
  {
    if word % 2 == 1 then 0 else 1 + TrailingZeros(word / 2)
  }

  /** `word & (word - 1)`. */
  function ClearLowest(word: nat): (r: nat)
    requires word > 0
    ensures r < word
  {
    if word % 2 == 1 then word - 1 else 2 * ClearLowest(word / 2)
  }

  /** `word | 1 << k`. */
  function SetBit(word: nat, k: nat): nat {
    if k == 0 then (if word % 2 == 1 then word else word + 1)
    else 2 * SetBit(word / 2, k - 1) + word % 2
  }

  lemma BitsDouble(half: nat, low: nat)
    requires low < 2
    ensures Bits(2 * half + low) == (if low == 1 then {0} else {}) + Raised(Bits(half))
  {
    assert (2 * half + low) / 2 == half && (2 * half + low) % 2 == low;
  }

  lemma {:induction false} LowestBit(word: nat)
    requires word > 0
    ensures TrailingZeros(word) in Bits(word) && Bits(ClearLowest(word)) == Bits(word) - {TrailingZeros(word)}
  {
    hide Bits, Raised;
    var half := word / 2;
    BitsHalves(word);
    if word % 2 == 1 {
      BitsDouble(half, 0);
      RaisedUnion(Bits(half), 0);
    } else {
      LowestBit(half);
      BitsDouble(ClearLowest(half), 0);
      RaisedMember(Bits(half), TrailingZeros(half));
      RaisedUnion(Bits(half), TrailingZeros(half));
    }
  }

  lemma {:induction false} BitSet(word: nat, k: nat)
    ensures Bits(SetBit(word, k)) == Bits(word) + {k}
    decreases k
  {
    hide Bits, Raised;
    var half := word / 2;
    BitsHalves(word);
    assert word == 2 * half + word % 2;
    if k == 0 {
      BitsDouble(half, 1);
    } else {
      BitSet(half, k - 1);
      BitsDouble(SetBit(half, k - 1), word % 2);
      RaisedUnion(Bits(half), k - 1);
    }
  }

  /** A 64-bit word. */
  ghost predicate IsWord(word: nat) {
    forall b :: b in Bits(word) ==> b < 64
  }

  /** The set a sequence of dense words stands for, the first word at index `from`. */
  ghost function Dense(words: seq<nat>, from: nat): set<nat> {
    if words == [] then {}
    else
      var n := |words| - 1;
      Dense(words[..n], from) + At(64 * (from + n), Bits(words[n]))
  }

  /** Bits of a word at a base position. */
  ghost function At(base: nat, bits: set<nat>): set<nat> {
    set b | b in bits :: base + b
  }

  lemma AtNext(base: nat, bits: set<nat>, k: nat)
    ensures At(base, bits + {k}) == At(base, bits) + {base + k}
  {
  }

  lemma {:induction false} DenseBits(words: seq<nat>, from: nat, bit: nat)
    requires forall i :: 0 <= i < |words| ==> IsWord(words[i])
    ensures bit in Dense(words, from) <==> from <= bit / 64 < from + |words| && bit % 64 in Bits(words[bit / 64 - from])
    decreases |words|
  {
    if words != [] {
      var n := |words| - 1;
      DenseBits(words[..n], from, bit);
      if bit / 64 == from + n && bit % 64 in Bits(words[n]) {
        assert bit == 64 * (from + n) + bit % 64;
      }
    }
  }

  /** Moving the lowest bit of what is left over to what was added. */
  lemma WordStep(word: nat, rest: nat, base: nat)
    requires rest != 0 && Bits(rest) <= Bits(word)
    ensures ClearLowest(rest) < rest && Bits(ClearLowest(rest)) <= Bits(word)
    ensures At(base, Bits(word) - Bits(ClearLowest(rest))) == At(base, Bits(word) - Bits(rest)) + {base + TrailingZeros(rest)}
  {
    hide Bits, TrailingZeros, ClearLowest, At;
    LowestBit(rest);
    var bit := TrailingZeros(rest);
    AtNext(base, Bits(word) - Bits(rest), bit);
    MoveOver(Bits(word), Bits(rest), bit);
  }

  lemma WordEnds(word: nat, base: nat)
    ensures At(base, Bits(word) - Bits(word)) == {} && At(base, Bits(word) - Bits(0)) == At(base, Bits(word))
  {
    assert Bits(0) == {};
    hide Bits;
    assert Bits(word) - {} == Bits(word) && Bits(word) - Bits(word) == {};
  }

  lemma MoveOver(whole: set<nat>, left: set<nat>, x: nat)
    requires left <= whole && x in left
    ensures whole - (left - {x}) == (whole - left) + {x}
  {
  }

  // ----- Contents ----------------------------------------------------------------------------------

  function Elements(s: seq<nat>): set<nat> {
    set x | x in s
  }

  predicate Below(s: set<nat>, bound: nat) {
    forall x :: x in s ==> x < bound
  }

  lemma AppendLargest(bits: seq<nat>, x: nat)
    requires Increasing(bits) && forall y :: y in bits ==> y < x
    ensures Increasing(bits + [x]) && Elements(bits + [x]) == Elements(bits) + {x}
  {
    assert forall i :: 0 <= i < |bits| ==> bits[i] in bits;
  }

  /** Visit a compressed bitmap in ascending order. */
  method Iterate(large: set<nat>) returns (bits: seq<nat>)
    ensures Increasing(bits) && Elements(bits) == large
  {
    bits := [];
    var rest := large;
    while rest != {}
      invariant rest <= large && Elements(bits) == large - rest && Increasing(bits)
      invariant forall x, y :: x in bits && y in rest ==> x < y
      decreases |rest|
    {
      var least := Least(rest);
      AppendLargest(bits, least);
      assert large - (rest - {least}) == (large - rest) + {least};
      bits := bits + [least];
      rest := rest - {least};
    }
  }

  method Least(s: set<nat>) returns (least: nat)
    requires s != {}
    ensures least in s && forall x :: x in s ==> least <= x
  {
    least :| least in s;
    var rest := s - {least};
    while rest != {}
      invariant rest <= s && least in s && forall x :: x in s && x !in rest ==> least <= x
      decreases |rest|
    {
      var x :| x in rest;
      rest := rest - {x};
      if x < least {
        least := x;
      }
    }
  }

  class Contents {
    var large: Option<set<nat>>
    var small: seq<nat>
    var size: nat

    ghost predicate Valid()
      reads this
    {
      && |small| == 2
      && (large.Some? ==> size == 0)
      && size <= 2 && (size == 2 ==> small[0] < small[1])
    }

    /** The set represented. */
    ghost function View(): set<nat>
      reads this
      requires Valid()
    {
      if large.Some? then large.value else Elements(small[..size])
    }

    constructor ()
      ensures Valid() && View() == {}
    {
      large, small, size := None, [0, 0], 0;
    }

    /** A value copy: the copy's compressed bitmap is its own. */
    constructor Clone(c: Contents)
      requires c.Valid()
      ensures Valid() && View() == c.View()
    {
      large, small, size := c.large, c.small, c.size;
    }

    method Contains(bit: nat) returns (found: bool)
      requires Valid()
      ensures found == (bit in View())
    {
      if large.Some? {
        return bit in large.value;
      }
      found := false;
      for i := 0 to size
        invariant found == (bit in small[..i])
      {
        assert small[..i + 1] == small[..i] + [small[i]];
        if small[i] == bit {
          found := true;
        }
      }
    }

    method Count() returns (n: nat)
      requires Valid()
      ensures n == |View()|
    {
      if large.Some? {
        return |large.value|;
      }
      n := size;
      CountSmall(small, size);
    }

    /** Whether every bit is below a bound. */
    method Within(bitCount: nat) returns (ok: bool)
      requires Valid()
      ensures ok == Below(View(), bitCount)
    {
      if large.Some? {
        return Below(large.value, bitCount);
      }
      ok := size == 0 || small[size - 1] < bitCount;
      SmallView(small, size);
      if !ok {
        assert small[size - 1] in View();
      }
    }

    method Promote()
      requires Valid()
      modifies this
      ensures Valid() && View() == old(View()) && large.Some?
    {
      if large.None? {
        large, small, size := Some(set x | x in small[..size]), [0, 0], 0;
      }
    }

    method Add(bit: nat) returns (added: bool)
      requires Valid()
      modifies this
      ensures Valid() && View() == old(View()) + {bit} && added == (bit !in old(View()))
    {
      if large.Some? {
        added := bit !in large.value;
        large := Some(large.value + {bit});
        return;
      }
      var present := Contains(bit);
      if present {
        return false;
      }
      if size == 2 {
        Promote();
        large := Some(large.value + {bit});
        return true;
      }
      SmallView(small, size);
      var pos := size;
      var shifted := small;
      if pos > 0 && small[pos - 1] > bit {
        shifted := shifted[pos := shifted[pos - 1]];
        pos := pos - 1;
      }
      small := shifted[pos := bit];
      size := size + 1;
      SmallView(small, size);
      added := true;
    }

    method Remove(bit: nat) returns (removed: bool)
      requires Valid()
      modifies this
      ensures Valid() && View() == old(View()) - {bit} && removed == (bit in old(View()))
      ensures large.Some? == old(large.Some?)
    {
      if large.Some? {
        removed := bit in large.value;
        large := Some(large.value - {bit});
        return;
      }
      SmallView(small, size);
      removed := false;
      if size > 0 && small[0] == bit {
        small := [if size == 2 then small[1] else 0, 0];
        size := size - 1;
        removed := true;
      } else if size > 1 && small[1] == bit {
        small := [small[0], 0];
        size := size - 1;
        removed := true;
      }
      SmallView(small, size);
    }

    /** The bits in ascending order. */
    method Range() returns (bits: seq<nat>)
      requires Valid()
      ensures Increasing(bits) && Elements(bits) == View()
    {
      if large.None? {
        bits := small[..size];
      } else {
        bits := Iterate(large.value);
      }
    }

    method Or(other: Contents)
      requires Valid() && other.Valid() && other != this
      modifies this
      ensures Valid() && View() == old(View()) + other.View()
    {
      if other.large.None? {
        for i := 0 to other.size
          invariant Valid() && other.Valid() && other.large.None? && other.size == old(other.size) && other.small == old(other.small)
          invariant View() == old(View()) + Elements(other.small[..i])
        {
          assert other.small[..i + 1] == other.small[..i] + [other.small[i]];
          var _ := Add(other.small[i]);
        }
        return;
      }
      if other.large.value == {} {
        return;
      }
      Promote();
      large := Some(large.value + other.large.value);
    }

    /** Keep, of this and another list of inline bits, those the other side contains. */
    method Select(bits: seq<nat>, from: Contents, keep: bool) returns (result: Contents)
      requires from.Valid()
      ensures fresh(result) && result.Valid() && result.View() == set x | x in bits && (x in from.View()) == keep
    {
      result := new Contents();
      for i := 0 to |bits|
        invariant fresh(result) && result.Valid() && from.Valid()
        invariant result.View() == set x | x in bits[..i] && (x in from.View()) == keep
      {
        assert bits[..i + 1] == bits[..i] + [bits[i]];
        var found := from.Contains(bits[i]);
        if found == keep {
          var _ := result.Add(bits[i]);
        }
      }
      assert bits[..|bits|] == bits;
    }

    method Assign(c: Contents)
      requires c.Valid()
      modifies this
      ensures Valid() && View() == old(c.View())
    {
      large, small, size := c.large, c.small, c.size;
    }

    method And(other: Contents)
      requires Valid() && other.Valid() && other != this
      modifies this
      ensures Valid() && View() == old(View()) * other.View()
    {
      if large.Some? && other.large.Some? {
        large := Some(large.value * other.large.value);
        return;
      }
      var result;
      if large.None? {
        result := Select(small[..size], other, true);
      } else {
        result := Select(other.small[..other.size], this, true);
      }
      Assign(result);
    }

    method AndNot(other: Contents)
      requires Valid() && other.Valid() && other != this
      modifies this
      ensures Valid() && View() == old(View()) - other.View()
    {
      if large.Some? && other.large.Some? {
        large := Some(large.value - other.large.value);
        return;
      }
      if other.large.None? {
        for i := 0 to other.size
          invariant Valid() && other.Valid() && other.large.None? && other.size == old(other.size) && other.small == old(other.small)
          invariant View() == old(View()) - Elements(other.small[..i])
        {
          assert other.small[..i + 1] == other.small[..i] + [other.small[i]];
          var _ := Remove(other.small[i]);
        }
        return;
      }
      var result := Select(small[..size], other, false);
      Assign(result);
    }
  }

  lemma SmallView(small: seq<nat>, size: nat)
    requires |small| == 2 && size <= 2
    ensures size == 0 ==> Elements(small[..size]) == {}
    ensures size == 1 ==> Elements(small[..size]) == {small[0]}
    ensures size == 2 ==> Elements(small[..size]) == {small[0], small[1]}
  {
    if size == 1 {
      assert small[..1] == [small[0]];
    } else if size == 2 {
      assert small[..2] == [small[0], small[1]];
    }
  }

  lemma CountSmall(small: seq<nat>, size: nat)
    requires |small| == 2 && size <= 2 && (size == 2 ==> small[0] < small[1])
    ensures |Elements(small[..size])| == size
  {
    SmallView(small, size);
  }

  // ----- Bitmaps -------------------------------------------------------------------------------------

  /** Words addressable by 64-bit positions. */
  const MAX_WORDS := 0x400_0000_0000_0000

  function WordsFor(bitCount: nat): nat {
    (bitCount + 63) / 64
  }

  /** What a dense copy says: bit by bit the set, and nothing past the words. */
  ghost predicate Copies(words: seq<nat>, s: set<nat>) {
    && (forall i :: 0 <= i < |words| ==> IsWord(words[i]))
    && (forall bit: nat :: bit in s <==> bit / 64 < |words| && bit % 64 in Bits(words[bit / 64]))
  }

  /** Reading a dense copy back gives the set. */
  lemma CopyRebuilds(words: seq<nat>, s: set<nat>)
    requires Copies(words, s)
    ensures Dense(words, 0) == s
  {
    forall bit: nat ensures bit in Dense(words, 0) <==> bit in s {
      DenseBits(words, 0, bit);
    }
  }

  class Bitmap {
    var contents: Contents
    var logicalWords: nat

    ghost predicate Valid()
      reads this, contents
    {
      contents.Valid() && Below(contents.View(), 64 * logicalWords)
    }

    ghost function View(): set<nat>
      reads this, contents
      requires Valid()
    {
      contents.View()
    }

    constructor (bitCount: nat)
      ensures Valid() && fresh(contents) && View() == {} && logicalWords == WordsFor(bitCount)
    {
      contents := new Contents();
      logicalWords := WordsFor(bitCount);
    }

    method Set(bit: nat) returns (added: bool)
      requires Valid()
      modifies this`logicalWords, contents
      ensures Valid() && View() == old(View()) + {bit} && added == (bit !in old(View()))
      ensures logicalWords == Max(old(logicalWords), bit / 64 + 1)
    {
      logicalWords := Max(logicalWords, bit / 64 + 1);
      added := contents.Add(bit);
    }

    method Clear(bit: nat) returns (removed: bool)
      requires Valid()
      modifies contents
      ensures Valid() && View() == old(View()) - {bit} && removed == (bit in old(View()))
    {
      removed := contents.Remove(bit);
    }

    method Or(other: Bitmap?)
      requires Valid() && (other != null && other != this ==> other.Valid() && other.contents != contents)
      modifies this`logicalWords, contents
      ensures Valid() && View() == old(View()) + if other == null then {} else old(other.View())
      ensures logicalWords == if other == null then old(logicalWords) else Max(old(logicalWords), old(other.logicalWords))
    {
      if other == null || other == this {
        return;
      }
      var copy := new Contents.Clone(other.contents);
      contents.Or(copy);
      logicalWords := Max(logicalWords, other.logicalWords);
    }

    method And(other: Bitmap?)
      requires Valid() && (other != null && other != this ==> other.Valid() && other.contents != contents)
      modifies contents
      ensures Valid() && View() == old(View()) * if other == null then {} else old(other.View())
    {
      if other == this {
        return;
      }
      var copy := new Contents();
      if other != null {
        copy := new Contents.Clone(other.contents);
      }
      contents.And(copy);
    }

    method AndNot(other: Bitmap?)
      requires Valid() && (other != null && other != this ==> other.Valid() && other.contents != contents)
      modifies contents
      ensures Valid() && View() == old(View()) - if other == null then {} else old(other.View())
    {
      if other == null {
        return;
      }
      if other == this {
        var empty := new Contents();
        contents.Assign(empty);
        return;
      }
      var copy := new Contents.Clone(other.contents);
      contents.AndNot(copy);
    }

    /** Add the bits of one word at a base position, lowest first. */
    method AddWord(word: nat, base: nat)
      requires contents.Valid()
      modifies contents
      ensures contents.Valid() && contents.View() == old(contents.View()) + At(base, Bits(word))
    {
      WordEnds(word, base);
      hide Bits, TrailingZeros, ClearLowest, At;
      var rest := word;
      while rest != 0
        invariant contents.Valid() && Bits(rest) <= Bits(word)
        invariant contents.View() == old(contents.View()) + At(base, Bits(word) - Bits(rest))
        decreases rest
      {
        var bit := TrailingZeros(rest);
        WordStep(word, rest, base);
        var _ := contents.Add(base + bit);
        rest := ClearLowest(rest);
      }
    }

    /** Append dense words after the logical end; too many to address panics and changes nothing. */
    method AppendWords(words: seq<nat>) returns (panics: bool)
      requires Valid() && forall i :: 0 <= i < |words| ==> IsWord(words[i])
      modifies this`logicalWords, contents
      ensures Valid() && panics == (old(logicalWords) + |words| > MAX_WORDS)
      ensures View() == old(View()) + if panics then {} else Dense(words, old(logicalWords))
      ensures logicalWords == old(logicalWords) + if panics then 0 else |words|
    {
      if logicalWords + |words| > MAX_WORDS {
        return true;
      }
      for offset := 0 to |words|
        invariant logicalWords == old(logicalWords)
        invariant contents.Valid() && contents.View() == old(View()) + Dense(words[..offset], logicalWords)
      {
        hide Bits, At;
        assert words[..offset + 1][..offset] == words[..offset];
        AddWord(words[offset], (logicalWords + offset) * 64);
      }
      assert words[..|words|] == words;
      forall bit | bit in contents.View() ensures bit < 64 * (logicalWords + |words|) {
        if bit in Dense(words, logicalWords) {
          DenseBits(words, logicalWords, bit);
        }
      }
      logicalWords := logicalWords + |words|;
      panics := false;
    }

    method SnapshotWords(wordCount: nat) returns (words: seq<nat>)
      requires Valid() && Below(View(), 64 * wordCount)
      ensures |words| == wordCount && Copies(words, View())
    {
      words := seq(wordCount, i => 0);
      var bits := contents.Range();
      for k := 0 to |bits|
        invariant |words| == wordCount && Copies(words, Elements(bits[..k]))
      {
        hide Bits, SetBit;
        assert bits[k] in View();
        assert bits[..k + 1] == bits[..k] + [bits[k]];
        CopyNext(words, Elements(bits[..k]), bits[k]);
        assert Elements(bits[..k + 1]) == Elements(bits[..k]) + {bits[k]};
        words := words[bits[k] / 64 := SetBit(words[bits[k] / 64], bits[k] % 64)];
      }
      assert bits[..|bits|] == bits;
    }

    /** A dense copy with the logical capacity. */
    method Snapshot() returns (words: seq<nat>)
      requires Valid()
      ensures |words| == logicalWords && Copies(words, View())
    {
      words := SnapshotWords(logicalWords);
    }

    /** A dense copy cut at a bound, when every bit is below it. */
    method SnapshotWithin(bitCount: nat) returns (words: seq<nat>, ok: bool)
      requires Valid()
      ensures ok == Below(View(), bitCount)
      ensures ok ==> |words| == (if logicalWords < WordsFor(bitCount) then logicalWords else WordsFor(bitCount)) && Copies(words, View())
    {
      ok := contents.Within(bitCount);
      words := [];
      if ok {
        words := SnapshotWords(if logicalWords < WordsFor(bitCount) then logicalWords else WordsFor(bitCount));
      }
    }
  }

  lemma CopyNext(words: seq<nat>, s: set<nat>, bit: nat)
    requires Copies(words, s) && bit / 64 < |words|
    ensures Copies(words[bit / 64 := SetBit(words[bit / 64], bit % 64)], s + {bit})
  {
    hide Bits, SetBit;
    var next := words[bit / 64 := SetBit(words[bit / 64], bit % 64)];
    BitSet(words[bit / 64], bit % 64);
    forall other: nat ensures other in s + {bit} <==> other / 64 < |next| && other % 64 in Bits(next[other / 64]) {
      if other / 64 == bit / 64 && other % 64 == bit % 64 {
        assert other == bit;
      }
    }
  }

  /** A dense copy appended to an empty bitmap rebuilds the bitmap, capacity included. */
  method RebuildFromSnapshot(b: Bitmap) returns (r: Bitmap)
    requires b.Valid() && b.logicalWords <= MAX_WORDS
    ensures r.Valid() && r.View() == b.View() && r.logicalWords == b.logicalWords && fresh(r)
  {
    var words := b.Snapshot();
    r := new Bitmap(0);
    var panics := r.AppendWords(words);
    CopyRebuilds(words, b.View());
  }
}
