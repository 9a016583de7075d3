/** The cutters: input ranges between separators, ASCII tokens, the tagger for the rest, and the mixed
    cutter. Whatever they do, their words spell the text. */
module Cutting {
  import opened Keys
  import opened Texts
  import opened Jieba
  import opened Tagging

  // ----- Decoding -------------------------------------------------------------------------------

  datatype Rune = Rune(value: nat, start: nat, end: nat)

  datatype Decoded = Malformed | Runes(runes: seq<Rune>)

  /** Length of the encoding a lead byte announces, 0 when the text is too short for it. */
  function SizeAt(text: Bytes, index: nat): (size: nat)
    requires index < |text|
    ensures index + size <= |text|
  {
    var lead := text[index] as int;
    if lead < 0x80 then 1
    else if lead <= 0xdf && index + 1 < |text| then 2
    else if lead <= 0xef && index + 2 < |text| then 3
    else if lead <= 0xf7 && index + 3 < |text| then 4
    else 0
  }

  /** Payload bits of the encoding; continuation bytes are not checked. */
  function ValueAt(text: Bytes, index: nat): nat
    requires index < |text| && SizeAt(text, index) > 0
  {
    var size := SizeAt(text, index);
    var lead := text[index] as int;
    if size == 1 then lead
    else if size == 2 then lead % 0x20 * 0x40 + text[index + 1] as int % 0x40
    else if size == 3 then lead % 0x10 * 0x1000 + text[index + 1] as int % 0x40 * 0x40 + text[index + 2] as int % 0x40
    else lead % 8 * 0x40000 + text[index + 1] as int % 0x40 * 0x1000 + text[index + 2] as int % 0x40 * 0x40 + text[index + 3] as int % 0x40
  }

  /** Runes from `index` on; one undecodable position spoils the text. */
  function DecodeFrom(text: Bytes, index: nat): Decoded
    requires index <= |text|
    decreases |text| - index
  {
    if index == |text| then Runes([])
    else
      var size := SizeAt(text, index);
      if size == 0 then Malformed
      else
        match DecodeFrom(text, index + size)
        case Malformed => Malformed
        case Runes(rest) => Runes([Rune(ValueAt(text, index), index, index + size)] + rest)
  }

  /** Runes cover the bytes from `start` to `end` without gap or overlap, each at least one byte. */
  ghost predicate RunesTile(runes: seq<Rune>, start: nat, end: nat)
    decreases |runes|
  {
    if runes == [] then start == end
    else runes[0].start == start < runes[0].end <= end && RunesTile(runes[1..], runes[0].end, end)
  }

  lemma {:induction false} DecodedTile(text: Bytes, index: nat)
    requires index <= |text|
    ensures DecodeFrom(text, index).Runes? ==> RunesTile(DecodeFrom(text, index).runes, index, |text|)
    decreases |text| - index
  {
    if index < |text| && SizeAt(text, index) > 0 {
      DecodedTile(text, index + SizeAt(text, index));
    }
  }

  function Prefixed(runes: seq<Rune>, d: Decoded): Decoded {
    match d
    case Malformed => Malformed
    case Runes(rest) => Runes(runes + rest)
  }

  lemma DecodeStep(text: Bytes, index: nat, runes: seq<Rune>)
    requires index < |text|
    ensures SizeAt(text, index) == 0 ==> DecodeFrom(text, index) == Malformed
    ensures SizeAt(text, index) > 0 ==>
      var rune := Rune(ValueAt(text, index), index, index + SizeAt(text, index));
      Prefixed(runes, DecodeFrom(text, index)) == Prefixed(runes + [rune], DecodeFrom(text, index + SizeAt(text, index)))
  {
    hide ValueAt;
    var size := SizeAt(text, index);
    if size > 0 {
      var rune, rest := Rune(ValueAt(text, index), index, index + size), DecodeFrom(text, index + size);
      if rest.Runes? {
        assert runes + ([rune] + rest.runes) == (runes + [rune]) + rest.runes;
      }
    }
  }

  lemma DecodeEnds(text: Bytes, runes: seq<Rune>)
    ensures Prefixed(runes, DecodeFrom(text, |text|)) == Runes(runes)
    ensures Prefixed([], DecodeFrom(text, 0)) == DecodeFrom(text, 0)
  {
    assert runes + [] == runes;
    if DecodeFrom(text, 0).Runes? {
      assert [] + DecodeFrom(text, 0).runes == DecodeFrom(text, 0).runes;
    }
  }

  method Decode(text: Bytes) returns (r: Decoded)
    ensures r == DecodeFrom(text, 0)
  {
    hide ValueAt, DecodeFrom, SizeAt;
    var runes: seq<Rune> := [];
    var index := 0;
    DecodeEnds(text, runes);
    while index < |text|
      invariant index <= |text|
      invariant DecodeFrom(text, 0) == Prefixed(runes, DecodeFrom(text, index))
      decreases |text| - index
    {
      DecodeStep(text, index, runes);
      var size := SizeAt(text, index);
      if size == 0 {
        return Malformed;
      }
      runes := runes + [Rune(ValueAt(text, index), index, index + size)];
      index := index + size;
    }
    DecodeEnds(text, runes);
    r := Runes(runes);
  }

  lemma RuneDecodes(front: Bytes, r: nat, rest: Bytes)
    requires Scalar(r)
    ensures var text := front + (EncodeRune(r) + rest);
      SizeAt(text, |front|) == |EncodeRune(r)| && ValueAt(text, |front|) == r
  {
    var s := EncodeRune(r);
    var text, index := front + (s + rest), |front|;
    assert forall i :: 0 <= i < |s| ==> text[index + i] == s[i];
    assert text[index] == s[0];
    SizeIs(text, index, r);
    ValueIs(text, index, r);
    hide EncodeRune, SizeAt, ValueAt, Scalar;
  }

  /** The encoding of the value stands at the index. */
  ghost predicate EncodedAt(text: Bytes, index: nat, r: nat) {
    Scalar(r) && index + |EncodeRune(r)| <= |text| && forall i :: 0 <= i < |EncodeRune(r)| ==> text[index + i] == EncodeRune(r)[i]
  }

  lemma SizeIs(text: Bytes, index: nat, r: nat)
    requires EncodedAt(text, index, r)
    ensures index < |text| && SizeAt(text, index) == |EncodeRune(r)|
  {
    assert text[index + 0] == EncodeRune(r)[0];
    assert r < 0x800 ==> r / 0x40 < 0x20;
    assert r < 0x1_0000 ==> r / 0x1000 < 0x10;
    assert r < 0x11_0000 ==> r / 0x4_0000 <= 4;
  }

  lemma ValueIs(text: Bytes, index: nat, r: nat)
    requires EncodedAt(text, index, r) && index < |text| && SizeAt(text, index) == |EncodeRune(r)|
    ensures ValueAt(text, index) == r
  {
    var s := EncodeRune(r);
    assert text[index + 0] == s[0];
    hide EncodeRune, ValueAt;
    EncodingParts(r);
    if |s| == 4 {
      assert text[index + 1] == s[1] && text[index + 2] == s[2] && text[index + 3] == s[3];
      FourBytes(text, index, r);
    } else if |s| == 3 {
      assert text[index + 1] == s[1] && text[index + 2] == s[2];
      ThreeBytes(text, index, r);
    } else if |s| == 2 {
      assert text[index + 1] == s[1];
      TwoBytes(text, index, r);
    } else {
      OneByte(text, index);
    }
  }

  lemma OneByte(text: Bytes, index: nat)
    requires index < |text| && SizeAt(text, index) == 1
    ensures ValueAt(text, index) == text[index]
  {
  }

  lemma TwoBytes(text: Bytes, index: nat, r: nat)
    requires index + 1 < |text| && SizeAt(text, index) == 2 && r / 0x40 < 0x20
    requires text[index] == 0xC0 + r / 0x40 && text[index + 1] == 0x80 + r % 0x40
    ensures ValueAt(text, index) == r
  {
    hide SizeAt;
    Lead(r / 0x40, 0, 0);
    Tail(r % 0x40);
  }

  lemma ThreeBytes(text: Bytes, index: nat, r: nat)
    requires index + 2 < |text| && SizeAt(text, index) == 3 && r / 0x1000 < 0x10
    requires text[index] == 0xE0 + r / 0x1000 && text[index + 1] == 0x80 + r / 0x40 % 0x40 && text[index + 2] == 0x80 + r % 0x40
    ensures ValueAt(text, index) == r
  {
    hide SizeAt;
    Lead(0, r / 0x1000, 0);
    Tail(r / 0x40 % 0x40);
    Tail(r % 0x40);
    Base64(r);
  }

  lemma FourBytes(text: Bytes, index: nat, r: nat)
    requires index + 3 < |text| && SizeAt(text, index) == 4 && r / 0x4_0000 < 8
    requires text[index] == 0xF0 + r / 0x4_0000 && text[index + 1] == 0x80 + r / 0x1000 % 0x40
    requires text[index + 2] == 0x80 + r / 0x40 % 0x40 && text[index + 3] == 0x80 + r % 0x40
    ensures ValueAt(text, index) == r
  {
    hide SizeAt;
    Lead(0, 0, r / 0x4_0000);
    Tail(r / 0x1000 % 0x40);
    Tail(r / 0x40 % 0x40);
    Tail(r % 0x40);
    Base64(r);
  }

  lemma EncodingParts(r: nat)
    requires Scalar(r)
    ensures var s := EncodeRune(r);
      && |s| <= 4
      && (|s| == 1 ==> r < 0x80 && s[0] == r)
      && (|s| == 2 ==> r / 0x40 < 0x20 && s[0] == 0xC0 + r / 0x40 && s[1] == 0x80 + r % 0x40)
      && (|s| == 3 ==> r / 0x1000 < 0x10 && s[0] == 0xE0 + r / 0x1000 && s[1] == 0x80 + r / 0x40 % 0x40 && s[2] == 0x80 + r % 0x40)
      && (|s| == 4 ==> r / 0x4_0000 < 8 && s[0] == 0xF0 + r / 0x4_0000)
      && (|s| == 4 ==> s[1] == 0x80 + r / 0x1000 % 0x40 && s[2] == 0x80 + r / 0x40 % 0x40 && s[3] == 0x80 + r % 0x40)
  {
  }

  lemma Lead(a: nat, b: nat, c: nat)
    ensures a < 0x20 ==> (0xC0 + a) % 0x20 == a
    ensures b < 0x10 ==> (0xE0 + b) % 0x10 == b
    ensures c < 8 ==> (0xF0 + c) % 8 == c
  {
  }

  lemma Tail(n: nat)
    requires n < 0x40
    ensures (0x80 + n) % 0x40 == n
  {
  }

  lemma Base64(r: nat)
    ensures r == r / 0x40 * 0x40 + r % 0x40
    ensures r == r / 0x1000 * 0x1000 + r / 0x40 % 0x40 * 0x40 + r % 0x40
    ensures r == r / 0x4_0000 * 0x4_0000 + r / 0x1000 % 0x40 * 0x1000 + r / 0x40 % 0x40 * 0x40 + r % 0x40
  {
    Digits(r);
    var q := r / 0x40;
    var p := q / 0x40;
    assert r == q * 0x40 + r % 0x40 && q == p * 0x40 + q % 0x40 && p == p / 0x40 * 0x40 + p % 0x40;
  }

  /** The text of scalar values decodes to them, one rune each. */
  lemma {:induction false} DecodeEncoded(front: Bytes, values: seq<nat>)
    requires AllScalar(values)
    ensures var d := DecodeFrom(front + EncodeAll(values), |front|);
      d.Runes? && |d.runes| == |values| && forall i :: 0 <= i < |values| ==> d.runes[i].value == values[i]
    decreases |values|
  {
    hide SizeAt, ValueAt, EncodeRune, Scalar;
    if values == [] {
      assert front + EncodeAll(values) == front;
    } else {
      var s, rest := EncodeRune(values[0]), EncodeAll(values[1..]);
      RuneDecodes(front, values[0], rest);
      DecodeEncoded(front + s, values[1..]);
      assert front + EncodeAll(values) == front + (s + rest) == (front + s) + rest;
    }
  }

  // ----- Input ranges -----------------------------------------------------------------------------

  predicate Separator(value: nat) {
    value == 0x20 || value == 0x09 || value == 0x0a || value == 0xff0c || value == 0x3002
  }

  /** A separator alone, or a whole stretch between separators. */
  ghost predicate InputRange(values: seq<nat>, start: nat, end: nat) {
    && start < end <= |values|
    && if Separator(values[start]) then end == start + 1
       else
         && (forall i :: start <= i < end ==> !Separator(values[i]))
         && (start == 0 || Separator(values[start - 1])) && (end == |values| || Separator(values[end]))
  }

  lemma TilesAppend(words: seq<WordRange>, start: nat, w: WordRange)
    requires Tiles(words, start, w.start) && w.start <= w.end
    ensures Tiles(words + [w], start, w.end + 1)
  {
    assert (words + [w])[..|words|] == words;
  }

  lemma NoRanges()
    ensures forall start :: Tiles([], start, start)
  {
  }

  /** Ranges that end before a position. */
  ghost predicate Found(values: seq<nat>, r: WordRange, bound: nat) {
    r.start <= r.end < bound && InputRange(values, r.start, r.end + 1)
  }

  /** The ranges are those that end before the position. */
  ghost predicate AllFound(values: seq<nat>, ranges: seq<WordRange>, bound: nat) {
    forall r :: r in ranges <==> Found(values, r, bound)
  }

  lemma AppendStretch(values: seq<nat>, ranges: seq<WordRange>, start: nat, end: nat)
    requires start < end <= |values| && (forall i :: start <= i < end ==> !Separator(values[i])) && AllFound(values, ranges, start)
    requires (start == 0 || Separator(values[start - 1])) && (end == |values| || Separator(values[end]))
    ensures AllFound(values, ranges + [WordRange(start, end - 1)], end)
  {
    StretchFound(values, start, end);
    hide Found, Separator;
    InAppend(ranges, WordRange(start, end - 1));
  }

  lemma AppendSeparator(values: seq<nat>, ranges: seq<WordRange>, index: nat)
    requires index < |values| && Separator(values[index]) && AllFound(values, ranges, index)
    ensures AllFound(values, ranges + [WordRange(index, index)], index + 1)
  {
    SeparatorFound(values, index);
    hide Found, Separator;
    InAppend(ranges, WordRange(index, index));
  }

  lemma NoneFound(values: seq<nat>)
    ensures AllFound(values, [], 0)
  {
  }

  /** A stretch without separators that lies between separators is the only range that ends in it. */
  lemma StretchFound(values: seq<nat>, start: nat, end: nat)
    requires start < end <= |values| && forall i :: start <= i < end ==> !Separator(values[i])
    requires (start == 0 || Separator(values[start - 1])) && (end == |values| || Separator(values[end]))
    ensures forall r :: Found(values, r, end) <==> Found(values, r, start) || r == WordRange(start, end - 1)
  {
    hide Separator;
  }

  lemma SeparatorFound(values: seq<nat>, index: nat)
    requires index < |values| && Separator(values[index])
    ensures forall r :: Found(values, r, index + 1) <==> Found(values, r, index) || r == WordRange(index, index)
  {
    hide Separator;
    forall r | Found(values, r, index + 1) && !Found(values, r, index) ensures r == WordRange(index, index) {
      assert r.end == index && Separator(values[r.end]);
    }
    assert Found(values, WordRange(index, index), index + 1);
  }

  /** Split at separators: each separator alone, the stretches between them whole. */
  method SplitInputRanges(values: seq<nat>) returns (ranges: seq<WordRange>)
    ensures Tiles(ranges, 0, |values|)
    ensures forall r :: r in ranges <==> r.start <= r.end && InputRange(values, r.start, r.end + 1)
  {
    hide Tiles, AllFound, Separator;
    NoRanges();
    NoneFound(values);
    ranges := [];
    var start := 0;
    for index := 0 to |values|
      invariant 0 <= start <= index && Tiles(ranges, 0, start)
      invariant start == 0 || Separator(values[start - 1])
      invariant forall i :: start <= i < index ==> !Separator(values[i])
      invariant AllFound(values, ranges, start)
    {
      if Separator(values[index]) {
        if start < index {
          TilesAppend(ranges, 0, WordRange(start, index - 1));
          AppendStretch(values, ranges, start, index);
          ranges := ranges + [WordRange(start, index - 1)];
        }
        TilesAppend(ranges, 0, WordRange(index, index));
        AppendSeparator(values, ranges, index);
        ranges := ranges + [WordRange(index, index)];
        start := index + 1;
      }
    }
    if start < |values| {
      TilesAppend(ranges, 0, WordRange(start, |values| - 1));
      AppendStretch(values, ranges, start, |values|);
      ranges := ranges + [WordRange(start, |values| - 1)];
    }
    FoundAll(values, ranges);
  }

  lemma InAppend<T>(s: seq<T>, x: T)
    ensures forall y :: y in s + [x] <==> y in s || y == x
  {
  }

  lemma FoundAll(values: seq<nat>, ranges: seq<WordRange>)
    requires AllFound(values, ranges, |values|)
    ensures forall r :: r in ranges <==> r.start <= r.end && InputRange(values, r.start, r.end + 1)
  {
  }

  // ----- ASCII tokens ---------------------------------------------------------------------------------

  predicate Letter(value: nat) {
    0x61 <= value <= 0x7a || 0x41 <= value <= 0x5a
  }

  predicate Digit(value: nat) {
    0x30 <= value <= 0x39
  }

  /** End of the longest run of letters and digits. */
  function RunEnd(values: seq<nat>, index: nat, end: nat): (r: nat)
    requires index <= end <= |values|
    ensures index <= r <= end
    decreases end - index
  {
    if index < end && (Letter(values[index]) || Digit(values[index])) then RunEnd(values, index + 1, end) else index
  }

  function DigitsEnd(values: seq<nat>, index: nat, end: nat): (r: nat)
    requires index <= end <= |values|
    ensures index <= r <= end
    decreases end - index
  {
    if index < end && Digit(values[index]) then DigitsEnd(values, index + 1, end) else index
  }

  /** A token is a run that starts with a letter or digit, with a decimal part when one follows; any
      other rune below 0x80 stands alone. */
  function TokenEnd(values: seq<nat>, start: nat, end: nat): (r: nat)
    requires start < end <= |values|
    ensures start < r <= end
  {
    if Letter(values[start]) || Digit(values[start]) then
      var stop := RunEnd(values, start + 1, end);
      if stop + 1 < end && values[stop] == 0x2e && Digit(values[stop + 1]) then DigitsEnd(values, stop + 1, end) else stop
    else start + 1
  }

  /** Letters and digits of ASCII, by code. */
  predicate Alphanumeric(value: nat) {
    Decimal(value) || 65 <= value <= 90 || 97 <= value <= 122
  }

  predicate Decimal(value: nat) {
    48 <= value < 58
  }

  lemma {:induction false} RunIs(values: seq<nat>, index: nat, end: nat)
    requires index <= end <= |values|
    ensures var r := RunEnd(values, index, end);
      (forall i :: index <= i < r ==> Alphanumeric(values[i])) && (r == end || !Alphanumeric(values[r]))
    decreases end - index
  {
    hide Alphanumeric;
    if index < end {
      AlphanumericIs(values[index]);
      if Letter(values[index]) || Digit(values[index]) {
        RunIs(values, index + 1, end);
      }
    }
  }

  lemma AlphanumericIs(value: nat)
    ensures Alphanumeric(value) <==> Letter(value) || Digit(value)
  {
  }

  lemma {:induction false} DigitsAre(values: seq<nat>, index: nat, end: nat)
    requires index <= end <= |values|
    ensures var r := DigitsEnd(values, index, end);
      (forall i :: index <= i < r ==> Decimal(values[i])) && (r == end || !Decimal(values[r]))
    decreases end - index
  {
    if index < end && Digit(values[index]) {
      DigitsAre(values, index + 1, end);
    }
  }

  /** A token in characters: the longest run of letters and digits, and after it, when a point and a digit
      follow, the point with the longest run of digits. */
  lemma TokenIs(values: seq<nat>, start: nat, end: nat) returns (stop: nat)
    requires start < end <= |values|
    ensures var r := TokenEnd(values, start, end);
      if !Alphanumeric(values[start]) then r == start + 1
      else
        && start < stop <= r && (forall i :: start <= i < stop ==> Alphanumeric(values[i]))
        && (stop == end || !Alphanumeric(values[stop]))
        && (r > stop <==> stop + 1 < end && values[stop] == '.' as int && Decimal(values[stop + 1]))
        && (forall i :: stop < i < r ==> Decimal(values[i]))
        && (r > stop ==> r > stop + 1 && (r == end || !Decimal(values[r])))
  {
    hide Alphanumeric, RunEnd, DigitsEnd;
    AlphanumericIs(values[start]);
    stop := start;
    if Alphanumeric(values[start]) {
      RunIs(values, start + 1, end);
      stop := RunEnd(values, start + 1, end);
      if stop + 1 < end && Digit(values[stop + 1]) {
        DigitsAre(values, stop + 1, end);
        FirstDigit(values, stop + 1, end);
      }
    }
  }

  lemma FirstDigit(values: seq<nat>, index: nat, end: nat)
    requires index < end <= |values| && Digit(values[index])
    ensures DigitsEnd(values, index, end) > index
  {
  }

  method DecimalSuffixEnd(values: seq<nat>, from: nat, end: nat) returns (index: nat)
    requires from <= end <= |values|
    ensures index == if from + 1 < end && values[from] == 0x2e && Digit(values[from + 1]) then DigitsEnd(values, from + 1, end) else from
  {
    index := from;
    if index + 1 < end && values[index] == 0x2e && Digit(values[index + 1]) {
      index := index + 1;
      while index < end && Digit(values[index])
        invariant from < index <= end && DigitsEnd(values, index, end) == DigitsEnd(values, from + 1, end)
      {
        index := index + 1;
      }
    }
  }

  method RunOf(values: seq<nat>, start: nat, end: nat) returns (index: nat)
    requires start < end <= |values|
    ensures start < index <= end && index == RunEnd(values, start + 1, end)
  {
    index := start + 1;
    while index < end && (Letter(values[index]) || Digit(values[index]))
      invariant start < index <= end && RunEnd(values, index, end) == RunEnd(values, start + 1, end)
    {
      index := index + 1;
    }
  }

  method SequentialLetterEnd(values: seq<nat>, start: nat, end: nat) returns (r: nat)
    requires start < end <= |values|
    ensures r == if Letter(values[start]) then TokenEnd(values, start, end) else start
  {
    if !Letter(values[start]) {
      return start;
    }
    var index := RunOf(values, start, end);
    r := DecimalSuffixEnd(values, index, end);
  }

  method NumberEnd(values: seq<nat>, start: nat, end: nat) returns (r: nat)
    requires start < end <= |values|
    ensures r == if Digit(values[start]) then TokenEnd(values, start, end) else start
  {
    if !Digit(values[start]) {
      return start;
    }
    var index := RunOf(values, start, end);
    r := DecimalSuffixEnd(values, index, end);
  }

  // ----- The tagging cutter --------------------------------------------------------------------------------

  /** A word that starts below 0x80 is the whole token there. */
  ghost predicate TokenOK(values: seq<nat>, end: nat, w: WordRange) {
    w.start < end <= |values| && (values[w.start] < 0x80 ==> w.end + 1 == TokenEnd(values, w.start, end))
  }

  /** A whole stretch of runes from 0x80 on within a range. */
  ghost predicate Stretch(values: seq<nat>, start: nat, end: nat, a: nat, b: nat) {
    && start <= a < b <= end <= |values|
    && (forall i :: a <= i < b ==> values[i] >= 0x80)
    && (a == start || values[a - 1] < 0x80) && (b == end || values[b] < 0x80)
  }

  /** The words of a stretch are those of a tagging of it. */
  ghost predicate StretchTagged(m: Model, values: seq<nat>, words: seq<WordRange>, a: nat, b: nat)
    requires ModelOK(m) && a <= b <= |values|
  {
    exists tags :: |tags| == b - a && Tagged(m, MIN_DOUBLE, values[a..b], tags) && CutAt(words, a, tags)
  }

  /** How the tagging cutter cuts a range: tokens whole, stretches by their tags. */
  ghost predicate HMMCut(m: Model, values: seq<nat>, words: seq<WordRange>, start: nat, end: nat)
    requires ModelOK(m)
  {
    && end <= |values| && Tiles(words, start, end)
    && (forall w :: w in words ==> TokenOK(values, end, w))
    && forall a: nat, b: nat :: Stretch(values, start, end, a, b) ==> StretchTagged(m, values, words, a, b)
  }

  /** Words that end later leave a stretch as it was cut. */
  lemma StretchKept(m: Model, values: seq<nat>, words: seq<WordRange>, more: seq<WordRange>, a: nat, b: nat)
    requires ModelOK(m) && a <= b <= |values| && StretchTagged(m, values, words, a, b)
    requires forall w :: w in more ==> b <= w.end
    ensures StretchTagged(m, values, words + more, a, b)
  {
    hide Tagged;
    var tags :| |tags| == b - a && Tagged(m, MIN_DOUBLE, values[a..b], tags) && CutAt(words, a, tags);
    forall e: nat | a <= e < b ensures EndsAt(words + more, e) <==> EndsAt(words, e) {
      if EndsAt(words, e) {
        var w :| w in words && w.end == e;
        assert w in words + more;
      }
    }
    hide EndsAt;
    assert CutAt(words + more, a, tags);
  }

  /** Words that end before a stretch do not touch it. */
  lemma StretchAdded(m: Model, values: seq<nat>, words: seq<WordRange>, cut: seq<WordRange>, a: nat, b: nat, tags: seq<nat>)
    requires ModelOK(m) && a <= b <= |values| && |tags| == b - a
    requires Tagged(m, MIN_DOUBLE, values[a..b], tags) && CutAt(cut, a, tags)
    requires forall w :: w in words ==> w.end < a
    ensures StretchTagged(m, values, words + cut, a, b)
  {
    hide Tagged;
    forall e: nat | a <= e < b ensures EndsAt(words + cut, e) <==> EndsAt(cut, e) {
      if EndsAt(cut, e) {
        var w :| w in cut && w.end == e;
        assert w in words + cut;
      }
    }
    hide EndsAt;
    assert CutAt(words + cut, a, tags);
  }

  /** What holds of the words that tile the range up to `left`. */
  ghost predicate CutUpTo(m: Model, values: seq<nat>, words: seq<WordRange>, start: nat, end: nat, left: nat)
    requires ModelOK(m)
  {
    && start <= left <= end <= |values| && Tiles(words, start, left)
    && (forall w :: w in words ==> TokenOK(values, end, w))
    && forall a: nat, b: nat :: Stretch(values, start, end, a, b) && b <= left ==> StretchTagged(m, values, words, a, b)
  }

  /** Tagging the whole stretch from `left` to `right`. */
  lemma TagStretch(m: Model, values: seq<nat>, words: seq<WordRange>, cut: seq<WordRange>, tags: seq<nat>, start: nat, end: nat,
                   left: nat, right: nat)
    requires ModelOK(m) && CutUpTo(m, values, words, start, end, left) && Stretch(values, start, end, left, right)
    requires Tiles(cut, left, right) && |tags| == right - left
    requires Tagged(m, MIN_DOUBLE, values[left..right], tags) && CutAt(cut, left, tags)
    ensures CutUpTo(m, values, words + cut, start, end, right)
  {
    hide Tiles, Tagged, CutAt, StretchTagged;
    TilesConcat(words, cut, start, left, right);
    TilesWithin(words, start, left);
    TilesWithin(cut, left, right);
    forall a: nat, b: nat | Stretch(values, start, end, a, b) && b <= right ensures StretchTagged(m, values, words + cut, a, b) {
      if b <= left {
        StretchKept(m, values, words, cut, a, b);
      } else {
        assert a == left && b == right by { OneStretch(values, start, end, left, right, a, b); }
        StretchAdded(m, values, words, cut, left, right, tags);
      }
    }
  }

  lemma OneStretch(values: seq<nat>, start: nat, end: nat, left: nat, right: nat, a: nat, b: nat)
    requires Stretch(values, start, end, left, right) && Stretch(values, start, end, a, b) && left < b <= right
    ensures a == left && b == right
  {
  }

  /** Adding a token leaves the stretches before it. */
  lemma AddToken(m: Model, values: seq<nat>, words: seq<WordRange>, start: nat, end: nat, left: nat, next: nat)
    requires ModelOK(m) && CutUpTo(m, values, words, start, end, left) && left < end && values[left] < 0x80
    requires next == TokenEnd(values, left, end)
    ensures CutUpTo(m, values, words + [WordRange(left, next - 1)], start, end, next)
    ensures values[next - 1] < 0x80
  {
    hide Tiles, StretchTagged, TokenEnd;
    TokenASCII(values, left, end);
    TilesAppend(words, start, WordRange(left, next - 1));
    forall a: nat, b: nat | Stretch(values, start, end, a, b) && b <= next
      ensures StretchTagged(m, values, words + [WordRange(left, next - 1)], a, b)
    {
      assert values[b - 1] >= 0x80;
      assert b <= left;
      StretchKept(m, values, words, [WordRange(left, next - 1)], a, b);
    }
  }

  lemma {:induction false} RunASCII(values: seq<nat>, index: nat, end: nat)
    requires index <= end <= |values|
    ensures forall i :: index <= i < RunEnd(values, index, end) ==> Letter(values[i]) || Digit(values[i])
    ensures var r := RunEnd(values, index, end); r < end ==> !Letter(values[r]) && !Digit(values[r])
    decreases end - index
  {
    if index < end && (Letter(values[index]) || Digit(values[index])) {
      RunASCII(values, index + 1, end);
    }
  }

  lemma {:induction false} DigitsASCII(values: seq<nat>, index: nat, end: nat)
    requires index <= end <= |values|
    ensures forall i :: index <= i < DigitsEnd(values, index, end) ==> Digit(values[i])
    ensures var r := DigitsEnd(values, index, end); r < end ==> !Digit(values[r])
    decreases end - index
  {
    if index < end && Digit(values[index]) {
      DigitsASCII(values, index + 1, end);
    }
  }

  lemma TokenASCII(values: seq<nat>, start: nat, end: nat)
    requires start < end <= |values| && values[start] < 0x80
    ensures forall i :: start <= i < TokenEnd(values, start, end) ==> values[i] < 0x80
  {
    hide RunEnd, DigitsEnd;
    RunASCII(values, start + 1, end);
    var stop := RunEnd(values, start + 1, end);
    if stop + 1 < end {
      DigitsASCII(values, stop + 1, end);
    }
  }

  /** ASCII stretches become tokens, the stretches between them are tagged. */
  method CutHMM(m: Model, values: seq<nat>, start: nat, end: nat) returns (words: seq<WordRange>)
    requires ModelOK(m) && start <= end <= |values|
    ensures HMMCut(m, values, words, start, end)
  {
    hide Tiles, TokenEnd, RunEnd, DigitsEnd, ModelOK, CutUpTo, Tagged, CutAt, StretchTagged;
    words := [];
    NothingCut(m, values, start, end);
    var left, right := start, start;
    while right < end
      invariant start <= left <= right <= end && CutUpTo(m, values, words, start, end, left)
      invariant left == start || values[left - 1] < 0x80
      invariant forall i :: left <= i < right ==> values[i] >= 0x80
      decreases end - right
    {
      if values[right] >= 0x80 {
        right := right + 1;
        continue;
      }
      if left != right {
        var cut, tags := CutHMMInternal(m, MIN_DOUBLE, values, left, right);
        TagStretch(m, values, words, cut, tags, start, end, left, right);
        words := words + cut;
      }
      left := right;
      var next := SequentialLetterEnd(values, left, end);
      if next == left {
        next := NumberEnd(values, left, end);
      }
      if next == left {
        next := next + 1;
      }
      LoneToken(values, left, end);
      AddToken(m, values, words, start, end, left, next);
      words := words + [WordRange(left, next - 1)];
      left := next;
      right := next;
    }
    if left != end {
      var cut, tags := CutHMMInternal(m, MIN_DOUBLE, values, left, end);
      TagStretch(m, values, words, cut, tags, start, end, left, end);
      words := words + cut;
    }
    AllCut(m, values, words, start, end);
  }

  lemma NothingCut(m: Model, values: seq<nat>, start: nat, end: nat)
    requires ModelOK(m) && start <= end <= |values|
    ensures CutUpTo(m, values, [], start, end, start)
  {
    NoRanges();
  }

  lemma AllCut(m: Model, values: seq<nat>, words: seq<WordRange>, start: nat, end: nat)
    requires ModelOK(m) && CutUpTo(m, values, words, start, end, end)
    ensures HMMCut(m, values, words, start, end)
  {
    hide Tiles, StretchTagged, TokenOK;
  }

  lemma LoneToken(values: seq<nat>, start: nat, end: nat)
    requires start < end <= |values|
    ensures !Letter(values[start]) && !Digit(values[start]) ==> TokenEnd(values, start, end) == start + 1
  {
  }

  // ----- The mixed cutter ------------------------------------------------------------------------------------

  /** Longer words and single runes from a user dictionary are left as they are. */
  predicate Kept(d: Words, values: seq<nat>, w: WordRange) {
    w.start != w.end || (w.start < |values| && values[w.start] in d.userSingles)
  }

  lemma {:induction false} TilesPrefix(words: seq<WordRange>, start: nat, end: nat, k: nat)
    requires Tiles(words, start, end) && k < |words|
    ensures Tiles(words[..k], start, words[k].start)
    ensures k + 1 < |words| ==> words[k].end + 1 == words[k + 1].start
    ensures k + 1 == |words| ==> words[k].end + 1 == end
    decreases |words|
  {
    var n := |words| - 1;
    if k < n {
      TilesPrefix(words[..n], start, words[n].start, k);
      assert words[..n][..k] == words[..k];
    }
  }

  /** Where word `k` starts, or the end of the range. */
  ghost function Boundary(words: seq<WordRange>, end: nat, k: nat): nat {
    if k < |words| then words[k].start else end
  }

  lemma Boundaries(words: seq<WordRange>, start: nat, end: nat, k: nat)
    requires Tiles(words, start, end)
    ensures k == 0 ==> Boundary(words, end, k) == start
    ensures k < |words| ==> words[k].end + 1 == Boundary(words, end, k + 1) && start <= words[k].start <= words[k].end < end
  {
    if k < |words| {
      TilesPrefix(words, start, end, k);
      TilesWithin(words, start, end);
    }
    if words != [] {
      TilesRest(words, start, end);
    }
  }

  /** A whole run of words that are not kept. */
  ghost predicate LooseRun(d: Words, values: seq<nat>, mp: seq<WordRange>, i: nat, j: nat) {
    && i < j <= |mp|
    && (forall k :: i <= k < j ==> !Kept(d, values, mp[k]))
    && (i == 0 || Kept(d, values, mp[i - 1])) && (j == |mp| || Kept(d, values, mp[j]))
  }

  /** `part` are the words of a cut that lie in the range. */
  ghost predicate Part(words: seq<WordRange>, part: seq<WordRange>, start: nat, end: nat) {
    forall w :: w in part <==> w in words && start <= w.start && w.end < end
  }

  /** The words in a range are how the tagging cutter cuts it. */
  ghost predicate Recut(m: Model, values: seq<nat>, words: seq<WordRange>, start: nat, end: nat)
    requires ModelOK(m)
  {
    exists cut :: HMMCut(m, values, cut, start, end) && Part(words, cut, start, end)
  }

  /** How the mixed cutter cuts a range whose maximum-weight words are `mp`: kept words stay, each run of
      others is cut as the tagging cutter cuts it. */
  ghost predicate MixCut(d: Words, m: Model, values: seq<nat>, words: seq<WordRange>, mp: seq<WordRange>, start: nat, end: nat)
    requires ModelOK(m)
  {
    && Tiles(words, start, end)
    && Splits(d, values, mp, start, end)
    && (AboveFloor(d, values, start, end, MIN_DOUBLE) ==> Heaviest(d, values, mp, start, end))
    && (forall w :: w in mp && Kept(d, values, w) ==> w in words)
    && forall i: nat, j: nat :: LooseRun(d, values, mp, i, j) ==> Recut(m, values, words, mp[i].start, mp[j - 1].end + 1)
  }

  /** Later words leave a range as it was cut. */
  lemma RecutKept(m: Model, values: seq<nat>, words: seq<WordRange>, more: seq<WordRange>, start: nat, end: nat)
    requires ModelOK(m) && Recut(m, values, words, start, end) && forall w :: w in more ==> end <= w.end
    ensures Recut(m, values, words + more, start, end)
  {
    hide HMMCut;
    var cut :| HMMCut(m, values, cut, start, end) && Part(words, cut, start, end);
    assert Part(words + more, cut, start, end);
  }

  lemma RecutAdded(m: Model, values: seq<nat>, words: seq<WordRange>, cut: seq<WordRange>, start: nat, end: nat)
    requires ModelOK(m) && HMMCut(m, values, cut, start, end) && forall w :: w in words ==> w.start < start
    requires forall w :: w in cut ==> start <= w.start && w.end < end
    ensures Recut(m, values, words + cut, start, end)
  {
    hide HMMCut;
    assert Part(words + cut, cut, start, end);
  }

  /** What holds of the words that replace the first `index` maximum-weight words. */
  ghost predicate MixedUpTo(d: Words, m: Model, values: seq<nat>, words: seq<WordRange>, mp: seq<WordRange>, start: nat, end: nat, index: nat)
    requires ModelOK(m)
  {
    && index <= |mp| && Tiles(words, start, Boundary(mp, end, index))
    && (forall j :: 0 <= j < index && Kept(d, values, mp[j]) ==> mp[j] in words)
    && forall i: nat, j: nat :: j <= index && LooseRun(d, values, mp, i, j) ==> Recut(m, values, words, mp[i].start, mp[j - 1].end + 1)
  }

  lemma KeepWord(d: Words, m: Model, values: seq<nat>, words: seq<WordRange>, mp: seq<WordRange>, start: nat, end: nat, index: nat)
    requires ModelOK(m) && MixedUpTo(d, m, values, words, mp, start, end, index) && index < |mp|
    requires Tiles(mp, start, end) && Kept(d, values, mp[index])
    ensures MixedUpTo(d, m, values, words + [mp[index]], mp, start, end, index + 1)
  {
    hide Tiles, Recut, Kept;
    Boundaries(mp, start, end, index);
    TilesAppend(words, start, mp[index]);
    forall i: nat, j: nat | j <= index + 1 && LooseRun(d, values, mp, i, j)
      ensures Recut(m, values, words + [mp[index]], mp[i].start, mp[j - 1].end + 1)
    {
      assert !Kept(d, values, mp[j - 1]) && j <= index;
      Ordered(mp, start, end, j - 1, index);
      RecutKept(m, values, words, [mp[index]], mp[i].start, mp[j - 1].end + 1);
    }
  }

  /** Words of a tiling follow one another. */
  lemma {:induction false} Ordered(words: seq<WordRange>, start: nat, end: nat, i: nat, j: nat)
    requires Tiles(words, start, end) && i <= j < |words|
    ensures words[i].start <= words[j].start && words[i].end <= words[j].end && words[j].start <= words[j].end < end
    ensures i < j ==> words[i].end < words[j].start
    decreases j
  {
    hide Tiles;
    Boundaries(words, start, end, j);
    if i < j {
      Ordered(words, start, end, i, j - 1);
      Boundaries(words, start, end, j - 1);
    }
  }

  /** The words cut for a run lie where the run does, after the words before it. */
  lemma RunBounds(m: Model, values: seq<nat>, words: seq<WordRange>, mp: seq<WordRange>, cut: seq<WordRange>,
                  start: nat, end: nat, index: nat, next: nat)
    requires ModelOK(m) && Tiles(mp, start, end) && index < next <= |mp| && Tiles(words, start, Boundary(mp, end, index))
    requires HMMCut(m, values, cut, mp[index].start, mp[next - 1].end + 1)
    ensures Tiles(words + cut, start, Boundary(mp, end, next))
    ensures forall w :: w in words ==> w.start < mp[index].start
    ensures forall w :: w in cut ==> mp[index].start <= w.start <= w.end < mp[next - 1].end + 1
  {
    hide Tiles, TokenOK, Stretch, StretchTagged, ModelOK;
    var left, right := mp[index].start, mp[next - 1].end + 1;
    Boundaries(mp, start, end, next - 1);
    TilesConcat(words, cut, start, left, right);
    TilesWithin(words, start, left);
    TilesWithin(cut, left, right);
  }

  lemma RecutRun(d: Words, m: Model, values: seq<nat>, words: seq<WordRange>, mp: seq<WordRange>, cut: seq<WordRange>,
                 start: nat, end: nat, index: nat, next: nat)
    requires ModelOK(m) && MixedUpTo(d, m, values, words, mp, start, end, index) && Tiles(mp, start, end)
    requires LooseRun(d, values, mp, index, next) && HMMCut(m, values, cut, mp[index].start, mp[next - 1].end + 1)
    ensures MixedUpTo(d, m, values, words + cut, mp, start, end, next)
  {
    hide Tiles, Recut, Kept, HMMCut, Boundary, ModelOK;
    var left, right := mp[index].start, mp[next - 1].end + 1;
    RunBounds(m, values, words, mp, cut, start, end, index, next);
    forall i: nat, j: nat | j <= next && LooseRun(d, values, mp, i, j)
      ensures Recut(m, values, words + cut, mp[i].start, mp[j - 1].end + 1)
    {
      if j <= index {
        Ordered(mp, start, end, j - 1, index);
        RecutKept(m, values, words, cut, mp[i].start, mp[j - 1].end + 1);
      } else {
        OneRun(d, values, mp, index, next, i, j);
        RecutAdded(m, values, words, cut, left, right);
      }
    }
  }

  lemma OneRun(d: Words, values: seq<nat>, mp: seq<WordRange>, index: nat, next: nat, i: nat, j: nat)
    requires LooseRun(d, values, mp, index, next) && LooseRun(d, values, mp, i, j) && index < j <= next
    ensures i == index && j == next
  {
    hide Kept;
  }

  /** Maximum-weight words, with each run of single runes that are no user words cut again by the tagger. */
  method CutMix(d: Words, m: Model, values: seq<nat>, start: nat, end: nat)
    returns (words: seq<WordRange>, ghost mp: seq<WordRange>)
    requires WordsOK(d) && ModelOK(m) && start <= end <= |values|
    ensures Tiles(words, start, end)
    ensures MixCut(d, m, values, words, mp, start, end)
  {
    hide WordsOK, ModelOK, Splits, Tiles, AboveFloor, Heaviest, HMMCut, MixedUpTo;
    var mpWords := CutMP(d, values, start, end, MIN_DOUBLE);
    mp := mpWords;
    SplitsTile(d, values, mp, start, end);
    NothingMixed(d, m, values, mp, start, end);
    words := [];
    var index := 0;
    while index < |mpWords|
      invariant index <= |mp| && MixedUpTo(d, m, values, words, mp, start, end, index)
      invariant index == 0 || index == |mp| || Kept(d, values, mp[index - 1]) || Kept(d, values, mp[index])
      decreases |mp| - index
    {
      var word := mpWords[index];
      if Kept(d, values, word) {
        KeepWord(d, m, values, words, mp, start, end, index);
        words := words + [word];
        index := index + 1;
      } else {
        var next := index;
        while next < |mpWords| && !Kept(d, values, mpWords[next])
          invariant index <= next <= |mp| && (next == index ==> next < |mp|)
          invariant forall j :: index <= j < next ==> !Kept(d, values, mp[j])
        {
          next := next + 1;
        }
        Ordered(mp, start, end, index, next - 1);
        var stop := mpWords[next - 1].end + 1;
        var cut := CutHMM(m, values, word.start, stop);
        RecutRun(d, m, values, words, mp, cut, start, end, index, next);
        words := words + cut;
        index := next;
      }
    }
    AllMixed(d, m, values, words, mp, start, end);
  }

  lemma NothingMixed(d: Words, m: Model, values: seq<nat>, mp: seq<WordRange>, start: nat, end: nat)
    requires ModelOK(m) && Tiles(mp, start, end)
    ensures MixedUpTo(d, m, values, [], mp, start, end, 0)
  {
    Boundaries(mp, start, end, 0);
    NoRanges();
  }

  lemma AllMixed(d: Words, m: Model, values: seq<nat>, words: seq<WordRange>, mp: seq<WordRange>, start: nat, end: nat)
    requires ModelOK(m) && MixedUpTo(d, m, values, words, mp, start, end, |mp|) && Splits(d, values, mp, start, end)
    requires AboveFloor(d, values, start, end, MIN_DOUBLE) ==> Heaviest(d, values, mp, start, end)
    ensures MixCut(d, m, values, words, mp, start, end)
  {
    hide Tiles, Splits, AboveFloor, Heaviest, Recut, Kept;
    forall w | w in mp && Kept(d, values, w) ensures w in words {
      var j :| 0 <= j < |mp| && mp[j] == w;
    }
  }

  lemma SplitsTile(d: Words, values: seq<nat>, words: seq<WordRange>, start: nat, end: nat)
    requires Splits(d, values, words, start, end)
    ensures Tiles(words, start, end)
  {
  }

  // ----- Cutting a text --------------------------------------------------------------------------------------

  datatype Mode = MixMode | HMMMode

  /** A word with its bytes and where they start. */
  datatype Word = Word(text: Bytes, offset: nat)

  datatype Cut = InvalidUTF8 | Cut(words: seq<Word>)

  ghost function Joined(words: seq<Word>): Bytes {
    if words == [] then [] else Joined(words[..|words| - 1]) + words[|words| - 1].text
  }

  /** The byte where rune `k` starts. */
  ghost function ByteAt(runes: seq<Rune>, length: nat, k: nat): nat {
    if k < |runes| then runes[k].start else length
  }

  lemma {:induction false} RuneEnds(runes: seq<Rune>, start: nat, end: nat, k: nat)
    requires RunesTile(runes, start, end)
    ensures start <= ByteAt(runes, end, k) <= end && (k == 0 ==> ByteAt(runes, end, k) == start)
    ensures k < |runes| ==> runes[k].start < runes[k].end == ByteAt(runes, end, k + 1) <= end
    decreases |runes|
  {
    if runes != [] {
      if k == 0 {
        RuneEnds(runes[1..], runes[0].end, end, 0);
      } else {
        RuneEnds(runes[1..], runes[0].end, end, k - 1);
      }
    }
  }

  lemma {:induction false} RunesRise(runes: seq<Rune>, start: nat, end: nat, i: nat, j: nat)
    requires RunesTile(runes, start, end) && i <= j <= |runes|
    ensures ByteAt(runes, end, i) <= ByteAt(runes, end, j)
    decreases j
  {
    if i < j {
      RunesRise(runes, start, end, i, j - 1);
      RuneEnds(runes, start, end, j - 1);
    }
  }

  function Values(runes: seq<Rune>): (values: seq<nat>)
    ensures |values| == |runes|
  {
    seq(|runes|, i requires 0 <= i < |runes| => runes[i].value)
  }

  /** How a range is cut by the mode. */
  ghost predicate ModeCut(d: Words, m: Model, values: seq<nat>, mode: Mode, words: seq<WordRange>, start: nat, end: nat)
    requires ModelOK(m)
  {
    match mode
    case MixMode => exists mp :: MixCut(d, m, values, words, mp, start, end)
    case HMMMode => HMMCut(m, values, words, start, end)
  }

  ghost predicate RangeCut(d: Words, m: Model, values: seq<nat>, mode: Mode, words: seq<WordRange>, start: nat, end: nat)
    requires ModelOK(m)
  {
    exists cut :: ModeCut(d, m, values, mode, cut, start, end) && Part(words, cut, start, end)
  }

  lemma ModeTiles(d: Words, m: Model, values: seq<nat>, mode: Mode, words: seq<WordRange>, start: nat, end: nat)
    requires ModelOK(m) && ModeCut(d, m, values, mode, words, start, end)
    ensures Tiles(words, start, end)
  {
    hide Tiles, TokenOK, Stretch, StretchTagged, Splits, AboveFloor, Heaviest, Kept, LooseRun, Recut;
  }

  /** Words that end later leave a range as it was cut. */
  lemma RangeKept(d: Words, m: Model, values: seq<nat>, mode: Mode, words: seq<WordRange>, more: seq<WordRange>, start: nat, end: nat)
    requires ModelOK(m) && RangeCut(d, m, values, mode, words, start, end) && forall w :: w in more ==> end <= w.end
    ensures RangeCut(d, m, values, mode, words + more, start, end)
  {
    hide ModeCut;
    var part :| ModeCut(d, m, values, mode, part, start, end) && Part(words, part, start, end);
    assert Part(words + more, part, start, end);
  }

  lemma RangeAdded(d: Words, m: Model, values: seq<nat>, mode: Mode, words: seq<WordRange>, cut: seq<WordRange>, start: nat, end: nat)
    requires ModelOK(m) && ModeCut(d, m, values, mode, cut, start, end) && forall w :: w in words ==> w.start < start
    requires forall w :: w in cut ==> start <= w.start && w.end < end
    ensures RangeCut(d, m, values, mode, words + cut, start, end)
  {
    hide ModeCut;
    assert Part(words + cut, cut, start, end);
  }

  /** The words of another range join those of the ranges before it. */
  lemma JoinRange(d: Words, m: Model, values: seq<nat>, mode: Mode, ranges: seq<WordRange>, k: nat, words: seq<WordRange>, cut: seq<WordRange>)
    requires ModelOK(m) && Tiles(ranges, 0, |values|) && k < |ranges|
    requires Tiles(words, 0, Boundary(ranges, |values|, k))
    requires forall i :: 0 <= i < k ==> RangeCut(d, m, values, mode, words, ranges[i].start, ranges[i].end + 1)
    requires ModeCut(d, m, values, mode, cut, ranges[k].start, ranges[k].end + 1)
    ensures Tiles(words + cut, 0, Boundary(ranges, |values|, k + 1))
    ensures forall i :: 0 <= i <= k ==> RangeCut(d, m, values, mode, words + cut, ranges[i].start, ranges[i].end + 1)
  {
    hide Tiles, ModeCut, RangeCut, ModelOK;
    var start, end := ranges[k].start, ranges[k].end + 1;
    Boundaries(ranges, 0, |values|, k);
    ModeTiles(d, m, values, mode, cut, start, end);
    TilesConcat(words, cut, 0, start, end);
    TilesWithin(words, 0, start);
    TilesWithin(cut, start, end);
    forall i | 0 <= i <= k ensures RangeCut(d, m, values, mode, words + cut, ranges[i].start, ranges[i].end + 1) {
      if i < k {
        Ordered(ranges, 0, |values|, i, k);
        RangeKept(d, m, values, mode, words, cut, ranges[i].start, ranges[i].end + 1);
      } else {
        RangeAdded(d, m, values, mode, words, cut, start, end);
      }
    }
  }

  /** Cut every input range by the mode. */
  method CutRanges(d: Words, m: Model, values: seq<nat>, mode: Mode) returns (words: seq<WordRange>)
    requires WordsOK(d) && ModelOK(m)
    ensures Tiles(words, 0, |values|)
    ensures forall start: nat, end: nat :: InputRange(values, start, end) ==> RangeCut(d, m, values, mode, words, start, end)
  {
    hide Tiles, WordsOK, ModelOK, HMMCut, MixCut, RangeCut, InputRange;
    var ranges := SplitInputRanges(values);
    Boundaries(ranges, 0, |values|, 0);
    NoRanges();
    words := [];
    for k := 0 to |ranges|
      invariant Tiles(words, 0, Boundary(ranges, |values|, k))
      invariant forall i :: 0 <= i < k ==> RangeCut(d, m, values, mode, words, ranges[i].start, ranges[i].end + 1)
    {
      Boundaries(ranges, 0, |values|, k);
      var start, end := ranges[k].start, ranges[k].end + 1;
      var cut;
      match mode {
        case MixMode =>
          ghost var mp;
          cut, mp := CutMix(d, m, values, start, end);
        case HMMMode =>
          cut := CutHMM(m, values, start, end);
      }
      JoinRange(d, m, values, mode, ranges, k, words, cut);
      words := words + cut;
    }
    forall start: nat, end: nat | InputRange(values, start, end) ensures RangeCut(d, m, values, mode, words, start, end) {
      RangeNotEmpty(values, start, end);
      assert WordRange(start, end - 1) in ranges;
      var i :| 0 <= i < |ranges| && ranges[i] == WordRange(start, end - 1);
    }
  }

  lemma RangeNotEmpty(values: seq<nat>, start: nat, end: nat)
    requires InputRange(values, start, end)
    ensures start < end <= |values|
  {
  }

  lemma JoinedAppend(words: seq<Word>, word: Word)
    ensures Joined(words + [word]) == Joined(words) + word.text
  {
    assert (words + [word])[..|words|] == words;
  }

  /** A word's bytes are those of its runes, and its offset is theirs. */
  ghost predicate Spells(text: Bytes, runes: seq<Rune>, word: Word, w: WordRange) {
    && w.start <= w.end < |runes|
    && word.offset == runes[w.start].start <= runes[w.end].end <= |text|
    && word.text == text[runes[w.start].start..runes[w.end].end] != []
  }

  /** Cut a text: no byte is lost, repeated or moved, and every input range is cut by the mode. */
  method CutText(d: Words, m: Model, text: Bytes, mode: Mode) returns (r: Cut, ghost cut: seq<WordRange>)
    requires WordsOK(d) && ModelOK(m)
    ensures r.InvalidUTF8? <==> text != [] && DecodeFrom(text, 0).Malformed?
    ensures r.Cut? ==> Joined(r.words) == text
    ensures r.Cut? ==> DecodeFrom(text, 0).Runes? && var runes := DecodeFrom(text, 0).runes;
      && |r.words| == |cut| && Tiles(cut, 0, |runes|)
      && (forall k :: 0 <= k < |cut| ==> Spells(text, runes, r.words[k], cut[k]))
      && forall start: nat, end: nat :: InputRange(Values(runes), start, end) ==>
           RangeCut(d, m, Values(runes), mode, cut, start, end)
  {
    hide Tiles, RunesTile, DecodeFrom, WordsOK, ModelOK, Values, InputRange, RangeCut, Spells, ByteAt, Boundary, Joined;
    cut := [];
    if text == [] {
      EmptyText(text);
      return Cut([]), cut;
    }
    var decoded := Decode(text);
    if decoded.Malformed? {
      return InvalidUTF8, cut;
    }
    var runes := decoded.runes;
    DecodedTile(text, 0);
    var ranges := CutRanges(d, m, Values(runes), mode);
    TextEnds(text, runes, ranges);
    var words: seq<Word> := [];
    for k := 0 to |ranges|
      invariant ByteAt(runes, |text|, Boundary(ranges, |runes|, k)) <= |text|
      invariant Joined(words) == text[..ByteAt(runes, |text|, Boundary(ranges, |runes|, k))]
      invariant |words| == k && forall i :: 0 <= i < k ==> Spells(text, runes, words[i], ranges[i])
    {
      var range := ranges[k];
      WordBytes(text, runes, ranges, k);
      var start, end := runes[range.start].start, runes[range.end].end;
      var word := Word(text[start..end], start);
      JoinedAppend(words, word);
      assert text[..end] == text[..start] + text[start..end];
      words := words + [word];
    }
    assert text[..|text|] == text;
    cut := ranges;
    r := Cut(words);
  }

  /** A word's bytes lie between the byte where it starts and the byte where the next one does. */
  lemma WordBytes(text: Bytes, runes: seq<Rune>, ranges: seq<WordRange>, k: nat)
    requires RunesTile(runes, 0, |text|) && Tiles(ranges, 0, |runes|) && k < |ranges|
    ensures var w := ranges[k];
      && w.start <= w.end < |runes|
      && runes[w.start].start == ByteAt(runes, |text|, Boundary(ranges, |runes|, k))
      && runes[w.end].end == ByteAt(runes, |text|, Boundary(ranges, |runes|, k + 1))
      && runes[w.start].start < runes[w.end].end <= |text|
      && Spells(text, runes, Word(text[runes[w.start].start..runes[w.end].end], runes[w.start].start), w)
  {
    hide Tiles, RunesTile, ByteAt, Spells;
    Boundaries(ranges, 0, |runes|, k);
    var w := ranges[k];
    RuneEnds(runes, 0, |text|, w.end);
    RunesRise(runes, 0, |text|, w.start, w.end);
    ByteOfRune(runes, |text|, w.start);
    ByteOfRune(runes, |text|, w.end);
    SpellsBytes(text, runes, w);
  }

  lemma ByteOfRune(runes: seq<Rune>, length: nat, k: nat)
    requires k < |runes|
    ensures ByteAt(runes, length, k) == runes[k].start
  {
  }

  lemma SpellsBytes(text: Bytes, runes: seq<Rune>, w: WordRange)
    requires w.start <= w.end < |runes| && runes[w.start].start < runes[w.end].end <= |text|
    ensures Spells(text, runes, Word(text[runes[w.start].start..runes[w.end].end], runes[w.start].start), w)
  {
  }

  lemma TextEnds(text: Bytes, runes: seq<Rune>, ranges: seq<WordRange>)
    requires RunesTile(runes, 0, |text|) && Tiles(ranges, 0, |runes|)
    ensures ByteAt(runes, |text|, Boundary(ranges, |runes|, 0)) == 0
    ensures ByteAt(runes, |text|, Boundary(ranges, |runes|, |ranges|)) == |text|
    ensures Joined([]) == []
  {
    Boundaries(ranges, 0, |runes|, 0);
    RuneEnds(runes, 0, |text|, 0);
  }

  lemma EmptyText(text: Bytes)
    requires text == []
    ensures DecodeFrom(text, 0) == Runes([]) && Values([]) == [] && Tiles([], 0, 0) && Joined([]) == []
    ensures forall start: nat, end: nat :: !InputRange([], start, end)
  {
  }
}
