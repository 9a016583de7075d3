/** UTF-8: the byte check the keys and strings of the store pass, against the encoding of scalar values. */
module Texts {
  import opened Keys

  /** A Unicode scalar value: no surrogate, at most U+10FFFF. */
  predicate Scalar(r: nat) {
    r < 0xD800 || 0xE000 <= r < 0x11_0000
  }

  function EncodeRune(r: nat): (s: Bytes)
    requires Scalar(r)
    ensures |s| > 0
  {
    if r < 0x80 then [r]
    else if r < 0x800 then [0xC0 + r / 0x40, 0x80 + r % 0x40]
    else if r < 0x1_0000 then [0xE0 + r / 0x1000, 0x80 + r / 0x40 % 0x40, 0x80 + r % 0x40]
    else [0xF0 + r / 0x4_0000, 0x80 + r / 0x1000 % 0x40, 0x80 + r / 0x40 % 0x40, 0x80 + r % 0x40]
  }

  predicate AllScalar(runes: seq<nat>) {
    forall i :: 0 <= i < |runes| ==> Scalar(runes[i])
  }

  function EncodeAll(runes: seq<nat>): Bytes
    requires AllScalar(runes)
  {
    if runes == [] then [] else EncodeRune(runes[0]) + EncodeAll(runes[1..])
  }

  lemma EncodingWidth(r: nat, rest: Bytes)
    requires Scalar(r)
    ensures RuneWidth(EncodeRune(r) + rest) == |EncodeRune(r)|
  {
    if r >= 0x80 {
      Digits(r);
    }
  }

  /** The digits of a rune to base 64. */
  lemma Digits(r: nat)
    ensures r / 0x1000 == r / 0x40 / 0x40 && r / 0x4_0000 == r / 0x40 / 0x40 / 0x40
  {
  }

  /** The scalar value whose encoding stands at the front. */
  lemma FrontRune(s: Bytes) returns (r: nat)
    requires RuneWidth(s) > 0
    ensures Scalar(r) && s[..RuneWidth(s)] == EncodeRune(r)
  {
    var w := RuneWidth(s);
    if w == 1 {
      r := s[0];
    } else if w == 2 {
      r := FromDigits(0, 0, s[0] - 0xC0, s[1] - 0x80);
    } else if w == 3 {
      r := FromDigits(0, s[0] - 0xE0, s[1] - 0x80, s[2] - 0x80);
    } else {
      r := FromDigits(s[0] - 0xF0, s[1] - 0x80, s[2] - 0x80, s[3] - 0x80);
    }
  }

  lemma FromDigits(a: nat, b: nat, c: nat, d: nat) returns (r: nat)
    requires b < 0x40 && c < 0x40 && d < 0x40
    ensures r == a * 0x4_0000 + b * 0x1000 + c * 0x40 + d
    ensures r % 0x40 == d && r / 0x40 % 0x40 == c && r / 0x1000 % 0x40 == b && r / 0x4_0000 == a
    ensures a == 0 ==> r / 0x1000 == b
    ensures a == 0 && b == 0 ==> r / 0x40 == c
  {
    r := a * 0x4_0000 + b * 0x1000 + c * 0x40 + d;
    assert r / 0x40 == a * 0x1000 + b * 0x40 + c;
    assert r / 0x1000 == a * 0x40 + b;
  }

  lemma {:induction false} EncodedIsValid(runes: seq<nat>)
    requires AllScalar(runes)
    ensures ValidUtf8(EncodeAll(runes))
  {
    hide RuneWidth, EncodeRune, Scalar;
    if runes != [] {
      var rest := EncodeAll(runes[1..]);
      EncodedIsValid(runes[1..]);
      EncodingWidth(runes[0], rest);
      var s := EncodeAll(runes);
      assert s == EncodeRune(runes[0]) + rest && s[|EncodeRune(runes[0])|..] == rest;
    }
  }

  lemma {:induction false} ValidIsEncoded(s: Bytes) returns (runes: seq<nat>)
    requires ValidUtf8(s)
    ensures AllScalar(runes) && s == EncodeAll(runes)
    decreases |s|
  {
    hide RuneWidth, EncodeRune, Scalar;
    runes := [];
    if s != [] {
      var w := RuneWidth(s);
      var r := FrontRune(s);
      var more := ValidIsEncoded(s[w..]);
      runes := [r] + more;
      assert runes[1..] == more && s == s[..w] + s[w..];
    }
  }

  /** A byte string is valid exactly when it encodes a sequence of scalar values. */
  lemma ValidIffEncoded(s: Bytes)
    ensures ValidUtf8(s) <==> exists runes: seq<nat> :: AllScalar(runes) && s == EncodeAll(runes)
  {
    hide RuneWidth, EncodeRune, Scalar;
    if ValidUtf8(s) {
      var runes := ValidIsEncoded(s);
    }
    if runes: seq<nat> :| AllScalar(runes) && s == EncodeAll(runes) {
      EncodedIsValid(runes);
    }
  }
}
