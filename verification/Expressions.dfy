/** The column-expression parser: a grammar over the rest of the input, the parser that moves a position
    over it, and the round trip from a printed tree. */
module Expressions {
  import opened Common
  import opened Keys
  import opened Columns

  /** What parsing depends on: the columns of the schema and the library's number conversion. */
  datatype Environment = Environment(schema: map<string, DataType>, parseFloat: string -> Option<real>)

  type Parsed = Result<(Node, string), ColumnError>

  const MAX_INT64: int := 0x7FFF_FFFF_FFFF_FFFF

  // ----- Characters --------------------------------------------------------------------------------

  predicate Space(c: char) {
    c == ' ' || c == '\t' || c == '\n' || c == '\r' || c == '\U{000C}' || c == '\U{000B}'
  }

  predicate Digit(c: char) {
    '0' <= c <= '9'
  }

  predicate NameStart(c: char) {
    'a' <= c <= 'z' || 'A' <= c <= 'Z' || c == '_'
  }

  predicate NamePart(c: char) {
    NameStart(c) || Digit(c)
  }

  function SkipSpace(s: string): (r: string)
    ensures |r| <= |s| && (r == "" || !Space(r[0]))
    ensures s != "" && !Space(s[0]) ==> r == s
  {
    if s != "" && Space(s[0]) then SkipSpace(s[1..]) else s
  }

  function Digits(s: string): (n: nat)
    ensures n <= |s|
  {
    if s != "" && Digit(s[0]) then 1 + Digits(s[1..]) else 0
  }

  function NameLength(s: string): (n: nat)
    ensures n <= |s|
  {
    if s != "" && NamePart(s[0]) then 1 + NameLength(s[1..]) else 0
  }

  // ----- Numbers and names ---------------------------------------------------------------------------

  lemma NameStep(s: string, at: nat)
    requires at < |s|
    ensures NamePart(s[at]) ==> NameLength(s[at..]) == 1 + NameLength(s[at + 1..])
  {
    assert s[at..][1..] == s[at + 1..];
  }

  lemma NameEnds(s: string, at: nat)
    requires at <= |s| && (at < |s| ==> !NamePart(s[at]))
    ensures NameLength(s[at..]) == 0
  {
  }

  lemma StartsName(c: char)
    requires NameStart(c)
    ensures NamePart(c)
  {
  }

  /** Where the fraction of a number that starts with `from` digits ends. */
  function FractionEnd(s: string, from: nat): (n: nat)
    requires from <= |s|
    ensures from <= n <= |s|
  {
    if from < |s| && s[from] == '.' then from + 1 + Digits(s[from + 1..]) else from
  }

  /** Where the digits of an exponent start; `from` when there is none. */
  function ExponentStart(s: string, from: nat): (n: nat)
    requires from <= |s|
    ensures from <= n <= |s|
  {
    if from < |s| && (s[from] == 'e' || s[from] == 'E') then
      if from + 1 < |s| && (s[from + 1] == '+' || s[from + 1] == '-') then from + 2 else from + 1
    else from
  }

  datatype Lexeme = BadExponent | Lexeme(length: nat, floating: bool)

  function Lex(s: string): (l: Lexeme)
    ensures l.Lexeme? ==> l.length <= |s|
    ensures l.Lexeme? && s != "" && Digit(s[0]) ==> l.length > 0
  {
    var whole := Digits(s);
    var fraction := FractionEnd(s, whole);
    var exponent := ExponentStart(s, fraction);
    if exponent == fraction then Lexeme(fraction, fraction > whole)
    else if Digits(s[exponent..]) == 0 then BadExponent
    else Lexeme(exponent + Digits(s[exponent..]), true)
  }

  function IntegerOf(text: string): int {
    if text == "" then 0 else 10 * IntegerOf(text[..|text| - 1]) + (text[|text| - 1] as int - '0' as int)
  }

  /** An integer that fits 64 bits, otherwise a floating value. */
  function NumberOf(env: Environment, text: string, floating: bool): Result<Number, ColumnError> {
    if !floating && IntegerOf(text) <= MAX_INT64 then Ok(Integer(IntegerOf(text)))
    else
      match env.parseFloat(text)
      case None => Err(Syntax)
      case Some(x) => Ok(Floating(x))
  }

  predicate Numeric(t: DataType) {
    !t.Other?
  }

  // ----- The grammar -----------------------------------------------------------------------------------

  function Expression(env: Environment, s: string): (r: Parsed)
    ensures r.Ok? ==> |r.value.1| < |s|
    decreases |s|, 3
  {
    match Term(env, s)
    case Err(e) => Err(e)
    case Ok((left, rest)) => Sums(env, left, rest)
  }

  function Sums(env: Environment, left: Node, s: string): (r: Parsed)
    ensures r.Ok? ==> |r.value.1| <= |s|
    decreases |s|, 4
  {
    var u := SkipSpace(s);
    if u != "" && (u[0] == '+' || u[0] == '-') then
      match Term(env, u[1..])
      case Err(e) => Err(e)
      case Ok((right, rest)) => Sums(env, Binary(if u[0] == '+' then Add else Sub, left, right), rest)
    else Ok((left, u))
  }

  function Term(env: Environment, s: string): (r: Parsed)
    ensures r.Ok? ==> |r.value.1| < |s|
    decreases |s|, 1
  {
    match Factor(env, s)
    case Err(e) => Err(e)
    case Ok((left, rest)) => Products(env, left, rest)
  }

  function Products(env: Environment, left: Node, s: string): (r: Parsed)
    ensures r.Ok? ==> |r.value.1| <= |s|
    decreases |s|, 2
  {
    var u := SkipSpace(s);
    if u != "" && (u[0] == '*' || u[0] == '/') then
      match Factor(env, u[1..])
      case Err(e) => Err(e)
      case Ok((right, rest)) => Products(env, Binary(if u[0] == '*' then Mul else Div, left, right), rest)
    else Ok((left, u))
  }

  function Factor(env: Environment, s: string): (r: Parsed)
    ensures r.Ok? ==> |r.value.1| < |s|
    decreases |s|, 0
  {
    var u := SkipSpace(s);
    if u == "" then Err(Syntax)
    else if u[0] == '(' then
      match Expression(env, u[1..])
      case Err(e) => Err(e)
      case Ok((inner, rest)) =>
        var v := SkipSpace(rest);
        if v != "" && v[0] == ')' then Ok((inner, v[1..])) else Err(Syntax)
    else if u[0] == '+' || u[0] == '-' then
      match Factor(env, u[1..])
      case Err(e) => Err(e)
      case Ok((operand, rest)) => Ok((if u[0] == '+' then operand else Negate(operand), rest))
    else if Digit(u[0]) then NumberAt(env, u)
    else if NameStart(u[0]) then NameAt(env, u)
    else Err(Syntax)
  }

  function NumberAt(env: Environment, s: string): (r: Parsed)
    requires s != "" && Digit(s[0])
    ensures r.Ok? ==> |r.value.1| < |s|
  {
    match Lex(s)
    case BadExponent => Err(Syntax)
    case Lexeme(length, floating) =>
      match NumberOf(env, s[..length], floating)
      case Err(e) => Err(e)
      case Ok(number) => Ok((Literal(number), s[length..]))
  }

  function NameAt(env: Environment, s: string): (r: Parsed)
    requires s != "" && NameStart(s[0])
    ensures r.Ok? ==> |r.value.1| < |s|
  {
    var n := NameLength(s);
    var name := s[..n];
    if name !in env.schema then Err(UnknownColumn)
    else if !Numeric(env.schema[name]) then Err(NotANumber)
    else Ok((Column(name), s[n..]))
  }

  function Parse(env: Environment, input: string): Result<Node, ColumnError> {
    match Expression(env, SkipSpace(input))
    case Err(e) => Err(e)
    case Ok((root, rest)) => if SkipSpace(rest) == "" then Ok(root) else Err(Syntax)
  }

  // ----- Written expressions -----------------------------------------------------------------------------

  /** An expression as written, blanks and redundant zeros, signs and parentheses included. */
  datatype Written =
    | Whole(zeros: nat, value: nat)
    | Decimal(whole: string, fraction: string, exponent: string)
    | Name(name: string)
    | Signed(minus: bool, after: string, operand: Written)
    | Group(before: string, inner: Written, after: string)
    | Pair(op: Operator, left: Written, before: string, after: string, right: Written)

  function Symbol(op: Operator): char {
    match op case Add => '+' case Sub => '-' case Mul => '*' case Div => '/'
  }

  /** The decimal digits of a number. */
  function Numeral(n: nat): (text: string)
    ensures text != ""
  {
    if n < 10 then [(48 + n) as char] else Numeral(n / 10) + [(48 + n % 10) as char]
  }

  function Zeros(n: nat): (text: string)
    ensures |text| == n
  {
    if n == 0 then "" else Zeros(n - 1) + "0"
  }

  /** The text of an expression in front of what follows it. */
  function Print(w: Written, tail: string): string {
    match w
    case Whole(zeros, value) => Zeros(zeros) + Numeral(value) + tail
    case Decimal(whole, fraction, exponent) => whole + fraction + exponent + tail
    case Name(name) => name + tail
    case Signed(minus, after, operand) => [if minus then '-' else '+'] + (after + Print(operand, tail))
    case Group(before, inner, after) => ['('] + (before + Print(inner, after + ([')'] + tail)))
    case Pair(op, left, before, after, right) => Print(left, before + ([Symbol(op)] + (after + Print(right, tail))))
  }

  /** Tab, line feed, vertical tab, form feed, carriage return and space, by code. */
  predicate Blank(s: string) {
    forall i :: 0 <= i < |s| ==> 9 <= s[i] as int <= 13 || s[i] as int == 32
  }

  predicate AllDigits(s: string) {
    forall i :: 0 <= i < |s| ==> 48 <= s[i] as int <= 57
  }

  /** Letters, digits and underscores, by code. */
  predicate AllNameParts(s: string) {
    forall i :: 0 <= i < |s| ==> Letter(s[i]) || 48 <= s[i] as int <= 57
  }

  predicate Letter(c: char) {
    97 <= c as int <= 122 || 65 <= c as int <= 90 || c as int == 95
  }

  predicate IsFraction(s: string) {
    s == "" || (s[0] == '.' && AllDigits(s[1..]))
  }

  predicate IsExponent(s: string) {
    || s == ""
    || (s[0] in "eE" && |s| > 1 && AllDigits(s[1..]))
    || (s[0] in "eE" && |s| > 2 && s[1] in "+-" && AllDigits(s[2..]))
  }

  /** How tightly an expression binds: a sum, a product, a factor. */
  function Level(w: Written): nat {
    if !w.Pair? then 3 else if w.op.Mul? || w.op.Div? then 2 else 1
  }

  /** The written forms of the language: both operators of a level associate to the left, products bind
      tighter than sums, and names are numeric columns. */
  ghost predicate Writable(env: Environment, w: Written) {
    match w
    case Whole(zeros, value) => value < 0x8000_0000_0000_0000 || env.parseFloat(Zeros(zeros) + Numeral(value)).Some?
    case Decimal(whole, fraction, exponent) =>
      && whole != "" && AllDigits(whole) && IsFraction(fraction) && IsExponent(exponent) && fraction + exponent != ""
      && env.parseFloat(whole + fraction + exponent).Some?
    case Name(name) =>
      && name != "" && Letter(name[0]) && AllNameParts(name)
      && name in env.schema && !env.schema[name].Other?
    case Signed(_, after, operand) => Blank(after) && Level(operand) == 3 && Writable(env, operand)
    case Group(before, inner, after) => Blank(before) && Blank(after) && Writable(env, inner)
    case Pair(op, left, before, after, right) =>
      && Blank(before) && Blank(after)
      && Level(left) >= Level(w) && Level(right) > Level(w)
      && Writable(env, left) && Writable(env, right)
  }

  /** The tree an expression denotes: integers below 2^63 by value, other numbers as converted. */
  ghost function Denote(env: Environment, w: Written): Node
    requires Writable(env, w)
  {
    match w
    case Whole(zeros, value) =>
      if value < 0x8000_0000_0000_0000 then Literal(Integer(value))
      else Literal(Floating(env.parseFloat(Zeros(zeros) + Numeral(value)).value))
    case Decimal(whole, fraction, exponent) => Literal(Floating(env.parseFloat(whole + fraction + exponent).value))
    case Name(name) => Column(name)
    case Signed(minus, _, operand) => if minus then Negate(Denote(env, operand)) else Denote(env, operand)
    case Group(_, inner, _) => Denote(env, inner)
    case Pair(op, left, _, _, right) => Binary(op, Denote(env, left), Denote(env, right))
  }

  /** The input is a written form of the tree with blanks around it. */
  ghost predicate Spells(env: Environment, input: string, node: Node) {
    exists lead, w, trail :: SpelledBy(env, input, node, lead, w, trail)
  }

  ghost predicate SpelledBy(env: Environment, input: string, node: Node, lead: string, w: Written, trail: string) {
    && Blank(lead) && Blank(trail)
    && Writable(env, w) && Denote(env, w) == node
    && input == lead + Print(w, trail)
  }

  // ----- Blanks and lexemes --------------------------------------------------------------------------------

  lemma {:induction false} SkipBlank(before: string, s: string)
    requires Blank(before)
    ensures SkipSpace(before + s) == SkipSpace(s)
  {
    if before == "" {
      assert before + s == s;
    } else {
      assert Space(before[0]) by {
        assert before[0] == 9 as char || before[0] == 10 as char || before[0] == 11 as char || before[0] == 12 as char
            || before[0] == 13 as char || before[0] == 32 as char;
      }
      SkipBlank(before[1..], s);
      assert (before + s)[1..] == before[1..] + s;
    }
  }

  /** What is skipped is blank. */
  lemma {:induction false} Skipped(s: string) returns (before: string)
    ensures Blank(before) && s == before + SkipSpace(s)
  {
    if s != "" && Space(s[0]) {
      var more := Skipped(s[1..]);
      before := [s[0]] + more;
      var rest := SkipSpace(s[1..]);
      assert SkipSpace(s) == rest;
      hide SkipSpace;
      assert s == [s[0]] + s[1..] == [s[0]] + (more + rest) == before + rest;
    } else {
      before := "";
    }
  }

  lemma {:induction false} DigitsStop(text: string, tail: string)
    requires AllDigits(text) && (tail == "" || !Digit(tail[0]))
    ensures Digits(text + tail) == |text|
  {
    if text == "" {
      assert text + tail == tail;
    } else {
      DigitsStop(text[1..], tail);
      assert (text + tail)[1..] == text[1..] + tail;
    }
  }

  lemma {:induction false} DigitsAre(s: string)
    ensures AllDigits(s[..Digits(s)])
  {
    if s != "" && Digit(s[0]) {
      DigitsAre(s[1..]);
      assert s[..Digits(s)] == [s[0]] + s[1..][..Digits(s[1..])];
    }
  }

  lemma {:induction false} NameStops(text: string, tail: string)
    requires AllNameParts(text) && (tail == "" || !NamePart(tail[0]))
    ensures NameLength(text + tail) == |text|
  {
    if text == "" {
      assert text + tail == tail;
    } else {
      NameStops(text[1..], tail);
      assert (text + tail)[1..] == text[1..] + tail;
    }
  }

  lemma {:induction false} NamePartsAre(s: string)
    ensures AllNameParts(s[..NameLength(s)])
  {
    if s != "" && NamePart(s[0]) {
      NamePartsAre(s[1..]);
      assert s[..NameLength(s)] == [s[0]] + s[1..][..NameLength(s[1..])];
    }
  }

  lemma IntegerOfStep(text: string, c: char)
    ensures IntegerOf(text + [c]) == 10 * IntegerOf(text) + (c as int - 48)
  {
    assert (text + [c])[..|text|] == text;
  }

  lemma AppendDigit(text: string, c: char)
    requires AllDigits(text) && 48 <= c as int <= 57
    ensures AllDigits(text + [c])
  {
  }

  /** A numeral of two digits or more ends in the last one. */
  lemma NumeralStep(before: string, n: nat) returns (c: char)
    requires n >= 10
    ensures before + Numeral(n) == before + Numeral(n / 10) + [c] && 48 <= c as int <= 57 && 10 * (n / 10) + (c as int - 48) == n
  {
    c := (48 + n % 10) as char;
    assert before + Numeral(n) == before + Numeral(n / 10) + [c];
  }

  /** A numeral with zeros before it reads as its number. */
  lemma {:induction false} NumeralReads(zeros: nat, n: nat)
    ensures AllDigits(Zeros(zeros) + Numeral(n)) && IntegerOf(Zeros(zeros) + Numeral(n)) == n
    decreases n
  {
    hide IntegerOf, AllDigits, Zeros;
    if n < 10 {
      ZerosRead(zeros);
      AppendDigit(Zeros(zeros), (48 + n) as char);
      IntegerOfStep(Zeros(zeros), (48 + n) as char);
    } else {
      var c := NumeralStep(Zeros(zeros), n);
      hide Numeral;
      NumeralReads(zeros, n / 10);
      AppendDigit(Zeros(zeros) + Numeral(n / 10), c);
      IntegerOfStep(Zeros(zeros) + Numeral(n / 10), c);
    }
  }

  lemma {:induction false} ZerosRead(zeros: nat)
    ensures AllDigits(Zeros(zeros)) && IntegerOf(Zeros(zeros)) == 0
  {
    if zeros > 0 {
      ZerosRead(zeros - 1);
      IntegerOfStep(Zeros(zeros - 1), '0');
    }
  }

  /** Every text of digits is the numeral of its value with zeros before it. */
  lemma {:induction false} DigitsAreNumeral(text: string) returns (zeros: nat)
    requires text != "" && AllDigits(text)
    ensures IntegerOf(text) >= 0 && text == Zeros(zeros) + Numeral(IntegerOf(text))
  {
    var c, more := text[|text| - 1], text[..|text| - 1];
    var d := c as int - 48;
    assert text == more + [c] && 0 <= d < 10;
    IntegerOfStep(more, c);
    if more == "" {
      assert IntegerOf(more) == 0;
      hide IntegerOf;
      zeros := 0;
    } else {
      assert AllDigits(more);
      hide IntegerOf, AllDigits;
      var z := DigitsAreNumeral(more);
      zeros := AppendNumeral(z, IntegerOf(more), d);
    }
  }

  /** A digit after a padded numeral gives a padded numeral. */
  lemma AppendNumeral(zeros: nat, n: nat, d: nat) returns (more: nat)
    requires d < 10
    ensures Zeros(zeros) + Numeral(n) + [(48 + d) as char] == Zeros(more) + Numeral(10 * n + d)
  {
    if n == 0 {
      more := zeros + 1;
      assert Numeral(0) == "0";
    } else {
      more := zeros;
      hide Zeros;
      assert (10 * n + d) / 10 == n && (10 * n + d) % 10 == d;
      assert Numeral(10 * n + d) == Numeral(n) + [(48 + d) as char];
      hide Numeral;
      assert Zeros(zeros) + Numeral(n) + [(48 + d) as char] == Zeros(zeros) + (Numeral(n) + [(48 + d) as char]);
    }
  }

  /** What may follow a factor without being taken for a part of it. */
  predicate Stops(tail: string) {
    tail == "" || (!NamePart(tail[0]) && tail[0] != '.')
  }

  lemma FractionReads(s: string, from: nat, fraction: string, rest: string)
    requires from <= |s| && s[from..] == fraction + rest && IsFraction(fraction)
    requires rest == "" || (!Digit(rest[0]) && rest[0] != '.')
    ensures FractionEnd(s, from) == from + |fraction|
  {
    if fraction != "" {
      assert s[from] == s[from..][0] && s[from + 1..] == s[from..][1..] == fraction[1..] + rest;
      DigitsStop(fraction[1..], rest);
    } else if from < |s| {
      assert s[from] == s[from..][0];
    }
  }

  lemma ExponentReads(s: string, from: nat, exponent: string, tail: string)
    requires from <= |s| && s[from..] == exponent + tail && IsExponent(exponent) && Stops(tail)
    ensures var e := ExponentStart(s, from);
      if exponent == "" then e == from else e > from && e + Digits(s[e..]) == from + |exponent| && Digits(s[e..]) > 0
  {
    assert from < |s| ==> s[from] == s[from..][0];
    assert from + 1 < |s| ==> s[from + 1] == s[from..][1];
    if exponent != "" {
      var e := ExponentStart(s, from);
      assert s[e..] == s[from..][e - from..] == exponent[e - from..] + tail;
      DigitsStop(exponent[e - from..], tail);
    }
  }

  /** Scanning takes exactly the number. */
  lemma LexReads(whole: string, fraction: string, exponent: string, tail: string)
    requires AllDigits(whole) && IsFraction(fraction) && IsExponent(exponent) && Stops(tail)
    ensures Lex(whole + fraction + exponent + tail) ==
            Lexeme(|whole + fraction + exponent|, fraction + exponent != "")
  {
    hide Digits, FractionEnd, ExponentStart;
    var s := whole + fraction + exponent + tail;
    assert s == whole + (fraction + (exponent + tail)) && s[|whole|..] == fraction + (exponent + tail);
    assert s[|whole + fraction|..] == exponent + tail;
    DigitsStop(whole, fraction + (exponent + tail));
    FractionReads(s, |whole|, fraction, exponent + tail);
    ExponentReads(s, |whole + fraction|, exponent, tail);
    hide AllDigits, IsFraction, IsExponent, Stops;
  }

  /** What is scanned is a number of that form. */
  lemma LexIs(s: string) returns (whole: string, fraction: string, exponent: string)
    requires s != "" && Digit(s[0]) && Lex(s).Lexeme?
    ensures whole != "" && AllDigits(whole) && IsFraction(fraction) && IsExponent(exponent)
    ensures s[..Lex(s).length] == whole + fraction + exponent
    ensures Lex(s).floating == (fraction + exponent != "")
  {
    hide Digits;
    var w := Digits(s);
    var f := FractionEnd(s, w);
    var e := ExponentStart(s, f);
    var n := Lex(s).length;
    whole, fraction, exponent := s[..w], s[w..f], s[f..n];
    assert w > 0 by {
      FirstDigit(s);
    }
    DigitsAre(s);
    FractionIs(s, w);
    if e > f {
      ExponentIs(s, f);
    }
    hide FractionEnd, ExponentStart, IsFraction, IsExponent, AllDigits;
    assert s[..n] == whole + fraction + exponent;
  }

  lemma FirstDigit(s: string)
    requires s != "" && Digit(s[0])
    ensures Digits(s) > 0
  {
  }

  lemma FractionIs(s: string, from: nat)
    requires from <= |s|
    ensures IsFraction(s[from..FractionEnd(s, from)])
  {
    hide Digits;
    var f := FractionEnd(s, from);
    if f > from {
      DigitsAre(s[from + 1..]);
      assert s[from..f][1..] == s[from + 1..][..f - from - 1];
    }
  }

  lemma ExponentIs(s: string, from: nat)
    requires from <= |s| && ExponentStart(s, from) > from && Digits(s[ExponentStart(s, from)..]) > 0
    ensures var e := ExponentStart(s, from); IsExponent(s[from..e + Digits(s[e..])])
  {
    hide Digits;
    var e := ExponentStart(s, from);
    var n := e + Digits(s[e..]);
    var exponent := s[from..n];
    DigitsAre(s[e..]);
    assert exponent[e - from..] == s[e..][..n - e];
  }

  // ----- A written form is read back ---------------------------------------------------------------------------

  lemma WholeReads(env: Environment, w: Written, tail: string)
    requires w.Whole? && Writable(env, w) && Stops(tail)
    ensures Factor(env, Print(w, tail)) == Ok((Denote(env, w), tail))
  {
    var text := Zeros(w.zeros) + Numeral(w.value);
    NumeralReads(w.zeros, w.value);
    LexReads(text, "", "", tail);
    assert text + "" + "" == text;
    FactorNumber(env, text, tail, Denote(env, w).number, false);
  }

  lemma DecimalReads(env: Environment, w: Written, tail: string)
    requires w.Decimal? && Writable(env, w) && Stops(tail)
    ensures Factor(env, Print(w, tail)) == Ok((Denote(env, w), tail))
  {
    LexReads(w.whole, w.fraction, w.exponent, tail);
    FactorNumber(env, w.whole + w.fraction + w.exponent, tail, Denote(env, w).number, true);
  }

  lemma FactorNumber(env: Environment, text: string, tail: string, number: Columns.Number, floating: bool)
    requires text != "" && Digit(text[0])
    requires Lex(text + tail) == Lexeme(|text|, floating) && NumberOf(env, text, floating) == Ok(number)
    ensures Factor(env, text + tail) == Ok((Literal(number), tail))
  {
    hide Lex, NumberOf;
    var s := text + tail;
    assert s[0] == text[0] && s[..|text|] == text && s[|text|..] == tail;
    assert SkipSpace(s) == s;
  }

  lemma NameReads(env: Environment, name: string, tail: string)
    requires Writable(env, Name(name)) && Stops(tail)
    ensures Factor(env, name + tail) == Ok((Column(name), tail))
  {
    hide NameLength, SkipSpace, Factor;
    var s := name + tail;
    NameStops(name, tail);
    assert s[0] == name[0] && s[..|name|] == name && s[|name|..] == tail;
    assert NameAt(env, s) == Ok((Column(name), tail));
    hide NameAt, Writable;
    FactorName(env, s);
  }

  lemma FactorName(env: Environment, s: string)
    requires s != "" && NameStart(s[0])
    ensures Factor(env, s) == NameAt(env, s)
  {
    assert SkipSpace(s) == s;
    hide SkipSpace, NameAt;
  }

  /** Blanks before a factor, a term or an expression do not matter. */
  lemma BlankBefore(env: Environment, before: string, s: string)
    requires Blank(before)
    ensures Factor(env, before + s) == Factor(env, s)
    ensures Term(env, before + s) == Term(env, s)
    ensures Expression(env, before + s) == Expression(env, s)
  {
    SkipBlank(before, s);
    hide Products, Sums, SkipSpace;
    assert Factor(env, before + s) == Factor(env, s);
    hide Factor;
    assert Term(env, before + s) == Term(env, s);
    hide Term;
  }

  lemma SumsNext(env: Environment, left: Node, op: Operator, before: string, s: string)
    requires (op.Add? || op.Sub?) && Blank(before)
    ensures var right := Term(env, s);
      Sums(env, left, before + ([Symbol(op)] + s)) ==
      if right.Err? then Err(right.error) else Sums(env, Binary(op, left, right.value.0), right.value.1)
  {
    var u := [Symbol(op)] + s;
    SkipBlank(before, u);
    assert u[1..] == s && SkipSpace(u) == u;
    hide Term, SkipSpace;
  }

  lemma ProductsNext(env: Environment, left: Node, op: Operator, before: string, s: string)
    requires (op.Mul? || op.Div?) && Blank(before)
    ensures var right := Factor(env, s);
      Products(env, left, before + ([Symbol(op)] + s)) ==
      if right.Err? then Err(right.error) else Products(env, Binary(op, left, right.value.0), right.value.1)
  {
    var u := [Symbol(op)] + s;
    SkipBlank(before, u);
    assert u[1..] == s && SkipSpace(u) == u;
    hide Factor, SkipSpace;
  }

  /** What may follow an expression: after blanks, nothing, a closing parenthesis, or an operator of a sum. */
  predicate Closes(tail: string) {
    var u := SkipSpace(tail);
    u == "" || u[0] in ")+-"
  }

  lemma SkipTwice(s: string)
    ensures SkipSpace(SkipSpace(s)) == SkipSpace(s)
  {
  }

  lemma ClosesStops(tail: string)
    requires Closes(tail)
    ensures Stops(tail)
  {
  }

  lemma OperatorStops(before: string, op: Operator, s: string)
    requires Blank(before)
    ensures Stops(before + ([Symbol(op)] + s))
    ensures op.Add? || op.Sub? ==> Closes(before + ([Symbol(op)] + s))
  {
    var u := [Symbol(op)] + s;
    SkipBlank(before, u);
    assert SkipSpace(u) == u;
    if before == "" {
      assert before + u == u;
    }
  }

  lemma {:induction false} FactorReads(env: Environment, w: Written, tail: string)
    requires Writable(env, w) && Level(w) == 3 && Stops(tail)
    ensures Factor(env, Print(w, tail)) == Ok((Denote(env, w), tail))
    decreases w, 0
  {
    match w {
      case Whole(_, _) => WholeReads(env, w, tail);
      case Decimal(_, _, _) => DecimalReads(env, w, tail);
      case Name(name) => NameReads(env, name, tail);
      case Signed(minus, after, operand) =>
        FactorReads(env, operand, tail);
        SignReads(env, minus, after, Print(operand, tail), Denote(env, operand), tail);
      case Group(before, inner, after) =>
        var close := after + ([')'] + tail);
        SkipBlank(after, [')'] + tail);
        ExpressionReads(env, inner, close);
        GroupReads(env, before, Print(inner, close), Denote(env, inner), after, tail);
    }
  }

  lemma SignReads(env: Environment, minus: bool, after: string, s: string, operand: Node, tail: string)
    requires Blank(after) && Factor(env, s) == Ok((operand, tail))
    ensures Factor(env, [if minus then '-' else '+'] + (after + s)) == Ok((if minus then Negate(operand) else operand, tail))
  {
    BlankBefore(env, after, s);
    var u := [if minus then '-' else '+'] + (after + s);
    assert u[1..] == after + s && SkipSpace(u) == u;
  }

  lemma GroupReads(env: Environment, before: string, s: string, node: Node, after: string, tail: string)
    requires Blank(before) && Blank(after)
    requires Expression(env, s) == Sums(env, node, after + ([')'] + tail))
    ensures Factor(env, ['('] + (before + s)) == Ok((node, tail))
  {
    BlankBefore(env, before, s);
    var v := [')'] + tail;
    SkipBlank(after, v);
    assert v[1..] == tail && SkipSpace(v) == v;
    var u := ['('] + (before + s);
    assert u[1..] == before + s && SkipSpace(u) == u;
    hide Expression, SkipSpace;
  }

  /** A product goes on with the products that follow it. */
  lemma {:induction false} TermReads(env: Environment, w: Written, tail: string)
    requires Writable(env, w) && Level(w) >= 2 && Stops(tail)
    ensures Term(env, Print(w, tail)) == Products(env, Denote(env, w), tail)
    decreases w, 1
  {
    if Level(w) == 3 {
      FactorReads(env, w, tail);
    } else {
      var s := Print(w.right, tail);
      OperatorStops(w.before, w.op, w.after + s);
      TermReads(env, w.left, w.before + ([Symbol(w.op)] + (w.after + s)));
      FactorReads(env, w.right, tail);
      ProductsNext(env, Denote(env, w.left), w.op, w.before, w.after + s);
      BlankBefore(env, w.after, s);
      hide Factor, Term, Products;
    }
  }

  /** A sum goes on with the sums that follow it. */
  lemma {:induction false} ExpressionReads(env: Environment, w: Written, tail: string)
    requires Writable(env, w) && Closes(tail)
    ensures Expression(env, Print(w, tail)) == Sums(env, Denote(env, w), tail)
    decreases w, 2
  {
    ClosesStops(tail);
    if Level(w) >= 2 {
      TermReads(env, w, tail);
      TermCloses(env, Print(w, tail), Denote(env, w), tail);
    } else {
      var s := Print(w.right, tail);
      OperatorStops(w.before, w.op, w.after + s);
      ExpressionReads(env, w.left, w.before + ([Symbol(w.op)] + (w.after + s)));
      TermReads(env, w.right, tail);
      SumsNext(env, Denote(env, w.left), w.op, w.before, w.after + s);
      BlankBefore(env, w.after, s);
      ProductsClose(env, Denote(env, w.right), tail);
      SumsSkip(env, Denote(env, w), tail);
      hide Factor, Term, Products, Expression, Sums, Closes, Stops, Writable;
    }
  }

  lemma ProductsClose(env: Environment, left: Node, tail: string)
    requires Closes(tail)
    ensures Products(env, left, tail) == Ok((left, SkipSpace(tail)))
  {
  }

  lemma SumsSkip(env: Environment, left: Node, s: string)
    ensures Sums(env, left, SkipSpace(s)) == Sums(env, left, s)
  {
    SkipTwice(s);
    hide Term, SkipSpace;
  }

  lemma TermCloses(env: Environment, s: string, node: Node, tail: string)
    requires Closes(tail) && Term(env, s) == Products(env, node, tail)
    ensures Expression(env, s) == Sums(env, node, tail)
  {
    ProductsClose(env, node, tail);
    SumsSkip(env, node, tail);
    hide Term, Products, Sums, Closes, SkipSpace;
  }

  /** The round trip: every written form of the language parses to the tree it denotes. */
  lemma RoundTrip(env: Environment, lead: string, w: Written, trail: string)
    requires Blank(lead) && Blank(trail) && Writable(env, w)
    ensures Parse(env, lead + Print(w, trail)) == Ok(Denote(env, w))
  {
    var s, node := Print(w, trail), Denote(env, w);
    SkipBlank(trail, "");
    assert trail + "" == trail;
    ExpressionReads(env, w, trail);
    SkipBlank(lead, s);
    var skipped := Skipped(s);
    BlankBefore(env, skipped, SkipSpace(s));
    assert Sums(env, node, trail) == Ok((node, ""));
    hide Expression, Sums, Print, Denote, Writable;
  }

  // ----- What is read is a written form ------------------------------------------------------------------------------

  lemma NumberWritten(env: Environment, s: string) returns (w: Written)
    requires s != "" && Digit(s[0]) && NumberAt(env, s).Ok?
    ensures (w.Whole? || w.Decimal?) && Writable(env, w)
    ensures NumberAt(env, s).value.0 == Denote(env, w) && s == Print(w, NumberAt(env, s).value.1)
  {
    var whole, fraction, exponent := LexIs(s);
    var n := Lex(s).length;
    var text := s[..n];
    assert s == text + s[n..];
    if fraction + exponent == "" {
      assert text == whole;
      var zeros := DigitsAreNumeral(text);
      w := Whole(zeros, IntegerOf(text));
    } else {
      w := Decimal(whole, fraction, exponent);
    }
    hide Lex, Digits, IntegerOf, Zeros, Numeral, AllDigits;
  }

  lemma NameWritten(env: Environment, s: string) returns (w: Written)
    requires s != "" && NameStart(s[0]) && NameAt(env, s).Ok?
    ensures w.Name? && Writable(env, w)
    ensures NameAt(env, s).value.0 == Denote(env, w) && s == Print(w, NameAt(env, s).value.1)
  {
    var n := NameLength(s);
    NamePartsAre(s);
    w := Name(s[..n]);
    assert s == s[..n] + s[n..];
  }

  /** A factor read is a written factor after blanks. */
  lemma {:induction false} FactorWritten(env: Environment, s: string) returns (lead: string, w: Written)
    requires Factor(env, s).Ok?
    ensures Blank(lead) && Writable(env, w) && Level(w) == 3
    ensures Factor(env, s).value.0 == Denote(env, w) && s == lead + Print(w, Factor(env, s).value.1)
    decreases |s|, 0
  {
    hide SkipSpace, Expression, NumberAt, NameAt, Digit, NameStart, Writable, Denote, Print;
    lead := Skipped(s);
    var u := SkipSpace(s);
    FactorSkips(env, s);
    if u[0] == '(' {
      var before, inner, rest := ExpressionWritten(env, u[1..]);
      w := GroupWritten(env, u, before, inner, rest);
    } else if u[0] == '+' || u[0] == '-' {
      var after, operand := FactorWritten(env, u[1..]);
      w := SignWritten(env, u, after, operand);
    } else if Digit(u[0]) {
      w := NumberWritten(env, u);
    } else {
      w := NameWritten(env, u);
    }
    hide Factor;
  }

  lemma FactorSkips(env: Environment, s: string)
    ensures Factor(env, s) == Factor(env, SkipSpace(s))
  {
    SkipTwice(s);
    hide SkipSpace, Expression, NumberAt, NameAt, Digit, NameStart;
  }

  lemma SignWritten(env: Environment, u: string, after: string, operand: Written) returns (w: Written)
    requires u != "" && (u[0] == '+' || u[0] == '-') && Factor(env, u).Ok? && Factor(env, u[1..]).Ok?
    requires Blank(after) && Writable(env, operand) && Level(operand) == 3
    requires Factor(env, u[1..]).value.0 == Denote(env, operand)
    requires u[1..] == after + Print(operand, Factor(env, u[1..]).value.1)
    ensures Writable(env, w) && Level(w) == 3
    ensures Factor(env, u).value.0 == Denote(env, w) && u == Print(w, Factor(env, u).value.1)
  {
    assert SkipSpace(u) == u;
    hide SkipSpace, Expression;
    w := Signed(u[0] == '-', after, operand);
    assert u == [u[0]] + u[1..];
  }

  lemma GroupWritten(env: Environment, u: string, before: string, inner: Written, rest: string) returns (w: Written)
    requires u != "" && u[0] == '(' && Factor(env, u).Ok?
    requires Blank(before) && Writable(env, inner) && u[1..] == before + Print(inner, rest)
    requires Expression(env, u[1..]) == Ok((Denote(env, inner), SkipSpace(rest)))
    ensures Writable(env, w) && Level(w) == 3
    ensures Factor(env, u).value.0 == Denote(env, w) && u == Print(w, Factor(env, u).value.1)
  {
    assert SkipSpace(u) == u;
    hide SkipSpace, Expression;
    var after := Skipped(rest);
    SkipTwice(rest);
    w := Group(before, inner, after);
    var v := SkipSpace(rest);
    assert u == [u[0]] + u[1..] && v == [v[0]] + v[1..];
  }

  /** Products read onto a written product are a written product; blanks after it are left. */
  lemma {:induction false} ProductsWritten(env: Environment, left: Written, s: string) returns (w: Written, rest: string)
    requires Writable(env, left) && Level(left) >= 2
    requires Products(env, Denote(env, left), s).Ok?
    ensures Writable(env, w) && Level(w) >= 2 && Print(w, rest) == Print(left, s) && |rest| <= |s|
    ensures Products(env, Denote(env, left), s) == Ok((Denote(env, w), SkipSpace(rest)))
    decreases |s|, 2
  {
    hide SkipSpace, Factor;
    var before := Skipped(s);
    var u := SkipSpace(s);
    if u != "" && (u[0] == '*' || u[0] == '/') {
      var after, right := FactorWritten(env, u[1..]);
      var more := Factor(env, u[1..]).value.1;
      var op := if u[0] == '*' then Mul else Div;
      var pair := Pair(op, left, before, after, right);
      assert s == before + ([Symbol(op)] + (after + Print(right, more)));
      w, rest := ProductsWritten(env, pair, more);
    } else {
      w, rest := left, s;
    }
  }

  lemma {:induction false} TermWritten(env: Environment, s: string) returns (lead: string, w: Written, rest: string)
    requires Term(env, s).Ok?
    ensures Blank(lead) && Writable(env, w) && Level(w) >= 2 && s == lead + Print(w, rest) && |rest| < |s|
    ensures Term(env, s) == Ok((Denote(env, w), SkipSpace(rest)))
    decreases |s|, 3
  {
    hide SkipSpace, Factor, Products;
    var left: Written;
    lead, left := FactorWritten(env, s);
    w, rest := ProductsWritten(env, left, Factor(env, s).value.1);
  }

  lemma {:induction false} SumsWritten(env: Environment, left: Written, s: string) returns (w: Written, rest: string)
    requires Writable(env, left)
    requires Sums(env, Denote(env, left), s).Ok?
    ensures Writable(env, w) && Print(w, rest) == Print(left, s) && |rest| <= |s|
    ensures Sums(env, Denote(env, left), s) == Ok((Denote(env, w), SkipSpace(rest)))
    decreases |s|, 4
  {
    hide SkipSpace, Term;
    var before := Skipped(s);
    var u := SkipSpace(s);
    if u != "" && (u[0] == '+' || u[0] == '-') {
      var after, right, more := TermWritten(env, u[1..]);
      var op := if u[0] == '+' then Add else Sub;
      var pair := Pair(op, left, before, after, right);
      assert s == before + ([Symbol(op)] + (after + Print(right, more)));
      SumsSkip(env, Denote(env, pair), more);
      w, rest := SumsWritten(env, pair, more);
    } else {
      w, rest := left, s;
    }
  }

  lemma {:induction false} ExpressionWritten(env: Environment, s: string) returns (lead: string, w: Written, rest: string)
    requires Expression(env, s).Ok?
    ensures Blank(lead) && Writable(env, w) && s == lead + Print(w, rest) && |rest| < |s|
    ensures Expression(env, s) == Ok((Denote(env, w), SkipSpace(rest)))
    decreases |s|, 5
  {
    hide SkipSpace, Term, Sums;
    var left: Written;
    var more: string;
    lead, left, more := TermWritten(env, s);
    SumsSkip(env, Denote(env, left), more);
    w, rest := SumsWritten(env, left, more);
  }

  /** The parser accepts exactly the written forms of the language, each with the tree it denotes. */
  lemma ParsesExactly(env: Environment, input: string, node: Node)
    ensures Parse(env, input) == Ok(node) <==> Spells(env, input, node)
  {
    if Parse(env, input) == Ok(node) {
      ParsedIsWritten(env, input, node);
    }
    if Spells(env, input, node) {
      hide Parse, Print, Denote, Writable;
      var lead, w, trail :| SpelledBy(env, input, node, lead, w, trail);
      RoundTrip(env, lead, w, trail);
    }
  }

  lemma ParsedIsWritten(env: Environment, input: string, node: Node)
    requires Parse(env, input) == Ok(node)
    ensures Spells(env, input, node)
  {
    hide Expression, SkipSpace, Print, Denote, Writable;
    var first := Skipped(input);
    var s := SkipSpace(input);
    var lead, w, rest := ExpressionWritten(env, s);
    SkipTwice(rest);
    var trail := Skipped(rest);
    assert trail + "" == trail;
    assert input == (first + lead) + Print(w, rest);
    assert SpelledBy(env, input, node, first + lead, w, rest);
  }

  // ----- The parser ----------------------------------------------------------------------------------------------

  /** What a parsing method reports: the node and, in the position, the rest of the input. */
  ghost predicate Agrees(spec: Parsed, r: Result<Node, ColumnError>, rest: string) {
    if r.Ok? then spec == Ok((r.value, rest)) else spec == Err(r.error)
  }

  class Parser {
    const input: string
    const env: Environment
    var pos: nat

    ghost predicate Valid()
      reads this
    {
      pos <= |input|
    }

    constructor (input: string, env: Environment)
      ensures this.input == input && this.env == env && pos == 0 && Valid()
    {
      this.input, this.env, this.pos := input, env, 0;
    }

    method SkipWhitespace()
      requires Valid()
      modifies this`pos
      ensures Valid() && input[pos..] == SkipSpace(input[old(pos)..]) && pos >= old(pos)
    {
      while pos < |input| && Space(input[pos])
        invariant old(pos) <= pos <= |input| && SkipSpace(input[pos..]) == SkipSpace(input[old(pos)..])
      {
        assert input[pos..][1..] == input[pos + 1..];
        pos := pos + 1;
      }
    }

    method Consume(token: char) returns (found: bool)
      requires Valid()
      modifies this`pos
      ensures Valid() && found == (old(pos) < |input| && input[old(pos)] == token)
      ensures pos == if found then old(pos) + 1 else old(pos)
    {
      found := pos < |input| && input[pos] == token;
      if found {
        pos := pos + 1;
      }
    }

    method SkipDigits()
      requires Valid()
      modifies this`pos
      ensures Valid() && pos == old(pos) + Digits(input[old(pos)..])
    {
      ghost var start := pos;
      while pos < |input| && Digit(input[pos])
        invariant start <= pos <= |input| && start + Digits(input[start..]) == pos + Digits(input[pos..])
      {
        assert input[pos..][1..] == input[pos + 1..];
        pos := pos + 1;
      }
    }

    method SkipFraction(ghost start: nat) returns (floating: bool)
      requires Valid() && start <= pos
      modifies this`pos
      ensures Valid() && pos == start + FractionEnd(input[start..], old(pos) - start)
      ensures floating == (pos > old(pos))
    {
      floating := pos < |input| && input[pos] == '.';
      if floating {
        pos := pos + 1;
        assert input[pos..] == input[start..][pos - start..];
        SkipDigits();
      }
    }

    method SkipExponent(ghost start: nat) returns (present: bool, empty: bool)
      requires Valid() && start <= pos
      modifies this`pos
      ensures var s, from := input[start..], old(pos) - start;
        var e := ExponentStart(s, from);
        && Valid()
        && present == (e > from)
        && empty == (present && Digits(s[e..]) == 0)
        && pos == if present then start + e + Digits(s[e..]) else old(pos)
    {
      present, empty := pos < |input| && (input[pos] == 'e' || input[pos] == 'E'), false;
      if present {
        pos := pos + 1;
        if pos < |input| && (input[pos] == '+' || input[pos] == '-') {
          pos := pos + 1;
        }
        assert input[pos..] == input[start..][pos - start..];
        var exponentStart := pos;
        SkipDigits();
        empty := exponentStart == pos;
      }
    }

    method ParseNumber() returns (r: Result<Node, ColumnError>)
      requires Valid() && pos < |input| && Digit(input[pos])
      modifies this`pos
      ensures Valid() && Agrees(NumberAt(env, input[old(pos)..]), r, input[pos..])
    {
      hide Digits, FractionEnd, ExponentStart, NumberOf;
      var start := pos;
      ghost var s := input[start..];
      SkipDigits();
      var fraction := SkipFraction(start);
      var exponent, empty := SkipExponent(start);
      if empty {
        return Err(Syntax);
      }
      var text := input[start..pos];
      assert s[..|text|] == text && s[|text|..] == input[pos..];
      assert Lex(s) == Lexeme(|text|, fraction || exponent);
      var number := NumberOf(env, text, fraction || exponent);
      r := if number.Ok? then Ok(Literal(number.value)) else Err(number.error);
    }

    method ParseIdentifier() returns (r: Result<Node, ColumnError>)
      requires Valid() && pos < |input| && NameStart(input[pos])
      modifies this`pos
      ensures Valid() && Agrees(NameAt(env, input[old(pos)..]), r, input[pos..])
    {
      hide Parse, Expression, Term, Factor, Sums, Products, NameLength, NamePart, NameStart;
      var start := pos;
      NameStep(input, start);
      StartsName(input[start]);
      pos := pos + 1;
      while pos < |input| && NamePart(input[pos])
        invariant start < pos <= |input| && start + NameLength(input[start..]) == pos + NameLength(input[pos..])
      {
        NameStep(input, pos);
        pos := pos + 1;
      }
      NameEnds(input, pos);
      var name := input[start..pos];
      assert input[start..][..|name|] == name && input[start..][|name|..] == input[pos..];
      if name !in env.schema {
        return Err(UnknownColumn);
      }
      if !Numeric(env.schema[name]) {
        return Err(NotANumber);
      }
      r := Ok(Column(name));
    }

    method ParseFactor() returns (r: Result<Node, ColumnError>)
      requires Valid()
      modifies this`pos
      ensures Valid() && Agrees(Factor(env, input[old(pos)..]), r, input[pos..])
      decreases |input| - pos, 0
    {
      hide Expression, Sums, Term, Products, NumberAt, NameAt, Lex;
      ghost var s := input[pos..];
      SkipWhitespace();
      if pos >= |input| {
        return Err(Syntax);
      }
      ghost var u := input[pos..];
      var current := input[pos];
      if current == '(' {
        assert u[1..] == input[pos + 1..];
        pos := pos + 1;
        r := ParseExpression();
        if r.Err? {
          return;
        }
        SkipWhitespace();
        ghost var v := input[pos..];
        var closed := Consume(')');
        if !closed {
          return Err(Syntax);
        }
        assert v[1..] == input[pos..];
      } else if current == '+' || current == '-' {
        assert u[1..] == input[pos + 1..];
        pos := pos + 1;
        r := ParseFactor();
        if r.Ok? && current == '-' {
          r := Ok(Negate(r.value));
        }
      } else if Digit(current) {
        r := ParseNumber();
      } else if NameStart(current) {
        r := ParseIdentifier();
      } else {
        r := Err(Syntax);
      }
    }

    method ParseTerm() returns (r: Result<Node, ColumnError>)
      requires Valid()
      modifies this`pos
      ensures Valid() && Agrees(Term(env, input[old(pos)..]), r, input[pos..])
      decreases |input| - pos, 1
    {
      hide Factor, Expression, Sums;
      ghost var s := input[pos..];
      r := ParseFactor();
      if r.Err? {
        return;
      }
      var left := r.value;
      while true
        invariant Valid() && |input| - pos < |s| && Products(env, left, input[pos..]) == Term(env, s)
        decreases |input| - pos
      {
        ghost var before := input[pos..];
        SkipWhitespace();
        ghost var u := input[pos..];
        var times := Consume('*');
        var over := false;
        if !times {
          over := Consume('/');
        }
        if !times && !over {
          return Ok(left);
        }
        assert u[1..] == input[pos..];
        var right := ParseFactor();
        if right.Err? {
          return right;
        }
        left := Binary(if times then Mul else Div, left, right.value);
      }
    }

    method ParseExpression() returns (r: Result<Node, ColumnError>)
      requires Valid()
      modifies this`pos
      ensures Valid() && Agrees(Expression(env, input[old(pos)..]), r, input[pos..])
      decreases |input| - pos, 2
    {
      hide Factor, Term, Products;
      ghost var s := input[pos..];
      r := ParseTerm();
      if r.Err? {
        return;
      }
      var left := r.value;
      while true
        invariant Valid() && |input| - pos < |s| && Sums(env, left, input[pos..]) == Expression(env, s)
        decreases |input| - pos
      {
        ghost var before := input[pos..];
        SkipWhitespace();
        ghost var u := input[pos..];
        var plus := Consume('+');
        var minus := false;
        if !plus {
          minus := Consume('-');
        }
        if !plus && !minus {
          return Ok(left);
        }
        assert u[1..] == input[pos..];
        var right := ParseTerm();
        if right.Err? {
          return right;
        }
        left := Binary(if plus then Add else Sub, left, right.value);
      }
    }
  }

  /** Parse a whole input: it is accepted exactly when it is a written form, with the tree that denotes. */
  method ParseColumnExpression(env: Environment, input: string) returns (r: Result<Node, ColumnError>)
    ensures r == Parse(env, input)
    ensures forall node :: r == Ok(node) <==> Spells(env, input, node)
  {
    hide Expression, Spells;
    forall node ensures Parse(env, input) == Ok(node) <==> Spells(env, input, node) {
      ParsesExactly(env, input, node);
    }
    var parser := new Parser(input, env);
    assert input[0..] == input;
    parser.SkipWhitespace();
    r := parser.ParseExpression();
    if r.Err? {
      return;
    }
    parser.SkipWhitespace();
    if parser.pos != |input| {
      return Err(Syntax);
    }
  }
}
