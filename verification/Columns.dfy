/** Column expressions: exact evaluation wrapped once at the end, nulls, and a recursive-descent parser.
    Integers are unbounded as in the source; floating values are exact reals within the finite range. */
module Columns {
  import opened Common
  import opened Keys

  // ----- Values -----------------------------------------------------------------------------------

  datatype DataType = Int32 | Int64 | Uint32 | Uint64 | Float | Double | Other

  datatype Number = Null | Integer(value: int) | Floating(float: real)

  /** What a document holds for a column. */
  datatype Cell = Nil | IntegerCell(value: int) | FloatingCell(float: real) | NotNumeric

  datatype ColumnError = DivisionByZero | NotFinite | NotANumber | NotRepresentable | UnsupportedType | UnknownColumn | Syntax

  datatype Operator = Add | Sub | Mul | Div

  datatype Node =
    | Literal(number: Number)
    | Column(name: string)
    | Negate(operand: Node)
    | Binary(op: Operator, left: Node, right: Node)

  /** The largest finite values of the two floating types. */
  const MAX_DOUBLE: real := ((PowerOfTwo(53) - 1) * PowerOfTwo(971)) as real
  const MAX_FLOAT: real := ((PowerOfTwo(24) - 1) * PowerOfTwo(104)) as real

  predicate Finite(x: real, limit: real) {
    -limit <= x <= limit
  }

  /** Division that truncates toward zero. */
  function Quotient(a: int, b: int): int
    requires b != 0
  {
    var q := (if a < 0 then -a else a) / (if b < 0 then -b else b);
    if (a < 0) == (b < 0) then q else -q
  }

  function AsReal(n: Number): Result<real, ColumnError>
    requires !n.Null?
  {
    if n.Floating? then Ok(n.float)
    else if Finite(n.value as real, MAX_DOUBLE) then Ok(n.value as real)
    else Err(NotFinite)
  }

  function Exact(op: Operator, a: int, b: int): int
    requires op.Div? ==> b != 0
  {
    match op
    case Add => a + b
    case Sub => a - b
    case Mul => a * b
    case Div => Quotient(a, b)
  }

  function ExactReal(op: Operator, x: real, y: real): real
    requires op.Div? ==> y != 0.0
  {
    match op
    case Add => x + y
    case Sub => x - y
    case Mul => x * y
    case Div => x / y
  }

  function Apply(op: Operator, left: Number, right: Number): Result<Number, ColumnError> {
    if left.Null? || right.Null? then Ok(Null)
    else if left.Floating? || right.Floating? then
      var a, b := AsReal(left), AsReal(right);
      if a.Err? then Err(a.error)
      else if b.Err? then Err(b.error)
      else if op.Div? && b.value == 0.0 then Err(DivisionByZero)
      else
        var r := ExactReal(op, a.value, b.value);
        if Finite(r, MAX_DOUBLE) then Ok(Floating(r)) else Err(NotFinite)
    else if op.Div? && right.value == 0 then Err(DivisionByZero)
    else Ok(Integer(Exact(op, left.value, right.value)))
  }

  function FromCell(c: Cell): Result<Number, ColumnError> {
    match c
    case Nil => Ok(Null)
    case IntegerCell(v) => Ok(Integer(v))
    case FloatingCell(x) => Ok(Floating(x))
    case NotNumeric => Err(NotANumber)
  }

  function Evaluate(node: Node, fields: map<string, Cell>): Result<Number, ColumnError> {
    match node
    case Literal(number) => Ok(number)
    case Column(name) => if name in fields then FromCell(fields[name]) else Ok(Null)
    case Negate(operand) =>
      var v := Evaluate(operand, fields);
      if v.Err? || v.value.Null? then v
      else if v.value.Floating? then Ok(Floating(-v.value.float))
      else Ok(Integer(-v.value.value))
    case Binary(op, left, right) =>
      var a := Evaluate(left, fields);
      if a.Err? then Err(a.error)
      else
        var b := Evaluate(right, fields);
        if b.Err? then Err(b.error) else Apply(op, a.value, b.value)
  }

  function Truncate(x: real): int {
    if x >= 0.0 then x.Floor else -((-x).Floor)
  }

  /** Reduce to `bits` bits, two's complement when signed. */
  function Wrap(value: int, bits: nat, signed: bool): int {
    var r := value % PowerOfTwo(bits);
    if signed && bits > 0 && r >= PowerOfTwo(bits - 1) then r - PowerOfTwo(bits) else r
  }

  function Cast(n: Number, target: DataType): Result<Cell, ColumnError> {
    if n.Null? then Ok(Nil)
    else if target.Float? || target.Double? then
      var x := AsReal(n);
      if x.Err? || (target.Float? && !Finite(x.value, MAX_FLOAT)) then Err(NotRepresentable)
      else Ok(FloatingCell(x.value))
    else
      var v := if n.Floating? then Truncate(n.float) else n.value;
      match target
      case Int32 => Ok(IntegerCell(Wrap(v, 32, true)))
      case Int64 => Ok(IntegerCell(Wrap(v, 64, true)))
      case Uint32 => Ok(IntegerCell(Wrap(v, 32, false)))
      case Uint64 => Ok(IntegerCell(Wrap(v, 64, false)))
      case _ => Err(UnsupportedType)
  }

  function EvaluateAs(node: Node, fields: map<string, Cell>, target: DataType): Result<Cell, ColumnError> {
    var v := Evaluate(node, fields);
    if v.Err? then Err(v.error) else Cast(v.value, target)
  }

  // ----- What the operators compute ------------------------------------------------------------------

  /** Integer division truncates toward zero: the remainder is smaller than the divisor and has the sign of
      the dividend. */
  lemma QuotientTruncates(a: int, b: int)
    requires b != 0
    ensures var r := a - Quotient(a, b) * b;
      && (if b > 0 then -b < r < b else b < r < -b)
      && (r > 0 ==> a > 0) && (r < 0 ==> a < 0)
  {
    var x, y := if a < 0 then -a else a, if b < 0 then -b else b;
    Divided(x, y);
    var q := x / y;
    var whole := q * y;
    assert q * b == if b < 0 then -whole else whole;
    assert (-q) * b == -(q * b);
  }

  lemma Divided(x: nat, y: int)
    requires y > 0
    ensures 0 <= x - x / y * y < y && (x == 0 ==> x / y == 0)
  {
  }

  /** Integers in, integer out: adding, subtracting and multiplying are inverted as they should be, and a
      quotient truncates. */
  lemma IntegerLaws(op: Operator, a: int, b: int)
    ensures var r := Apply(op, Integer(a), Integer(b));
      && (op.Div? && b == 0 <==> r == Err(DivisionByZero))
      && ((op.Div? && b == 0) || (r.Ok? && r.value.Integer?))
      && (op.Add? ==> r.value.value - b == a)
      && (op.Sub? ==> r.value.value + b == a)
      && (op.Mul? ==> r.value.value == a * b)
      && (op.Div? && b != 0 ==>
            var rest := a - r.value.value * b;
            (if b > 0 then -b < rest < b else b < rest < -b) && (rest > 0 ==> a > 0) && (rest < 0 ==> a < 0))
  {
    if b != 0 {
      QuotientTruncates(a, b);
    }
    hide Quotient;
  }

  /** The real number a number stands for. */
  function RealOf(n: Number): real
    requires !n.Null?
  {
    if n.Floating? then n.float else n.value as real
  }

  /** With a floating operand both are taken as reals. What the operator did can be undone, and it fails only
      for a division by zero or outside the finite range. */
  lemma FloatingLaws(op: Operator, left: Number, right: Number)
    requires !left.Null? && !right.Null? && (left.Floating? || right.Floating?)
    requires Finite(RealOf(left), MAX_DOUBLE) && Finite(RealOf(right), MAX_DOUBLE)
    ensures var r, x, y := Apply(op, left, right), RealOf(left), RealOf(right);
      && (r.Ok? ==> r.value.Floating? && Finite(r.value.float, MAX_DOUBLE))
      && (r.Ok? && op.Add? ==> r.value.float - y == x)
      && (r.Ok? && op.Sub? ==> r.value.float + y == x)
      && (r.Ok? && op.Mul? ==> r.value.float == x * y)
      && (r.Ok? && op.Div? ==> r.value.float * y == x)
      && (r == Err(DivisionByZero) <==> op.Div? && y == 0.0)
      && (r.Ok? <==> match op
          case Add => Finite(x + y, MAX_DOUBLE)
          case Sub => Finite(x - y, MAX_DOUBLE)
          case Mul => Finite(x * y, MAX_DOUBLE)
          case Div => y != 0.0 && Finite(x / y, MAX_DOUBLE))
  {
    hide PowerOfTwo, MAX_DOUBLE, Finite, Exact;
    var x, y := RealOf(left), RealOf(right);
    assert AsReal(left) == Ok(x) && AsReal(right) == Ok(y);
    hide AsReal, RealOf;
    if op.Div? && y != 0.0 {
      DivideBack(x, y);
    }
  }

  /** An integer beyond the finite range cannot meet a floating value. */
  lemma OutsideRange(op: Operator, left: Number, right: Number)
    requires !left.Null? && !right.Null? && (left.Floating? || right.Floating?)
    requires (left.Integer? && !Finite(RealOf(left), MAX_DOUBLE)) || (right.Integer? && !Finite(RealOf(right), MAX_DOUBLE))
    ensures Apply(op, left, right) == Err(NotFinite)
  {
    hide PowerOfTwo, MAX_DOUBLE, Finite, Exact;
  }

  /** A negated number and the number cancel. */
  lemma NegationCancels(operand: Node, fields: map<string, Cell>)
    ensures var v, r := Evaluate(operand, fields), Evaluate(Negate(operand), fields);
      if v.Err? || v.value.Null? then r == v
      else r.Ok? && r.value.Floating? == v.value.Floating? && !r.value.Null? && RealOf(r.value) + RealOf(v.value) == 0.0
  {
  }

  lemma DivideBack(x: real, y: real)
    requires y != 0.0
    ensures x / y * y == x
  {
  }

  /** Truncation toward zero moves a real by less than one, never past zero. */
  lemma TruncateBounds(x: real)
    ensures x >= 0.0 ==> 0.0 <= Truncate(x) as real <= x < Truncate(x) as real + 1.0
    ensures x <= 0.0 ==> Truncate(x) as real - 1.0 < x <= Truncate(x) as real <= 0.0
  {
  }

  /** A cast to an integer type is the truncated value within the type's range, modulo its size. */
  lemma CastFits(n: Number, target: DataType)
    requires !n.Null? && !target.Float? && !target.Double? && !target.Other?
    ensures var v, r := if n.Floating? then Truncate(n.float) else n.value, Cast(n, target);
      && r.Ok? && r.value.IntegerCell?
      && (target.Int32? ==> -0x8000_0000 <= r.value.value < 0x8000_0000 && (r.value.value - v) % 0x1_0000_0000 == 0)
      && (target.Uint32? ==> 0 <= r.value.value < 0x1_0000_0000 && (r.value.value - v) % 0x1_0000_0000 == 0)
      && (target.Int64? ==> -0x8000_0000_0000_0000 <= r.value.value < 0x8000_0000_0000_0000)
      && (target.Uint64? ==> 0 <= r.value.value < 0x1_0000_0000_0000_0000)
      && (target.Int64? || target.Uint64? ==> (r.value.value - v) % 0x1_0000_0000_0000_0000 == 0)
  {
    PowerValues();
    hide PowerOfTwo, Truncate;
    var v := if n.Floating? then Truncate(n.float) else n.value;
    WrapIs(v, 32, true);
    WrapIs(v, 32, false);
    WrapIs(v, 64, true);
    WrapIs(v, 64, false);
    hide Wrap;
  }

  /** Wrapping moves a value into its range by a multiple of the size. */
  lemma WrapIs(value: int, bits: nat, signed: bool)
    requires bits > 0
    ensures var w, m := Wrap(value, bits, signed), PowerOfTwo(bits);
      (w - value) % m == 0 && if signed then -(PowerOfTwo(bits - 1) as int) <= w < PowerOfTwo(bits - 1) else 0 <= w < m
  {
    var m := PowerOfTwo(bits);
    var w := Wrap(value, bits, signed);
    WrapInRange(value, bits, signed);
    WrapCongruent(value, bits, signed);
    hide PowerOfTwo, Wrap;
    var k: int :| Differs(w, value, m, k);
    ShiftMod(0, m, k);
    assert w - value == 0 + k * m;
  }

  // ----- Nulls --------------------------------------------------------------------------------------

  function References(node: Node): set<string> {
    match node
    case Literal(_) => {}
    case Column(name) => {name}
    case Negate(operand) => References(operand)
    case Binary(_, left, right) => References(left) + References(right)
  }

  predicate NullIn(fields: map<string, Cell>, name: string) {
    name !in fields || fields[name].Nil?
  }

  predicate LiteralsPresent(node: Node) {
    match node
    case Literal(number) => !number.Null?
    case Column(_) => true
    case Negate(operand) => LiteralsPresent(operand)
    case Binary(_, left, right) => LiteralsPresent(left) && LiteralsPresent(right)
  }

  /** A result is null exactly when some referenced column is. */
  lemma {:induction false} NullIffReferenced(node: Node, fields: map<string, Cell>)
    requires LiteralsPresent(node) && Evaluate(node, fields).Ok?
    ensures Evaluate(node, fields).value.Null? <==> exists name :: name in References(node) && NullIn(fields, name)
  {
    match node {
      case Literal(_) =>
      case Column(name) =>
        if Evaluate(node, fields).value.Null? {
          assert name in References(node) && NullIn(fields, name);
        }
      case Negate(operand) => NullIffReferenced(operand, fields);
      case Binary(op, left, right) =>
        NullIffReferenced(left, fields);
        NullIffReferenced(right, fields);
        if name :| name in References(left) && NullIn(fields, name) {
          assert name in References(node);
        } else if name :| name in References(right) && NullIn(fields, name) {
          assert name in References(node);
        }
    }
  }

  // ----- Wrapping once --------------------------------------------------------------------------------

  /** No division, integer literals, and integers in every referenced column. */
  predicate IntegerOnly(node: Node, fields: map<string, Cell>) {
    match node
    case Literal(number) => number.Integer?
    case Column(name) => name in fields && fields[name].IntegerCell?
    case Negate(operand) => IntegerOnly(operand, fields)
    case Binary(op, left, right) => !op.Div? && IntegerOnly(left, fields) && IntegerOnly(right, fields)
  }

  /** Machine arithmetic: operands and every intermediate result are wrapped. */
  function Machine(node: Node, fields: map<string, Cell>, bits: nat, signed: bool): int
    requires IntegerOnly(node, fields)
  {
    match node
    case Literal(number) => Wrap(number.value, bits, signed)
    case Column(name) => Wrap(fields[name].value, bits, signed)
    case Negate(operand) => Wrap(-Machine(operand, fields, bits, signed), bits, signed)
    case Binary(op, left, right) =>
      var a, b := Machine(left, fields, bits, signed), Machine(right, fields, bits, signed);
      Wrap(if op.Add? then a + b else if op.Sub? then a - b else a * b, bits, signed)
  }

  /** Numbers that differ by a multiple of the modulus. */
  ghost predicate Congruent(a: int, b: int, m: int) {
    exists k: int :: Differs(a, b, m, k)
  }

  predicate Differs(a: int, b: int, m: int, k: int) {
    a == b + k * m
  }

  lemma WrapCongruent(value: int, bits: nat, signed: bool)
    ensures Congruent(Wrap(value, bits, signed), value, PowerOfTwo(bits))
  {
    var m := PowerOfTwo(bits);
    var q := value / m;
    assert value == q * m + value % m;
    assert -(q * m) == (-q) * m && -(q * m) - m == (-q - 1) * m;
    assert Differs(value % m, value, m, -q) && Differs(value % m - m, value, m, -q - 1);
  }

  lemma CongruentWraps(a: int, b: int, bits: nat, signed: bool)
    requires Congruent(a, b, PowerOfTwo(bits))
    ensures Wrap(a, bits, signed) == Wrap(b, bits, signed)
  {
    var m := PowerOfTwo(bits);
    var k :| Differs(a, b, m, k);
    ShiftMod(b, m, k);
  }

  lemma ShiftMod(b: int, m: int, k: int)
    requires m > 0
    ensures (b + k * m) % m == b % m
  {
    var q := b / m;
    assert b + k * m == (q + k) * m + b % m;
    UniqueRemainder(b + k * m, m, q + k, b % m);
  }

  lemma UniqueRemainder(a: int, m: int, q: int, r: int)
    requires m > 0 && 0 <= r < m && a == q * m + r
    ensures a % m == r
  {
    var p := a / m;
    var d := p - q;
    assert a == p * m + a % m;
    assert d * m == p * m - q * m;
    assert (-d) * m == -(d * m);
    if d >= 1 {
      AtLeast(d, m);
    } else if d <= -1 {
      AtLeast(-d, m);
    }
  }

  lemma AtLeast(d: int, m: int)
    requires d >= 1 && m > 0
    ensures d * m >= m
  {
    assert (d - 1) * m >= 0;
  }

  lemma CongruentSum(a: int, b: int, c: int, d: int, m: int)
    requires Congruent(a, c, m) && Congruent(b, d, m)
    ensures Congruent(a + b, c + d, m) && Congruent(a - b, c - d, m)
  {
    var j :| Differs(a, c, m, j);
    var k :| Differs(b, d, m, k);
    assert Differs(a + b, c + d, m, j + k) && Differs(a - b, c - d, m, j - k);
  }

  lemma CongruentProduct(a: int, b: int, c: int, d: int, m: int)
    requires Congruent(a, c, m) && Congruent(b, d, m)
    ensures Congruent(a * b, c * d, m)
  {
    var j :| Differs(a, c, m, j);
    var k :| Differs(b, d, m, k);
    assert (c + j * m) * (d + k * m) == c * d + (c * k + j * d + j * k * m) * m;
    assert Differs(a * b, c * d, m, c * k + j * d + j * k * m);
  }

  /** Wrapping the operands first changes nothing once the result is wrapped. */
  lemma WrapOperator(op: Operator, a: int, b: int, bits: nat, signed: bool)
    requires !op.Div?
    ensures var x, y := Wrap(a, bits, signed), Wrap(b, bits, signed);
      Wrap(if op.Add? then x + y else if op.Sub? then x - y else x * y, bits, signed) ==
      Wrap(if op.Add? then a + b else if op.Sub? then a - b else a * b, bits, signed)
  {
    var x, y, m := Wrap(a, bits, signed), Wrap(b, bits, signed), PowerOfTwo(bits);
    WrapCongruent(a, bits, signed);
    WrapCongruent(b, bits, signed);
    hide Wrap, PowerOfTwo, Congruent;
    CongruentSum(x, y, a, b, m);
    CongruentProduct(x, y, a, b, m);
    match op {
      case Add => CongruentWraps(x + y, a + b, bits, signed);
      case Sub => CongruentWraps(x - y, a - b, bits, signed);
      case Mul => CongruentWraps(x * y, a * b, bits, signed);
    }
  }

  /** For division-free integer expressions, exact evaluation with one final wrap is machine arithmetic. */
  lemma {:induction false} WrapOnce(node: Node, fields: map<string, Cell>, bits: nat, signed: bool)
    requires IntegerOnly(node, fields)
    ensures var v := Evaluate(node, fields);
      v.Ok? && v.value.Integer? && Wrap(v.value.value, bits, signed) == Machine(node, fields, bits, signed)
  {
    hide Wrap;
    match node {
      case Literal(_) =>
      case Column(_) =>
      case Negate(operand) =>
        WrapOnce(operand, fields, bits, signed);
        var v := Evaluate(operand, fields).value.value;
        WrapCongruent(v, bits, signed);
        var w := Wrap(v, bits, signed);
        var k :| Differs(w, v, PowerOfTwo(bits), k);
        assert -(k * PowerOfTwo(bits)) == (-k) * PowerOfTwo(bits);
        assert Differs(-w, -v, PowerOfTwo(bits), -k);
        CongruentWraps(-w, -v, bits, signed);
      case Binary(op, left, right) =>
        WrapOnce(left, fields, bits, signed);
        WrapOnce(right, fields, bits, signed);
        var a, b := Evaluate(left, fields).value.value, Evaluate(right, fields).value.value;
        WrapOperator(op, a, b, bits, signed);
    }
  }

  /** The result fits the target type. */
  lemma WrapInRange(value: int, bits: nat, signed: bool)
    requires bits > 0
    ensures if signed then -(PowerOfTwo(bits - 1) as int) <= Wrap(value, bits, signed) < PowerOfTwo(bits - 1)
            else 0 <= Wrap(value, bits, signed) < PowerOfTwo(bits)
  {
  }

  /** With division the two differ: doubling and halving 2^31 as a 32-bit integer. */
  lemma DivisionIsNotMachine()
    ensures var node := Binary(Div, Binary(Mul, Column("x"), Literal(Integer(2))), Literal(Integer(2)));
      var fields: map<string, Cell> := map["x" := IntegerCell(0x4000_0000)];
      && EvaluateAs(node, fields, Int32) == Ok(IntegerCell(0x4000_0000))
      && Quotient(Wrap(Wrap(0x4000_0000, 32, true) * 2, 32, true), 2) == -0x4000_0000
  {
    WrapValues();
    hide Wrap, PowerOfTwo;
  }

  lemma WrapValues()
    ensures Wrap(0x4000_0000, 32, true) == 0x4000_0000 && Wrap(0x8000_0000, 32, true) == -0x8000_0000
  {
    PowerValues();
    hide PowerOfTwo;
  }

  lemma PowerValues()
    ensures PowerOfTwo(31) == 0x8000_0000 && PowerOfTwo(32) == 0x1_0000_0000
    ensures PowerOfTwo(63) == 0x8000_0000_0000_0000 && PowerOfTwo(64) == 0x1_0000_0000_0000_0000
  {
    assert PowerOfTwo(8) == 0x100;
    assert PowerOfTwo(16) == 0x1_0000;
    assert PowerOfTwo(24) == 0x100_0000;
    assert PowerOfTwo(31) == 0x8000_0000;
    assert PowerOfTwo(40) == 0x100_0000_0000;
    assert PowerOfTwo(48) == 0x1_0000_0000_0000;
    assert PowerOfTwo(56) == 0x100_0000_0000_0000;
    assert PowerOfTwo(63) == 0x8000_0000_0000_0000;
  }
}
