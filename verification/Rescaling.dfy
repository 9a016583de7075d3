/** The RaBitQ rescale factor: quantization levels change only at finitely many factors, so one sweep
    over those events, keeping numerator and denominator in step with the codes, finds the best factor
    of a whole interval. Floating point is replaced by exact real arithmetic. */
module Rescaling {
  import opened Common

  // ----- Levels ---------------------------------------------------------------------------

  /** `c` is the floor of `t * mag`, capped. */
  predicate IsLevel(mag: real, t: real, maxCode: nat, c: int) {
    && 0 <= c <= maxCode
    && c as real <= t * mag
    && (c < maxCode ==> t * mag < (c + 1) as real)
  }

  /** The quantizer's level, with the two corrections the source applies against rounding. */
  function QuantizedLevel(mag: real, t: real, maxCode: nat): (c: int)
    requires mag >= 0.0 && t >= 0.0
    ensures IsLevel(mag, t, maxCode, c)
  {
    if mag == 0.0 then 0
    else
      Nonnegative(t, mag);
      var whole := (t * mag).Floor;
      var c := if whole < maxCode then whole else maxCode;
      QuotientBelow(mag, t, c + 1);
      QuotientBelow(mag, t, c);
      if c < maxCode && (c + 1) as real / mag <= t then c + 1
      else if c > 0 && c as real / mag > t then c - 1
      else c
  }

  lemma Nonnegative(t: real, mag: real)
    requires mag >= 0.0 && t >= 0.0
    ensures t * mag >= 0.0
  {
  }

  lemma QuotientBelow(mag: real, t: real, c: int)
    requires mag > 0.0
    ensures c as real / mag <= t <==> c as real <= t * mag
    ensures c as real / mag == t <==> c as real == t * mag
  {
    var q := c as real / mag;
    assert q * mag == c as real;
    assert (t - q) * mag == t * mag - c as real;
    if t > q { assert (t - q) * mag > 0.0; }
    if t < q { assert (q - t) * mag > 0.0; }
  }

  lemma LevelUnique(mag: real, t: real, maxCode: nat, c: int, d: int)
    requires IsLevel(mag, t, maxCode, c) && IsLevel(mag, t, maxCode, d)
    ensures c == d
  {
  }

  /** Until the next event a level stays. */
  lemma LevelStays(mag: real, from: real, t: real, maxCode: nat, c: int)
    requires mag >= 0.0 && 0.0 <= from <= t && IsLevel(mag, from, maxCode, c)
    requires mag > 0.0 && c < maxCode ==> t < (c + 1) as real / mag
    ensures IsLevel(mag, t, maxCode, c)
  {
    assert (t - from) * mag >= 0.0;
    if mag > 0.0 {
      QuotientBelow(mag, t, c + 1);
    }
  }

  /** At its event a level rises by one. */
  lemma LevelRises(mag: real, t: real, maxCode: nat, c: int)
    requires mag > 0.0 && 0 <= c < maxCode && t == (c + 1) as real / mag
    ensures IsLevel(mag, t, maxCode, c + 1)
    ensures (c + 2) as real / mag > t
  {
    QuotientBelow(mag, t, c + 1);
    QuotientBelow(mag, t, c + 2);
  }

  // ----- The objective ----------------------------------------------------------------------

  function Numerator(m: seq<real>, codes: seq<int>): real
    requires |m| == |codes|
  {
    if m == [] then 0.0
    else Numerator(m[..|m| - 1], codes[..|m| - 1]) + (codes[|m| - 1] as real + 0.5) * m[|m| - 1]
  }

  function Denominator(codes: seq<int>): real {
    if codes == [] then 0.0
    else
      Denominator(codes[..|codes| - 1]) + MidpointSquared(codes[|codes| - 1])
  }

  /** `(c + 0.5)` squared. */
  function MidpointSquared(c: int): real {
    (c * c + c) as real + 0.25
  }

  lemma MidpointRaised(c: int, mag: real)
    ensures MidpointSquared(c + 1) == MidpointSquared(c) + (2 * (c + 1)) as real
    ensures ((c + 1) as real + 0.5) * mag == (c as real + 0.5) * mag + mag
  {
    assert (c + 1) * (c + 1) + (c + 1) == c * c + c + 2 * (c + 1);
    var x := c as real + 0.5;
    assert (c + 1) as real + 0.5 == x + 1.0;
    assert (x + 1.0) * mag == x * mag + mag;
  }

  lemma MidpointPositive(c: int)
    requires c >= 0
    ensures MidpointSquared(c) >= 0.25
  {
    assert c * c >= 0;
  }

  lemma {:induction false} DenominatorPositive(codes: seq<int>)
    requires forall i :: 0 <= i < |codes| ==> codes[i] >= 0
    ensures Denominator(codes) >= 0.25 * |codes| as real
  {
    hide MidpointSquared;
    if codes != [] {
      MidpointPositive(codes[|codes| - 1]);
      DenominatorPositive(codes[..|codes| - 1]);
    }
  }

  lemma {:induction false} NumeratorNonnegative(m: seq<real>, codes: seq<int>)
    requires |m| == |codes|
    requires forall i :: 0 <= i < |m| ==> codes[i] >= 0 && m[i] >= 0.0
    ensures Numerator(m, codes) >= 0.0
  {
    if m != [] {
      var n := |m| - 1;
      NumeratorNonnegative(m[..n], codes[..n]);
      Nonnegative(codes[n] as real + 0.5, m[n]);
    }
  }

  /** Raising one code moves both sums by what the sweep adds. */
  lemma {:induction false} RaiseCode(m: seq<real>, codes: seq<int>, i: nat)
    requires |m| == |codes| && i < |m|
    ensures var raised := codes[i := codes[i] + 1];
      && Numerator(m, raised) == Numerator(m, codes) + m[i]
      && Denominator(raised) == Denominator(codes) + (2 * (codes[i] + 1)) as real
    decreases |m|
  {
    hide MidpointSquared;
    var n := |m| - 1;
    var raised := codes[i := codes[i] + 1];
    if i == n {
      assert raised[..n] == codes[..n];
      MidpointRaised(codes[n], m[n]);
    } else {
      assert raised[..n] == codes[..n][i := codes[i] + 1];
      RaiseCode(m[..n], codes[..n], i);
    }
  }

  /** The squared cosine between the magnitudes and the codes moved to the middle of their cells. */
  function Score(numerator: real, denominator: real): real
    requires denominator > 0.0
  {
    numerator * numerator / denominator
  }

  /** Comparing scores is comparing the quotients by the denominators' square roots. */
  lemma ScoreOrder(n1: real, d1: real, root1: real, n2: real, d2: real, root2: real)
    requires n1 >= 0.0 && n2 >= 0.0 && root1 > 0.0 && root2 > 0.0
    requires root1 * root1 == d1 && root2 * root2 == d2 && d1 > 0.0 && d2 > 0.0
    ensures n1 / root1 > n2 / root2 <==> Score(n1, d1) > Score(n2, d2)
  {
    var q1, q2 := n1 / root1, n2 / root2;
    QuotientNonnegative(n1, root1);
    QuotientNonnegative(n2, root2);
    ScoreIsSquare(n1, d1, root1, q1);
    ScoreIsSquare(n2, d2, root2, q2);
    SquareOrder(q1, q2);
  }

  lemma QuotientNonnegative(n: real, root: real)
    requires n >= 0.0 && root > 0.0
    ensures n / root >= 0.0 && n / root * root == n
  {
  }

  lemma ScoreIsSquare(n: real, d: real, root: real, q: real)
    requires root > 0.0 && root * root == d && d > 0.0 && q * root == n
    ensures Score(n, d) == q * q
  {
    var s := n * n / d;
    assert s * d == n * n;
    calc {
      n * n;
      (q * root) * (q * root);
      (q * q) * (root * root);
      (q * q) * d;
    }
    assert (s - q * q) * d == 0.0;
  }

  lemma ProductPositive(a: real, b: real)
    requires a > 0.0 && b > 0.0
    ensures a * b > 0.0
  {
  }

  lemma SquareOrder(a: real, b: real)
    requires a >= 0.0 && b >= 0.0
    ensures a > b <==> a * a > b * b
  {
    if a > b {
      ProductPositive(a - b, a + b);
      assert (a - b) * (a + b) == a * a - b * b;
    } else if a < b {
      ProductPositive(b - a, a + b);
      assert (b - a) * (a + b) == b * b - a * a;
    }
  }

  // ----- What the objective measures ----------------------------------------------------------------------

  /** The middle of the cell `[c, c + 1]`. */
  function Middle(c: int): real {
    (c + (c + 1)) as real / 2.0
  }

  function NormSquared(m: seq<real>): real {
    if m == [] then 0.0 else NormSquared(m[..|m| - 1]) + m[|m| - 1] * m[|m| - 1]
  }

  /** The squared distance between the magnitudes times `s` and the middles of their cells times `t`. */
  function Distance(m: seq<real>, codes: seq<int>, s: real, t: real): (d: real)
    requires |m| == |codes|
  {
    if m == [] then 0.0
    else
      var n := |m| - 1;
      Distance(m[..n], codes[..n], s, t) + Gap(s, m[n], t, codes[n])
  }

  function Gap(s: real, mag: real, t: real, c: int): real {
    Squared(s * mag - t * Middle(c))
  }

  function Squared(x: real): real {
    x * x
  }

  lemma SquaredSign(x: real)
    ensures Squared(x) >= 0.0 && (Squared(x) == 0.0 <==> x == 0.0)
  {
    SquareOrder(if x < 0.0 then -x else x, 0.0);
    assert x * x == (-x) * (-x);
  }

  lemma GapSign(s: real, mag: real, t: real, c: int)
    ensures Gap(s, mag, t, c) >= 0.0 && (Gap(s, mag, t, c) == 0.0 <==> s * mag == t * Middle(c))
  {
    hide Squared, Middle;
    SquaredSign(s * mag - t * Middle(c));
  }

  /** The quadratic form the distance is. */
  function Form(s: real, t: real, a: real, n: real, d: real): real {
    s * s * a - 2.0 * (s * t) * n + t * t * d
  }

  /** The numerator is the inner product with the middles, the denominator their squared norm. */
  lemma {:induction false} DistanceIs(m: seq<real>, codes: seq<int>, s: real, t: real)
    requires |m| == |codes|
    ensures Distance(m, codes, s, t) == Form(s, t, NormSquared(m), Numerator(m, codes), Denominator(codes))
  {
    hide MidpointSquared, Middle, Gap, Form;
    if m == [] {
      FormZero(s, t);
    } else {
      var n := |m| - 1;
      DistanceIs(m[..n], codes[..n], s, t);
      var x, c := m[n], codes[n];
      var a, b, d := NormSquared(m[..n]), Numerator(m[..n], codes[..n]), Denominator(codes[..n]);
      Spread(s, t, a, b, d, x, c);
      assert Distance(m, codes, s, t) == Distance(m[..n], codes[..n], s, t) + Gap(s, x, t, c);
      assert NormSquared(m) == a + x * x && Numerator(m, codes) == b + (c as real + 0.5) * x;
      assert Denominator(codes) == d + MidpointSquared(c);
    }
  }

  lemma FormZero(s: real, t: real)
    ensures Form(s, t, 0.0, 0.0, 0.0) == 0.0
  {
  }

  lemma Spread(s: real, t: real, a: real, n: real, d: real, x: real, c: int)
    ensures Form(s, t, a, n, d) + Gap(s, x, t, c) ==
            Form(s, t, a + x * x, n + (c as real + 0.5) * x, d + MidpointSquared(c))
  {
    var y := Middle(c);
    MiddleIs(c);
    hide Middle, MidpointSquared;
    assert Gap(s, x, t, c) == s * s * (x * x) - 2.0 * (s * t) * (y * x) + t * t * (y * y);
    hide Gap;
    assert s * s * (a + x * x) == s * s * a + s * s * (x * x);
    assert t * t * (d + y * y) == t * t * d + t * t * (y * y);
    assert (s * t) * (n + y * x) == (s * t) * n + (s * t) * (y * x);
  }

  lemma MiddleIs(c: int)
    ensures Middle(c) == c as real + 0.5 && MidpointSquared(c) == Middle(c) * Middle(c)
  {
    var x := c as real;
    assert (c * c) as real == x * x;
    assert (x + 0.5) * (x + 0.5) == x * x + x + 0.25;
  }

  /** The magnitudes are the middles of their cells times one scale. */
  ghost predicate Aligned(m: seq<real>, codes: seq<int>, k: real)
    requires |m| == |codes|
  {
    forall i :: 0 <= i < |m| ==> m[i] == k * Middle(codes[i])
  }

  lemma {:induction false} DistanceZero(m: seq<real>, codes: seq<int>, s: real, t: real)
    requires |m| == |codes|
    ensures Distance(m, codes, s, t) >= 0.0
    ensures Distance(m, codes, s, t) == 0.0 <==> forall i :: 0 <= i < |m| ==> s * m[i] == t * Middle(codes[i])
  {
    hide Middle, Gap;
    if m != [] {
      var n := |m| - 1;
      DistanceZero(m[..n], codes[..n], s, t);
      GapSign(s, m[n], t, codes[n]);
      assert forall i :: 0 <= i < n ==> m[..n][i] == m[i] && codes[..n][i] == codes[i];
    }
  }

  /** Cauchy and Schwarz: no codes score more than the squared norm of the magnitudes, and exactly the codes
      whose cells' middles are aligned with the magnitudes reach it. */
  lemma ScoreBound(m: seq<real>, codes: seq<int>)
    requires |m| == |codes| && Denominator(codes) > 0.0
    ensures Score(Numerator(m, codes), Denominator(codes)) <= NormSquared(m)
    ensures Score(Numerator(m, codes), Denominator(codes)) == NormSquared(m) <==> exists k: real :: Aligned(m, codes, k)
  {
    hide Numerator, Denominator, NormSquared, Distance, Middle, Form;
    var a, n, d := NormSquared(m), Numerator(m, codes), Denominator(codes);
    DistanceIs(m, codes, d, n);
    DistanceZero(m, codes, d, n);
    Discriminant(a, n, d);
    if Score(n, d) == a {
      AlignedBy(m, codes, n, d);
      assert Aligned(m, codes, n / d);
    }
    if k: real :| Aligned(m, codes, k) {
      DistanceIs(m, codes, 1.0, k);
      DistanceZero(m, codes, 1.0, k);
      AlignedScore(a, n, d, k);
    }
  }

  lemma Discriminant(a: real, n: real, d: real)
    requires d > 0.0
    ensures Form(d, n, a, n, d) == d * (d * a - n * n)
    ensures d * (d * a - n * n) >= 0.0 ==> Score(n, d) <= a
    ensures d * (d * a - n * n) == 0.0 <==> Score(n, d) == a
  {
    var q := n * n / d;
    assert q * d == n * n;
    var z := a - q;
    assert d * (d * a - n * n) == d * (d * z);
    if z > 0.0 {
      ProductPositive(d, z);
      ProductPositive(d, d * z);
    } else if z < 0.0 {
      ProductPositive(d, -z);
      ProductPositive(d, d * -z);
    }
  }

  lemma AlignedBy(m: seq<real>, codes: seq<int>, n: real, d: real)
    requires |m| == |codes| && d > 0.0
    requires forall i :: 0 <= i < |m| ==> d * m[i] == n * Middle(codes[i])
    ensures Aligned(m, codes, n / d)
  {
    hide Middle;
    forall i | 0 <= i < |m| ensures m[i] == n / d * Middle(codes[i]) {
      Scaled(m[i], n, d, Middle(codes[i]));
    }
  }

  lemma Scaled(x: real, n: real, d: real, y: real)
    requires d > 0.0 && d * x == n * y
    ensures x == n / d * y
  {
    var q := n / d;
    assert q * d == n;
    assert d * (x - q * y) == d * x - (q * d) * y == 0.0;
  }

  lemma AlignedScore(a: real, n: real, d: real, k: real)
    requires d > 0.0 && d * (d * a - n * n) >= 0.0
    requires Form(1.0, k, a, n, d) == 0.0
    ensures d * (d * a - n * n) == 0.0
  {
    var e := n - k * d;
    assert a == 2.0 * k * n - k * k * d;
    assert d * a - n * n == -(e * e);
    SquaredSign(e);
    if e * e > 0.0 {
      ProductPositive(d, e * e);
      assert d * (d * a - n * n) == -(d * (e * e));
    }
  }

  // ----- The codes of a factor -----------------------------------------------------------------------

  function Levels(m: seq<real>, t: real, maxCode: nat): (codes: seq<int>)
    requires t >= 0.0 && forall i :: 0 <= i < |m| ==> m[i] >= 0.0
    ensures |codes| == |m| && forall i :: 0 <= i < |m| ==> IsLevel(m[i], t, maxCode, codes[i])
  {
    seq(|m|, i requires 0 <= i < |m| => QuantizedLevel(m[i], t, maxCode))
  }

  ghost predicate AtLevels(m: seq<real>, t: real, maxCode: nat, codes: seq<int>) {
    |codes| == |m| && forall i :: 0 <= i < |m| ==> IsLevel(m[i], t, maxCode, codes[i])
  }

  lemma LevelsUnique(m: seq<real>, t: real, maxCode: nat, codes: seq<int>)
    requires t >= 0.0 && (forall i :: 0 <= i < |m| ==> m[i] >= 0.0) && AtLevels(m, t, maxCode, codes)
    ensures codes == Levels(m, t, maxCode)
  {
    forall i | 0 <= i < |m| ensures codes[i] == Levels(m, t, maxCode)[i] {
      LevelUnique(m[i], t, maxCode, codes[i], Levels(m, t, maxCode)[i]);
    }
  }

  /** The objective as a function of the factor alone. */
  function Objective(m: seq<real>, t: real, maxCode: nat): real
    requires m != [] && t >= 0.0 && forall i :: 0 <= i < |m| ==> m[i] >= 0.0
  {
    var codes := Levels(m, t, maxCode);
    DenominatorPositive(codes);
    Score(Numerator(m, codes), Denominator(codes))
  }

  /** The objective never exceeds the squared norm, and reaches it exactly at factors whose levels' cells have
      their middles aligned with the magnitudes. */
  lemma ObjectiveBound(m: seq<real>, maxCode: nat, t: real)
    requires m != [] && Magnitudes(m) && t >= 0.0
    ensures Objective(m, t, maxCode) <= NormSquared(m)
    ensures Objective(m, t, maxCode) == NormSquared(m) <==> exists k: real :: Aligned(m, Levels(m, t, maxCode), k)
  {
    hide Numerator, NormSquared, Aligned, Levels, Score;
    var codes := Levels(m, t, maxCode);
    CodesNonnegative(m, t, maxCode);
    DenominatorPositive(codes);
    hide Denominator;
    ScoreBound(m, codes);
  }

  /** So the factor of greater objective is the one of greater quotient by the square root, as the sweep compares. */
  lemma ObjectiveOrder(m: seq<real>, maxCode: nat, t: real, rootT: real, u: real, rootU: real)
    requires m != [] && Magnitudes(m) && t >= 0.0 && u >= 0.0 && rootT > 0.0 && rootU > 0.0
    requires rootT * rootT == Denominator(Levels(m, t, maxCode)) && rootU * rootU == Denominator(Levels(m, u, maxCode))
    ensures Numerator(m, Levels(m, t, maxCode)) / rootT > Numerator(m, Levels(m, u, maxCode)) / rootU <==>
            Objective(m, t, maxCode) > Objective(m, u, maxCode)
  {
    var a, b := Levels(m, t, maxCode), Levels(m, u, maxCode);
    CodesNonnegative(m, t, maxCode);
    CodesNonnegative(m, u, maxCode);
    NumeratorNonnegative(m, a);
    NumeratorNonnegative(m, b);
    DenominatorPositive(a);
    DenominatorPositive(b);
    hide Numerator, Denominator, Levels, Score;
    ScoreOrder(Numerator(m, a), Denominator(a), rootT, Numerator(m, b), Denominator(b), rootU);
  }

  lemma CodesNonnegative(m: seq<real>, t: real, maxCode: nat)
    requires Magnitudes(m) && t >= 0.0
    ensures forall i :: 0 <= i < |m| ==> Levels(m, t, maxCode)[i] >= 0
  {
  }

  // ----- Events -------------------------------------------------------------------------------

  /** The next event of entry `i`, if it has one before the end. */
  predicate HasEvent(m: seq<real>, codes: seq<int>, maxCode: nat, end: real, i: nat)
    requires |m| == |codes|
  {
    i < |m| && m[i] > 0.0 && codes[i] < maxCode && (codes[i] + 1) as real / m[i] < end
  }

  /** The queue with the next event of entry `i` added. */
  function Enqueued(m: seq<real>, codes: seq<int>, maxCode: nat, end: real, events: map<nat, real>, i: nat): map<nat, real>
    requires |m| == |codes|
  {
    if HasEvent(m, codes, maxCode, end, i) then events[i := (codes[i] + 1) as real / m[i]] else events
  }

  /** The queue holds, for each entry with a next event, when it happens. */
  ghost predicate Queued(m: seq<real>, codes: seq<int>, maxCode: nat, end: real, events: map<nat, real>)
    requires |m| == |codes|
  {
    && (forall i: nat :: i in events <==> HasEvent(m, codes, maxCode, end, i))
    && (forall i: nat :: i in events ==> events[i] == (codes[i] + 1) as real / m[i])
  }

  /** Until the earliest queued event nothing changes. */
  lemma LevelsStay(m: seq<real>, codes: seq<int>, maxCode: nat, end: real, events: map<nat, real>, from: real, t: real)
    requires AtLevels(m, from, maxCode, codes) && Queued(m, codes, maxCode, end, events)
    requires forall i :: 0 <= i < |m| ==> m[i] >= 0.0
    requires 0.0 <= from <= t < end && forall i :: i in events ==> t < events[i]
    ensures AtLevels(m, t, maxCode, codes)
  {
    forall i: nat | i < |m| ensures IsLevel(m[i], t, maxCode, codes[i]) {
      assert i in events <==> HasEvent(m, codes, maxCode, end, i);
      LevelStays(m[i], from, t, maxCode, codes[i]);
    }
  }

  ghost predicate Magnitudes(m: seq<real>) {
    forall i :: 0 <= i < |m| ==> m[i] >= 0.0
  }

  // ----- What is best ---------------------------------------------------------------------------

  /** `best` maximises the objective from `start` to `last`, and is the first factor to do so. */
  ghost predicate BestUpTo(m: seq<real>, maxCode: nat, start: real, best: real, last: real)
    requires m != [] && Magnitudes(m) && start >= 0.0
  {
    && start <= best <= last
    && forall t: real :: start <= t <= last ==>
         Objective(m, t, maxCode) <= Objective(m, best, maxCode)
         && (t < best ==> Objective(m, t, maxCode) < Objective(m, best, maxCode))
  }

  /** `best` maximises the objective over `[start, end)`, and is the first factor to do so. */
  ghost predicate Best(m: seq<real>, maxCode: nat, start: real, best: real, end: real)
    requires m != [] && Magnitudes(m) && start >= 0.0
  {
    && start <= best < end
    && forall t: real :: start <= t < end ==>
         Objective(m, t, maxCode) <= Objective(m, best, maxCode)
         && (t < best ==> Objective(m, t, maxCode) < Objective(m, best, maxCode))
  }

  lemma SameLevelsSameObjective(m: seq<real>, maxCode: nat, codes: seq<int>, t: real)
    requires m != [] && Magnitudes(m) && t >= 0.0 && AtLevels(m, t, maxCode, codes)
    ensures Denominator(codes) > 0.0 && Objective(m, t, maxCode) == Score(Numerator(m, codes), Denominator(codes))
  {
    LevelsUnique(m, t, maxCode, codes);
    DenominatorPositive(codes);
  }

  /** Everywhere between two neighbouring events the objective is what it was after the first. */
  lemma FlatBetween(m: seq<real>, codes: seq<int>, maxCode: nat, end: real, events: map<nat, real>, from: real, t: real)
    requires m != [] && Magnitudes(m) && AtLevels(m, from, maxCode, codes) && Queued(m, codes, maxCode, end, events)
    requires 0.0 <= from <= t < end && forall i :: i in events ==> t < events[i]
    ensures Objective(m, t, maxCode) == Objective(m, from, maxCode)
  {
    LevelsStay(m, codes, maxCode, end, events, from, t);
    SameLevelsSameObjective(m, maxCode, codes, from);
    SameLevelsSameObjective(m, maxCode, codes, t);
  }

  lemma ExtendBest(m: seq<real>, codes: seq<int>, maxCode: nat, start: real, end: real, events: map<nat, real>,
                   from: real, threshold: real, best: real)
    requires m != [] && Magnitudes(m) && AtLevels(m, from, maxCode, codes) && Queued(m, codes, maxCode, end, events)
    requires 0.0 <= start <= from < threshold < end && forall i :: i in events ==> threshold <= events[i]
    requires BestUpTo(m, maxCode, start, best, from)
    ensures BestUpTo(m, maxCode, start,
      if Objective(m, threshold, maxCode) > Objective(m, best, maxCode) then threshold else best, threshold)
  {
    hide Objective, AtLevels, Queued;
    forall t: real | from < t < threshold ensures Objective(m, t, maxCode) == Objective(m, from, maxCode) {
      FlatBetween(m, codes, maxCode, end, events, from, t);
    }
  }

  lemma FinishBest(m: seq<real>, codes: seq<int>, maxCode: nat, start: real, end: real, events: map<nat, real>, from: real, best: real)
    requires m != [] && Magnitudes(m) && AtLevels(m, from, maxCode, codes) && Queued(m, codes, maxCode, end, events)
    requires 0.0 <= start <= from < end && events == map[] && BestUpTo(m, maxCode, start, best, from)
    ensures Best(m, maxCode, start, best, end)
  {
    hide Objective, AtLevels, Queued;
    forall t: real | from < t < end ensures Objective(m, t, maxCode) == Objective(m, from, maxCode) {
      FlatBetween(m, codes, maxCode, end, events, from, t);
    }
  }

  // ----- The sweep -----------------------------------------------------------------------------------

  /** How far the codes may still rise. */
  ghost function Room(codes: seq<int>, maxCode: nat): nat
    requires forall i :: 0 <= i < |codes| ==> codes[i] <= maxCode
  {
    if codes == [] then 0 else Room(codes[..|codes| - 1], maxCode) + maxCode - codes[|codes| - 1]
  }

  lemma {:induction false} RoomShrinks(codes: seq<int>, maxCode: nat, i: nat)
    requires i < |codes| && codes[i] < maxCode && forall j :: 0 <= j < |codes| ==> codes[j] <= maxCode
    ensures Room(codes[i := codes[i] + 1], maxCode) == Room(codes, maxCode) - 1
    decreases |codes|
  {
    var n := |codes| - 1;
    var raised := codes[i := codes[i] + 1];
    if i == n {
      assert raised[..n] == codes[..n];
    } else {
      assert raised[..n] == codes[..n][i := codes[i] + 1];
      RoomShrinks(codes[..n], maxCode, i);
    }
  }

  /** The earliest event, ties broken by entry: the root of the source's heap. */
  method Earliest(events: map<nat, real>) returns (i: nat)
    requires events != map[]
    ensures i in events && forall j :: j in events ==> events[i] < events[j] || (events[i] == events[j] && i <= j)
  {
    var rest := events.Keys;
    i :| i in rest;
    rest := rest - {i};
    while rest != {}
      invariant rest <= events.Keys && i in events
      invariant forall j :: j in events && j !in rest ==> events[i] < events[j] || (events[i] == events[j] && i <= j)
      decreases |rest|
    {
      var j :| j in rest;
      rest := rest - {j};
      if events[j] < events[i] || (events[j] == events[i] && j < i) {
        i := j;
      }
    }
  }

  method EnqueueNext(m: seq<real>, codes: array<int>, maxCode: nat, end: real, events: map<nat, real>, i: nat)
    returns (r: map<nat, real>)
    requires codes.Length == |m| && i < |m|
    ensures r == Enqueued(m, codes[..], maxCode, end, events, i)
  {
    r := events;
    if m[i] > 0.0 && codes[i] < maxCode {
      var next := (codes[i] + 1) as real / m[i];
      if next < end {
        r := events[i := next];
      }
    }
  }

  /** While the events of one threshold are processed: an entry has its level there and a later event,
      or its event is still to come. */
  ghost predicate Crossing(m: seq<real>, codes: seq<int>, maxCode: nat, threshold: real, events: map<nat, real>) {
    && |codes| == |m|
    && (forall i :: i in events ==> threshold <= events[i])
    && (forall i: nat :: i < |m| ==>
          0 <= codes[i] <= maxCode && ((i in events && events[i] == threshold) || IsLevel(m[i], threshold, maxCode, codes[i])))
  }

  lemma StartCrossing(m: seq<real>, codes: seq<int>, maxCode: nat, end: real, from: real, threshold: real, events: map<nat, real>)
    requires Magnitudes(m) && AtLevels(m, from, maxCode, codes) && Queued(m, codes, maxCode, end, events)
    requires 0.0 <= from <= threshold < end && forall i :: i in events ==> threshold <= events[i]
    ensures Crossing(m, codes, maxCode, threshold, events)
  {
    forall i: nat | i < |m| && !(i in events && events[i] == threshold) ensures IsLevel(m[i], threshold, maxCode, codes[i]) {
      assert i in events <==> HasEvent(m, codes, maxCode, end, i);
      LevelStays(m[i], from, threshold, maxCode, codes[i]);
    }
  }

  /** One event: the code rises to its level and the entry's next event, if any, is later. */
  lemma Cross(m: seq<real>, codes: seq<int>, maxCode: nat, end: real, threshold: real, events: map<nat, real>, i: nat)
    requires Crossing(m, codes, maxCode, threshold, events) && Queued(m, codes, maxCode, end, events)
    requires i in events && events[i] == threshold
    ensures i < |m| && codes[i] < maxCode
    ensures var raised := codes[i := codes[i] + 1];
      var next := Enqueued(m, raised, maxCode, end, events - {i}, i);
      Crossing(m, raised, maxCode, threshold, next) && Queued(m, raised, maxCode, end, next)
  {
    hide IsLevel;
    assert HasEvent(m, codes, maxCode, end, i);
    LevelRises(m[i], threshold, maxCode, codes[i]);
    LevelInRange(m[i], threshold, maxCode, codes[i] + 1);
    var raised := codes[i := codes[i] + 1];
    forall j: nat | j != i ensures HasEvent(m, raised, maxCode, end, j) == HasEvent(m, codes, maxCode, end, j) {}
  }

  lemma LevelInRange(mag: real, t: real, maxCode: nat, c: int)
    requires IsLevel(mag, t, maxCode, c)
    ensures 0 <= c <= maxCode
  {
  }

  /** Numerator, denominator, codes and queue agree at a factor. */
  ghost predicate InStep(m: seq<real>, codes: seq<int>, maxCode: nat, end: real, events: map<nat, real>, numerator: real, denominator: real)
    requires |m| == |codes|
  {
    && Queued(m, codes, maxCode, end, events)
    && numerator == Numerator(m, codes)
    && denominator == Denominator(codes)
  }

  lemma CrossInStep(m: seq<real>, codes: seq<int>, maxCode: nat, end: real, threshold: real, events: map<nat, real>, i: nat,
                    numerator: real, denominator: real)
    requires Crossing(m, codes, maxCode, threshold, events) && InStep(m, codes, maxCode, end, events, numerator, denominator)
    requires i in events && events[i] == threshold
    ensures i < |m| && codes[i] < maxCode && forall j :: 0 <= j < |m| ==> codes[j] <= maxCode
    ensures var raised := codes[i := codes[i] + 1];
      var next := Enqueued(m, raised, maxCode, end, events - {i}, i);
      && Crossing(m, raised, maxCode, threshold, next)
      && InStep(m, raised, maxCode, end, next, numerator + m[i], denominator + (2 * raised[i]) as real)
      && (forall j :: 0 <= j < |m| ==> raised[j] <= maxCode)
      && Room(raised, maxCode) == Room(codes, maxCode) - 1
  {
    Cross(m, codes, maxCode, end, threshold, events, i);
    RaiseCode(m, codes, i);
    RoomShrinks(codes, maxCode, i);
  }

  lemma Crossed(m: seq<real>, codes: seq<int>, maxCode: nat, threshold: real, events: map<nat, real>)
    requires Crossing(m, codes, maxCode, threshold, events) && forall i :: i in events ==> events[i] != threshold
    ensures AtLevels(m, threshold, maxCode, codes)
  {
    hide IsLevel;
  }

  /** Process every event of one threshold: each pops, raises its code, moves both sums and queues the
      entry's next event. */
  method CrossThreshold(m: seq<real>, codes: array<int>, maxCode: nat, ghost start: real, end: real, events: map<nat, real>,
                        numerator: real, denominator: real, ghost from: real)
    returns (threshold: real, rest: map<nat, real>, num: real, denom: real)
    requires Magnitudes(m) && codes.Length == |m| && 0.0 <= start <= from < end && events != map[]
    requires AtLevels(m, from, maxCode, codes[..]) && (forall i :: i in events ==> from < events[i])
    requires InStep(m, codes[..], maxCode, end, events, numerator, denominator)
    requires forall j :: 0 <= j < |m| ==> codes[j] <= maxCode
    modifies codes
    ensures from < threshold < end && (forall i :: i in events ==> threshold <= events[i])
    ensures AtLevels(m, threshold, maxCode, codes[..]) && (forall i :: i in rest ==> threshold < rest[i])
    ensures InStep(m, codes[..], maxCode, end, rest, num, denom)
    ensures forall j :: 0 <= j < |m| ==> codes[j] <= maxCode
    ensures Room(codes[..], maxCode) < Room(old(codes[..]), maxCode)
  {
    hide Crossing, InStep, Room, AtLevels, Queued, Magnitudes, IsLevel, Enqueued;
    var first := Earliest(events);
    threshold := events[first];
    EventInRange(m, codes[..], maxCode, end, events, numerator, denominator, first);
    StartCrossing(m, codes[..], maxCode, end, from, threshold, events);
    rest, num, denom := events, numerator, denominator;
    var more := true;
    while more
      invariant codes.Length == |m|
      invariant forall j :: 0 <= j < |m| ==> codes[j] <= maxCode
      invariant Crossing(m, codes[..], maxCode, threshold, rest)
      invariant InStep(m, codes[..], maxCode, end, rest, num, denom)
      invariant more ==> rest != map[] && exists i :: i in rest && rest[i] == threshold
      invariant !more ==> forall i :: i in rest ==> rest[i] != threshold
      invariant Room(codes[..], maxCode) < Room(old(codes[..]), maxCode) || (more && codes[..] == old(codes[..]))
      decreases Room(codes[..], maxCode), more
    {
      var i := Earliest(rest);
      CrossingFrom(m, codes[..], maxCode, threshold, rest);
      CrossInStep(m, codes[..], maxCode, end, threshold, rest, i, num, denom);
      ghost var raised := codes[..][i := codes[i] + 1];
      codes[i] := codes[i] + 1;
      assert codes[..] == raised;
      denom := denom + (2 * codes[i]) as real;
      num := num + m[i];
      rest := EnqueueNext(m, codes, maxCode, end, rest - {i}, i);
      CrossingFrom(m, codes[..], maxCode, threshold, rest);
      more := false;
      if rest != map[] {
        var next := Earliest(rest);
        more := rest[next] == threshold;
      }
    }
    CrossingFrom(m, codes[..], maxCode, threshold, rest);
    Crossed(m, codes[..], maxCode, threshold, rest);
  }

  lemma EventInRange(m: seq<real>, codes: seq<int>, maxCode: nat, end: real, events: map<nat, real>, numerator: real, denominator: real, i: nat)
    requires |m| == |codes| && InStep(m, codes, maxCode, end, events, numerator, denominator) && i in events
    ensures events[i] < end && Queued(m, codes, maxCode, end, events)
  {
    assert HasEvent(m, codes, maxCode, end, i);
  }

  lemma CrossingFrom(m: seq<real>, codes: seq<int>, maxCode: nat, threshold: real, events: map<nat, real>)
    requires Crossing(m, codes, maxCode, threshold, events)
    ensures forall i :: i in events ==> threshold <= events[i]
  {
  }

  // ----- The rescale factor ------------------------------------------------------------------------------

  function MaxCode(bits: nat): nat {
    PowerOfTwo(bits) - 1
  }

  /** The number with these binary digits, least first. */
  function Binary(digits: seq<bool>): nat {
    if digits == [] then 0 else (if digits[0] then 1 else 0) + 2 * Binary(digits[1..])
  }

  /** The largest code is the greatest number of that many bits. */
  lemma {:induction false} MaxCodeIsGreatest(bits: nat)
    ensures forall digits: seq<bool> :: |digits| == bits ==> Binary(digits) <= MaxCode(bits)
    ensures exists digits: seq<bool> :: |digits| == bits && Binary(digits) == MaxCode(bits)
  {
    var top: seq<bool> := [];
    if bits > 0 {
      MaxCodeIsGreatest(bits - 1);
      var more: seq<bool> :| |more| == bits - 1 && Binary(more) == MaxCode(bits - 1);
      top := [true] + more;
      assert top[1..] == more;
    }
    assert |top| == bits && Binary(top) == MaxCode(bits);
    forall digits: seq<bool> | |digits| == bits ensures Binary(digits) <= MaxCode(bits) {
      if bits > 0 {
        assert Binary(digits[1..]) <= MaxCode(bits - 1);
      }
    }
  }

  /** Every code up to the largest has that many bits, so the levels of any factor fit. */
  lemma {:induction false} CodeHasBits(bits: nat, code: nat) returns (digits: seq<bool>)
    requires code <= MaxCode(bits)
    ensures |digits| == bits && Binary(digits) == code
  {
    digits := [];
    if bits > 0 {
      var more := CodeHasBits(bits - 1, code / 2);
      digits := [code % 2 == 1] + more;
      assert digits[1..] == more;
    }
  }

  /** Where the sweep starts, as a share of its end, by number of bits. */
  const STARTS: seq<real> := [0.0, 0.15, 0.20, 0.52, 0.59, 0.71, 0.75, 0.77, 0.81]

  /** The largest magnitude, 0 for none. */
  function Largest(m: seq<real>): (r: real)
    ensures r >= 0.0 && forall i :: 0 <= i < |m| ==> m[i] <= r
    ensures r > 0.0 ==> r in m
  {
    if m == [] then 0.0
    else
      var n := |m| - 1;
      var rest := Largest(m[..n]);
      if m[n] > rest then m[n] else rest
  }

  method LargestMagnitude(m: seq<real>) returns (maxMag: real)
    ensures maxMag == Largest(m)
  {
    maxMag := 0.0;
    for i := 0 to |m|
      invariant maxMag == Largest(m[..i])
    {
      assert m[..i + 1][..i] == m[..i];
      if m[i] > maxMag {
        maxMag := m[i];
      }
    }
    assert m[..|m|] == m;
  }

  /** The interval the sweep covers. */
  function EndOf(m: seq<real>, bits: nat): real
    requires Largest(m) > 0.0
  {
    (MaxCode(bits) + 10) as real / Largest(m)
  }

  function StartOf(m: seq<real>, bits: nat): real
    requires Largest(m) > 0.0 && bits <= 8
  {
    EndOf(m, bits) * STARTS[bits]
  }

  /** The interval in numbers: the end, in units of the largest magnitude, and the start as a percentage of it. */
  lemma IntervalIs(m: seq<real>, bits: nat)
    requires Largest(m) > 0.0 && bits <= 8
    ensures EndOf(m, bits) * Largest(m) == [10, 11, 13, 17, 25, 41, 73, 137, 265][bits] as real
    ensures StartOf(m, bits) * 100.0 == EndOf(m, bits) * [0, 15, 20, 52, 59, 71, 75, 77, 81][bits] as real
  {
    hide PowerOfTwo, Largest;
    SmallPowers(bits);
    var end, share := EndOf(m, bits), STARTS[bits];
    QuotientNonnegative((MaxCode(bits) + 10) as real, Largest(m));
    assert share * 100.0 == [0, 15, 20, 52, 59, 71, 75, 77, 81][bits] as real;
    assert end * share * 100.0 == end * (share * 100.0);
  }

  lemma SmallPowers(bits: nat)
    requires bits <= 8
    ensures PowerOfTwo(bits) == [1, 2, 4, 8, 16, 32, 64, 128, 256][bits]
  {
    assert PowerOfTwo(4) == 16;
  }

  /** The end lies beyond the last event of the largest magnitude, so the sweep can bring it to the largest code. */
  lemma EndReachesMaxCode(m: seq<real>, bits: nat)
    requires Largest(m) > 0.0
    ensures MaxCode(bits) as real / Largest(m) < EndOf(m, bits)
    ensures EndOf(m, bits) > 0.0 && IsLevel(Largest(m), EndOf(m, bits), MaxCode(bits), MaxCode(bits))
  {
    hide MaxCode, Largest;
    var mag, c := Largest(m), MaxCode(bits);
    QuotientNonnegative((c + 10) as real, mag);
    QuotientNonnegative(c as real, mag);
    var gap := EndOf(m, bits) - c as real / mag;
    assert gap * mag == 10.0;
    if gap <= 0.0 {
      QuotientSign(gap, mag);
    }
  }

  lemma QuotientSign(gap: real, mag: real)
    requires gap <= 0.0 && mag > 0.0
    ensures gap * mag <= 0.0
  {
    Nonnegative(-gap, mag);
  }

  /** The levels of any factor, the best one included, are numbers of that many bits. */
  lemma LevelsHaveBits(m: seq<real>, t: real, bits: nat, i: nat)
    requires Magnitudes(m) && t >= 0.0 && i < |m|
    ensures exists digits: seq<bool> :: |digits| == bits && Binary(digits) == Levels(m, t, MaxCode(bits))[i]
  {
    hide MaxCode;
    var c := Levels(m, t, MaxCode(bits))[i];
    assert IsLevel(m[i], t, MaxCode(bits), c);
    var digits := CodeHasBits(bits, c);
  }

  /** Codes, sums and queue at the start of the sweep. */
  method Prepare(m: seq<real>, codes: array<int>, maxCode: nat, start: real, end: real)
    returns (events: map<nat, real>, numerator: real, denominator: real)
    requires Magnitudes(m) && codes.Length == |m| && 0.0 <= start < end
    modifies codes
    ensures AtLevels(m, start, maxCode, codes[..])
    ensures InStep(m, codes[..], maxCode, end, events, numerator, denominator)
  {
    hide IsLevel, HasEvent, MidpointSquared;
    events, numerator, denominator := map[], 0.0, |m| as real * 0.25;
    PreparedNone(m, codes[..], maxCode, start, end, denominator);
    for i := 0 to |m|
      invariant Prepared(m, codes[..], maxCode, start, end, events, numerator, denominator, i)
    {
      var code := QuantizedLevel(m[i], start, maxCode);
      ghost var before := codes[..];
      codes[i] := code;
      PreparedStep(m, before, codes[..], maxCode, start, end, events, numerator, denominator, i);
      denominator := denominator + (code * code + code) as real;
      numerator := numerator + (code as real + 0.5) * m[i];
      events := EnqueueNext(m, codes, maxCode, end, events, i);
    }
    PreparedAll(m, codes[..], maxCode, start, end, events, numerator, denominator);
  }

  /** The first `i` entries are set up; the denominator already counts the others' constant part. */
  ghost predicate Prepared(m: seq<real>, codes: seq<int>, maxCode: nat, start: real, end: real, events: map<nat, real>,
                           numerator: real, denominator: real, i: nat)
  {
    && i <= |m| == |codes|
    && AtLevels(m[..i], start, maxCode, codes[..i])
    && Queued(m[..i], codes[..i], maxCode, end, events)
    && numerator == Numerator(m[..i], codes[..i])
    && denominator == Denominator(codes[..i]) + (|m| - i) as real * 0.25
  }

  lemma PreparedNone(m: seq<real>, codes: seq<int>, maxCode: nat, start: real, end: real, denominator: real)
    requires |m| == |codes| && denominator == |m| as real * 0.25
    ensures Prepared(m, codes, maxCode, start, end, map[], 0.0, denominator, 0)
  {
  }

  lemma PreparedStep(m: seq<real>, before: seq<int>, codes: seq<int>, maxCode: nat, start: real, end: real, events: map<nat, real>,
                     numerator: real, denominator: real, i: nat)
    requires Prepared(m, before, maxCode, start, end, events, numerator, denominator, i) && i < |m|
    requires |codes| == |m| && IsLevel(m[i], start, maxCode, codes[i]) && codes == before[i := codes[i]]
    ensures Prepared(m, codes, maxCode, start, end, Enqueued(m, codes, maxCode, end, events, i),
      numerator + (codes[i] as real + 0.5) * m[i], denominator + (codes[i] * codes[i] + codes[i]) as real, i + 1)
  {
    hide IsLevel;
    var p, q := m[..i + 1], codes[..i + 1];
    assert p[..i] == m[..i] && q[..i] == codes[..i] == before[..i];
    PrefixQueued(m, codes, maxCode, end, i);
    QueuedStep(m, codes, maxCode, end, events, i);
    SumsStep(m, codes, i);
  }

  lemma SumsStep(m: seq<real>, codes: seq<int>, i: nat)
    requires i < |m| == |codes|
    ensures Numerator(m[..i + 1], codes[..i + 1]) == Numerator(m[..i], codes[..i]) + (codes[i] as real + 0.5) * m[i]
    ensures Denominator(codes[..i + 1]) == Denominator(codes[..i]) + 0.25 + (codes[i] * codes[i] + codes[i]) as real
  {
    assert m[..i + 1][..i] == m[..i] && codes[..i + 1][..i] == codes[..i];
  }

  lemma QueuedStep(m: seq<real>, codes: seq<int>, maxCode: nat, end: real, events: map<nat, real>, i: nat)
    requires i < |m| == |codes| && Queued(m[..i], codes[..i], maxCode, end, events)
    ensures Queued(m[..i + 1], codes[..i + 1], maxCode, end, Enqueued(m, codes, maxCode, end, events, i))
  {
    PrefixQueued(m, codes, maxCode, end, i);
    var next := Enqueued(m, codes, maxCode, end, events, i);
    assert !HasEvent(m[..i], codes[..i], maxCode, end, i);
    forall j: nat ensures j in next <==> HasEvent(m[..i + 1], codes[..i + 1], maxCode, end, j) {}
  }

  lemma PreparedAll(m: seq<real>, codes: seq<int>, maxCode: nat, start: real, end: real, events: map<nat, real>,
                    numerator: real, denominator: real)
    requires Prepared(m, codes, maxCode, start, end, events, numerator, denominator, |m|)
    ensures |m| == |codes| && AtLevels(m, start, maxCode, codes) && InStep(m, codes, maxCode, end, events, numerator, denominator)
  {
    assert m[..|m|] == m && codes[..|codes|] == codes;
  }

  lemma PrefixQueued(m: seq<real>, codes: seq<int>, maxCode: nat, end: real, i: nat)
    requires |m| == |codes| && i < |m|
    ensures forall j: nat {:trigger HasEvent(m[..i + 1], codes[..i + 1], maxCode, end, j)} :: j < i ==>
      HasEvent(m[..i + 1], codes[..i + 1], maxCode, end, j) == HasEvent(m[..i], codes[..i], maxCode, end, j)
    ensures HasEvent(m[..i + 1], codes[..i + 1], maxCode, end, i) == HasEvent(m, codes, maxCode, end, i)
  {
  }

  /** The best factor between the start and the end of the sweep; 0 when every magnitude is 0. */
  method BestRescaleFactor(m: seq<real>, bits: nat) returns (best: real)
    requires Magnitudes(m) && bits <= 8
    ensures Largest(m) == 0.0 ==> best == 0.0
    ensures Largest(m) > 0.0 ==>
      m != [] && StartOf(m, bits) >= 0.0 && Best(m, MaxCode(bits), StartOf(m, bits), best, EndOf(m, bits))
  {
    hide Best, MaxCode;
    if |m| == 0 {
      return 0.0;
    }
    var maxMag := LargestMagnitude(m);
    if maxMag == 0.0 {
      return 0.0;
    }
    var maxCode := MaxCode(bits);
    var end := (maxCode + 10) as real / maxMag;
    var start := end * STARTS[bits];
    EndPositive(maxCode, maxMag);
    StartBeforeEnd(end, STARTS[bits]);
    best := Sweep(m, maxCode, start, end);
  }

  /** The sweep from the start to the end of the interval. */
  method Sweep(m: seq<real>, maxCode: nat, start: real, end: real) returns (best: real)
    requires Magnitudes(m) && m != [] && 0.0 <= start < end
    ensures Best(m, maxCode, start, best, end)
  {
    hide InStep, Room, AtLevels, Queued, IsLevel, BestUpTo, Best, Objective, Score, Numerator, Denominator;
    var codes := new int[|m|];
    var events, numerator, denominator := Prepare(m, codes, maxCode, start, end);
    ScoreInStep(m, codes[..], maxCode, start, end, events, numerator, denominator);
    var bestScore := Score(numerator, denominator);
    best := start;
    ghost var from := start;
    BestAtStart(m, maxCode, start);
    while events != map[]
      invariant start <= from < end && AtLevels(m, from, maxCode, codes[..]) && (forall i :: i in events ==> from < events[i])
      invariant InStep(m, codes[..], maxCode, end, events, numerator, denominator)
      invariant forall j :: 0 <= j < |m| ==> codes[j] <= maxCode
      invariant BestUpTo(m, maxCode, start, best, from) && best >= start && bestScore == Objective(m, best, maxCode)
      decreases Room(codes[..], maxCode)
    {
      ghost var before, was, last := codes[..], events, from;
      ScoreInStep(m, before, maxCode, last, end, events, numerator, denominator);
      var threshold;
      threshold, events, numerator, denominator := CrossThreshold(m, codes, maxCode, start, end, events, numerator, denominator, from);
      ExtendBest(m, before, maxCode, start, end, was, last, threshold, best);
      from := threshold;
      ScoreInStep(m, codes[..], maxCode, from, end, events, numerator, denominator);
      var score := Score(numerator, denominator);
      if score > bestScore {
        bestScore, best := score, threshold;
      }
    }
    ScoreInStep(m, codes[..], maxCode, from, end, events, numerator, denominator);
    FinishBest(m, codes[..], maxCode, start, end, events, from, best);
  }

  lemma BestAtStart(m: seq<real>, maxCode: nat, start: real)
    requires m != [] && Magnitudes(m) && start >= 0.0
    ensures BestUpTo(m, maxCode, start, start, start)
  {
    hide Objective;
  }

  /** The sums in step give the objective. */
  lemma ScoreInStep(m: seq<real>, codes: seq<int>, maxCode: nat, t: real, end: real, events: map<nat, real>, numerator: real, denominator: real)
    requires m != [] && Magnitudes(m) && t >= 0.0 && AtLevels(m, t, maxCode, codes)
    requires |m| == |codes| && InStep(m, codes, maxCode, end, events, numerator, denominator)
    ensures denominator > 0.0 && Score(numerator, denominator) == Objective(m, t, maxCode)
    ensures Queued(m, codes, maxCode, end, events)
    ensures forall i :: i in events ==> t < events[i]
    ensures forall j :: 0 <= j < |m| ==> codes[j] <= maxCode
  {
    SameLevelsSameObjective(m, maxCode, codes, t);
    EventsLater(m, codes, maxCode, end, events, t);
  }

  lemma EndPositive(maxCode: nat, maxMag: real)
    requires maxMag > 0.0
    ensures (maxCode + 10) as real / maxMag > 0.0
  {
  }

  lemma StartBeforeEnd(end: real, share: real)
    requires end > 0.0 && 0.0 <= share < 1.0
    ensures 0.0 <= end * share < end
  {
    assert end * (1.0 - share) > 0.0;
  }

  lemma EventsLater(m: seq<real>, codes: seq<int>, maxCode: nat, end: real, events: map<nat, real>, from: real)
    requires AtLevels(m, from, maxCode, codes) && Queued(m, codes, maxCode, end, events)
    ensures forall i :: i in events ==> from < events[i]
    ensures forall j :: 0 <= j < |m| ==> codes[j] <= maxCode
  {
    hide IsLevel;
    forall i | i in events ensures from < events[i] {
      assert HasEvent(m, codes, maxCode, end, i);
      NextIsLater(m[i], from, maxCode, codes[i]);
    }
    forall j | 0 <= j < |m| ensures codes[j] <= maxCode {
      LevelInRange(m[j], from, maxCode, codes[j]);
    }
  }

  lemma NextIsLater(mag: real, from: real, maxCode: nat, c: int)
    requires mag > 0.0 && c < maxCode && IsLevel(mag, from, maxCode, c)
    ensures from < (c + 1) as real / mag
  {
    QuotientBelow(mag, from, c + 1);
  }
}
