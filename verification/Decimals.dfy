// Arbitrary-precision decimals `coef * 10^exp`, after their documented meaning in
// the decimal library the ledger uses. The exponent is part of the value: precision
// checks look at it, while comparison is numeric.
module Decimals {

  datatype Decimal = Decimal(coef: int, exp: int)

  const ZERO := Decimal(0, 0)
  const ONE := Decimal(1, 0)

  /******* Powers of ten *******/

  // `p` is ten to the n-th, for any integer n.
  ghost predicate IsPow10(n: int, p: real)
    decreases if n < 0 then -n else n
  {
    if n == 0 then p == 1.0 else if n > 0 then IsPow10(n - 1, p / 10.0) else IsPow10(n + 1, p * 10.0)
  }

  lemma {:induction false} Pow10Exists(n: int)
    ensures exists p :: IsPow10(n, p) && p > 0.0
    decreases if n < 0 then -n else n
  {
    if n == 0 {
      assert IsPow10(0, 1.0);
    } else if n > 0 {
      Pow10Exists(n - 1);
      var p :| IsPow10(n - 1, p) && p > 0.0;
      assert IsPow10(n, 10.0 * p);
    } else {
      Pow10Exists(n + 1);
      var p :| IsPow10(n + 1, p) && p > 0.0;
      assert IsPow10(n, p / 10.0);
    }
  }

  lemma {:induction false} Pow10Unique(n: int, p: real, q: real)
    requires IsPow10(n, p) && IsPow10(n, q)
    ensures p == q
    decreases if n < 0 then -n else n
  {
    if n > 0 { Pow10Unique(n - 1, p / 10.0, q / 10.0); }
    if n < 0 { Pow10Unique(n + 1, p * 10.0, q * 10.0); }
  }

  // Ten to the n-th. Defined by choice, so that no proof unfolds it into products.
  ghost function Pow10(n: int): (p: real)
    ensures p > 0.0
  {
    Pow10Exists(n);
    var p :| IsPow10(n, p) && p > 0.0;
    p
  }

  lemma Pow10Zero()
    ensures Pow10(0) == 1.0
  {
    Pow10Unique(0, Pow10(0), 1.0);
  }

  lemma Pow10Succ(n: int)
    ensures Pow10(n + 1) == 10.0 * Pow10(n)
  {
    if n >= 0 {
      assert IsPow10(n, Pow10(n + 1) / 10.0);
      Pow10Unique(n, Pow10(n), Pow10(n + 1) / 10.0);
    } else {
      assert IsPow10(n + 1, Pow10(n) * 10.0);
      Pow10Unique(n + 1, Pow10(n + 1), Pow10(n) * 10.0);
    }
  }

  lemma {:induction false} Pow10Sum(a: int, b: int)
    ensures Pow10(a + b) == Pow10(a) * Pow10(b)
    decreases if b < 0 then -b else b
  {
    if b == 0 {
      Pow10Zero();
    } else if b > 0 {
      Pow10Sum(a, b - 1);
      Pow10Succ(a + (b - 1));
      Pow10Succ(b - 1);
      Scale(10.0, Pow10(a), Pow10(b - 1));
    } else {
      Pow10Sum(a, b + 1);
      Pow10Succ(a + b);
      Pow10Succ(b);
      Scale(10.0, Pow10(a), Pow10(b));
    }
  }

  lemma Scale(k: real, x: real, y: real)
    ensures k * (x * y) == x * (k * y)
  {
  }

  lemma Associate(x: real, y: real, z: real)
    ensures (x * y) * z == x * (y * z)
  {
  }

  lemma Interchange(x: real, y: real, p: real, q: real)
    ensures (x * y) * (p * q) == (x * p) * (y * q)
  {
    Associate(x, y, p * q);
    Scale(y, p, q);
    Associate(x, p, y * q);
  }

  /******* The number a decimal denotes *******/

  // A quantifier over sealed facts is instantiated only where a proof names this.
  ghost predicate Unsealed(n: int) {
    true
  }

  // `v` is the number `d` denotes, as a fact proofs see only by asking.
  ghost predicate IsValue(d: Decimal, v: real) {
    forall n {:trigger Unsealed(n)} :: Unsealed(n) ==> v == d.coef as real * Pow10(d.exp)
  }

  // Sealed, so that no proof unfolds it into products; ValueIs says what it is.
  ghost function Value(d: Decimal): real {
    var product := d.coef as real * Pow10(d.exp);
    assert IsValue(d, product);
    var v :| IsValue(d, v);
    v
  }

  lemma ValueIs(d: Decimal)
    ensures Value(d) == d.coef as real * Pow10(d.exp)
  {
    assert IsValue(d, Value(d)) && Unsealed(0);
  }

  /******* Operations *******/

  // The coefficient of `d` at an exponent no larger than its own.
  function CoefAt(d: Decimal, exp: int): int
    requires exp <= d.exp
    decreases d.exp - exp
  {
    if exp == d.exp then d.coef else 10 * CoefAt(d, exp + 1)
  }

  function MinExp(a: Decimal, b: Decimal): int {
    if a.exp <= b.exp then a.exp else b.exp
  }

  function Add(a: Decimal, b: Decimal): Decimal {
    var e := MinExp(a, b);
    Decimal(CoefAt(a, e) + CoefAt(b, e), e)
  }

  function Neg(d: Decimal): Decimal {
    Decimal(-d.coef, d.exp)
  }

  function Sub(a: Decimal, b: Decimal): Decimal {
    Add(a, Neg(b))
  }

  function Mul(a: Decimal, b: Decimal): Decimal {
    Decimal(a.coef * b.coef, a.exp + b.exp)
  }

  function Abs(d: Decimal): Decimal {
    if d.coef < 0 then Neg(d) else d
  }

  function Shift(d: Decimal, places: int): Decimal {
    Decimal(d.coef, d.exp + places)
  }

  predicate IsZero(d: Decimal) {
    d.coef == 0
  }

  predicate IsPositive(d: Decimal) {
    d.coef > 0
  }

  predicate Equal(a: Decimal, b: Decimal) {
    var e := MinExp(a, b);
    CoefAt(a, e) == CoefAt(b, e)
  }

  predicate GreaterThan(a: Decimal, b: Decimal) {
    var e := MinExp(a, b);
    CoefAt(a, e) > CoefAt(b, e)
  }

  /******* What the operations mean *******/

  lemma IntProduct(x: int, y: int)
    ensures (x * y) as real == x as real * y as real
  {
  }

  lemma {:induction false} CoefAtMeans(d: Decimal, exp: int)
    requires exp <= d.exp
    ensures CoefAt(d, exp) as real * Pow10(exp) == Value(d)
    decreases d.exp - exp
  {
    if exp == d.exp {
      ValueIs(d);
    } else {
      CoefAtMeans(d, exp + 1);
      Pow10Succ(exp);
      Scale(10.0, CoefAt(d, exp + 1) as real, Pow10(exp));
      Associate(10.0, CoefAt(d, exp + 1) as real, Pow10(exp));
    }
  }

  lemma Distribute(x: real, y: real, p: real)
    ensures (x + y) * p == x * p + y * p
  {
  }

  lemma AddMeans(a: Decimal, b: Decimal)
    ensures Value(Add(a, b)) == Value(a) + Value(b)
  {
    var e := MinExp(a, b);
    ValueIs(Add(a, b));
    CoefAtMeans(a, e);
    CoefAtMeans(b, e);
    Distribute(CoefAt(a, e) as real, CoefAt(b, e) as real, Pow10(e));
  }

  lemma NegMeans(d: Decimal)
    ensures Value(Neg(d)) == -Value(d)
  {
    ValueIs(d);
    ValueIs(Neg(d));
    Distribute(d.coef as real, (-d.coef) as real, Pow10(d.exp));
  }

  lemma SubMeans(a: Decimal, b: Decimal)
    ensures Value(Sub(a, b)) == Value(a) - Value(b)
  {
    AddMeans(a, Neg(b));
    NegMeans(b);
  }

  lemma MulMeans(a: Decimal, b: Decimal)
    ensures Value(Mul(a, b)) == Value(a) * Value(b)
  {
    ValueIs(a);
    ValueIs(b);
    ValueIs(Mul(a, b));
    Pow10Sum(a.exp, b.exp);
    IntProduct(a.coef, b.coef);
    Interchange(a.coef as real, b.coef as real, Pow10(a.exp), Pow10(b.exp));
  }

  lemma ShiftMeans(d: Decimal, places: int)
    ensures Value(Shift(d, places)) == Value(d) * Pow10(places)
  {
    ValueIs(d);
    ValueIs(Shift(d, places));
    Pow10Sum(d.exp, places);
    Associate(d.coef as real, Pow10(d.exp), Pow10(places));
  }

  // Multiplying by a positive factor keeps the order.
  lemma OrderOfProducts(x: int, y: int, p: real, u: real, v: real)
    requires p > 0.0 && u == x as real * p && v == y as real * p
    ensures x > y <==> u > v
    ensures x == y <==> u == v
  {
    var d := x as real - y as real;
    assert u - v == d * p;
    if x > y { assert d * p > 0.0; }
    if x < y { assert (-d) * p > 0.0; assert (-d) * p == -(d * p); }
  }

  // Comparison is numeric, whatever the exponents.
  lemma CompareMeans(a: Decimal, b: Decimal)
    ensures Equal(a, b) <==> Value(a) == Value(b)
    ensures GreaterThan(a, b) <==> Value(a) > Value(b)
  {
    var e := MinExp(a, b);
    CoefAtMeans(a, e);
    CoefAtMeans(b, e);
    OrderOfProducts(CoefAt(a, e), CoefAt(b, e), Pow10(e), Value(a), Value(b));
  }

  lemma SignMeans(d: Decimal)
    ensures IsZero(d) <==> Value(d) == 0.0
    ensures IsPositive(d) <==> Value(d) > 0.0
    ensures d.coef < 0 <==> Value(d) < 0.0
  {
    ValueIs(d);
    OrderOfProducts(d.coef, 0, Pow10(d.exp), Value(d), 0.0);
  }

  ghost function RealAbs(x: real): real {
    if x < 0.0 then -x else x
  }

  lemma AbsMeans(d: Decimal)
    ensures Value(Abs(d)) == RealAbs(Value(d))
  {
    SignMeans(d);
    NegMeans(d);
  }

  lemma OneMeans()
    ensures Value(ONE) == 1.0 && Value(ZERO) == 0.0
  {
    Pow10Zero();
    ValueIs(ONE);
    ValueIs(ZERO);
  }

  /******* Dropping digits *******/

  // How a dropped fraction compares with half a unit.
  datatype Tail = Nothing | BelowHalf | Half | AboveHalf

  ghost predicate TailIs(t: Tail, fraction: real) {
    match t
    case Nothing => fraction == 0.0
    case BelowHalf => 0.0 < fraction < 0.5
    case Half => fraction == 0.5
    case AboveHalf => 0.5 < fraction < 1.0
  }

  // Put one more dropped digit in front of a tail.
  function Prepend(digit: int, t: Tail): Tail {
    if digit < 5 then (if digit == 0 && t.Nothing? then Nothing else BelowHalf)
    else if digit == 5 && t.Nothing? then Half
    else AboveHalf
  }

  // Remove the last `n` digits of a coefficient, rounding down.
  function Drop(coef: int, n: nat): (int, Tail) {
    if n == 0 then (coef, Nothing)
    else
      var (k, t) := Drop(coef, n - 1);
      (k / 10, Prepend(k % 10, t))
  }

  // `d` in units of 10^-places: the whole units below it, and what is left over.
  function Units(d: Decimal, places: int): (int, Tail) {
    if d.exp >= -places then (CoefAt(d, -places), Nothing) else Drop(d.coef, -places - d.exp)
  }

  // The value of `d` counted in units of 10^-places.
  ghost function InUnits(d: Decimal, places: int): real {
    Value(Shift(d, places))
  }

  lemma {:induction false} DropMeans(coef: int, n: nat)
    ensures TailIs(Drop(coef, n).1, coef as real * Pow10(-(n as int)) - Drop(coef, n).0 as real)
  {
    if n == 0 {
      Pow10Zero();
    } else {
      DropMeans(coef, n - 1);
      Pow10Succ(-(n as int));
      Scale(10.0, coef as real, Pow10(-(n as int)));
      var (k, t) := Drop(coef, n - 1);
      assert k as real == 10.0 * (k / 10) as real + (k % 10) as real;
    }
  }

  lemma InverseUnit(places: int)
    ensures Pow10(-places) * Pow10(places) == 1.0
  {
    Pow10Sum(-places, places);
    Pow10Zero();
  }

  lemma UnitsMean(d: Decimal, places: int)
    ensures TailIs(Units(d, places).1, InUnits(d, places) - Units(d, places).0 as real)
  {
    var shifted := Shift(d, places);
    if d.exp >= -places {
      CoefAtShifts(d, places, -places);
      CoefAtMeans(shifted, 0);
      Pow10Zero();
    } else {
      ValueIs(shifted);
      DropMeans(d.coef, -places - d.exp);
    }
  }

  lemma {:induction false} CoefAtShifts(d: Decimal, places: int, exp: int)
    requires exp <= d.exp
    ensures CoefAt(Shift(d, places), exp + places) == CoefAt(d, exp)
    decreases d.exp - exp
  {
    if exp < d.exp { CoefAtShifts(d, places, exp + 1); }
  }

  lemma WholeUnits(k: int, places: int)
    ensures InUnits(Decimal(k, -places), places) == k as real
  {
    ValueIs(Decimal(k, 0));
    Pow10Zero();
  }

  // Counting in units keeps the order of decimals.
  lemma CompareUnits(a: Decimal, b: Decimal, places: int)
    ensures Value(a) < Value(b) <==> InUnits(a, places) < InUnits(b, places)
    ensures Value(a) == Value(b) <==> InUnits(a, places) == InUnits(b, places)
  {
    ShiftMeans(a, places);
    ShiftMeans(b, places);
    OrderOfScaled(Value(a), Value(b), Pow10(places), InUnits(a, places), InUnits(b, places));
  }

  lemma OrderOfScaled(x: real, y: real, p: real, u: real, v: real)
    requires p > 0.0 && u == x * p && v == y * p
    ensures x < y <==> u < v
    ensures x == y <==> u == v
  {
    var d := y - x;
    assert v - u == d * p;
    if d > 0.0 { assert d * p > 0.0; }
    if d < 0.0 { assert (-d) * p > 0.0; assert (-d) * p == -(d * p); }
  }

  lemma NegatedUnits(d: Decimal, places: int)
    ensures InUnits(Neg(d), places) == -InUnits(d, places)
  {
    NegMeans(Shift(d, places));
  }

  lemma DifferenceInUnits(a: Decimal, b: Decimal, places: int)
    ensures InUnits(Sub(a, b), places) == InUnits(a, places) - InUnits(b, places)
  {
    SubMeans(a, b);
    ShiftMeans(a, places);
    ShiftMeans(b, places);
    ShiftMeans(Sub(a, b), places);
    Distribute(Value(a), -Value(b), Pow10(places));
    Negate(Value(b), Pow10(places));
  }

  lemma Negate(x: real, p: real)
    ensures (-x) * p == -(x * p)
  {
  }

  // A bound in units is a bound in value.
  lemma BoundInUnits(d: Decimal, bound: real, places: int)
    ensures RealAbs(Value(d)) <= bound * Pow10(-places) <==> -bound <= InUnits(d, places) <= bound
  {
    var u := bound * Pow10(-places);
    ShiftMeans(d, places);
    InverseUnit(places);
    Associate(bound, Pow10(-places), Pow10(places));
    Negate(u, Pow10(places));
    OrderOfScaled(u, Value(d), Pow10(places), bound, InUnits(d, places));
    OrderOfScaled(Value(d), -u, Pow10(places), InUnits(d, places), -bound);
  }

  /******* Rounding primitives *******/

  // Cut the fraction off, keeping the exponent of an integral decimal.
  function TruncateToInteger(d: Decimal): Decimal {
    if d.exp >= 0 then d
    else var (k, t) := Units(d, 0); Decimal(if d.coef >= 0 || t.Nothing? then k else k + 1, 0)
  }

  // Nearest multiple of 10^-places, ties away from zero.
  function RoundAway(d: Decimal, places: int): Decimal {
    var (k, t) := Units(d, places);
    Decimal(if t.AboveHalf? || (t.Half? && d.coef >= 0) then k + 1 else k, -places)
  }

  // Nearest multiple of 10^-places, ties to the even multiple.
  function RoundBank(d: Decimal, places: int): (r: Decimal)
    ensures r.exp == -places
  {
    var (k, t) := Units(d, places);
    Decimal(if t.AboveHalf? || (t.Half? && k % 2 != 0) then k + 1 else k, -places)
  }

  // Largest multiple of 10^-places not above `d`.
  function RoundFloor(d: Decimal, places: int): Decimal {
    if d.exp >= -places then d else Decimal(Units(d, places).0, -places)
  }

  // Smallest multiple of 10^-places not below `d`.
  function RoundCeil(d: Decimal, places: int): Decimal {
    if d.exp >= -places then d
    else var (k, t) := Units(d, places); Decimal(if t.Nothing? then k else k + 1, -places)
  }
}
