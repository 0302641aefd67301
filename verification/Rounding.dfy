// Rounding to a currency's minor units: the six modes, what each returns, and the
// laws they obey.
module Rounding {
  import opened Wrappers
  import opened Errors
  import opened Decimals
  import opened Currencies

  datatype Mode = HalfEven | HalfUp | HalfDown | Floor | Ceiling | Unnecessary | Other(n: nat)

  const HALF_UNIT := Decimal(5, -1)

  function RoundHalfDown(amount: Decimal, places: int): Decimal {
    var scaled := Shift(amount, places);
    var truncated := TruncateToInteger(scaled);
    if Equal(Abs(Sub(scaled, truncated)), HALF_UNIT) then Shift(truncated, -places)
    else RoundAway(amount, places)
  }

  function RoundUnnecessary(amount: Decimal, places: int): Result<Decimal, Sentinel> {
    var rounded := RoundAway(amount, places);
    if Equal(amount, rounded) then Ok(rounded) else Err(InexactRounding)
  }

  // The mode switch of Round, at a known number of minor units.
  function RoundTo(amount: Decimal, places: int, mode: Mode): Result<Decimal, Sentinel> {
    match mode
    case HalfEven => Ok(RoundBank(amount, places))
    case HalfUp => Ok(RoundAway(amount, places))
    case HalfDown => Ok(RoundHalfDown(amount, places))
    case Floor => Ok(RoundFloor(amount, places))
    case Ceiling => Ok(RoundCeil(amount, places))
    case Unnecessary => RoundUnnecessary(amount, places)
    case Other(_) => Err(InvalidRoundingMode)
  }

  function Round(registry: Registry, amount: Decimal, code: string, mode: Mode): Result<Decimal, Failure> {
    match FindRatable(registry, code)
    case Err(sentinel) => Err(Fail(sentinel, "Round", "code"))
    case Ok(c) =>
      match RoundTo(amount, c.minorUnits, mode)
      case Ok(rounded) => Ok(rounded)
      case Err(sentinel) => Err(Fail(sentinel, "Round", if mode.Unnecessary? then "amount" else "mode"))
  }

  /******* What each mode means *******/

  ghost predicate Near(x: real, k: int) {
    -0.5 <= x - k as real <= 0.5
  }

  ghost predicate Tie(x: real, k: int) {
    x - k as real == 0.5 || x - k as real == -0.5
  }

  // `k` is the whole number that `mode` rounds `x` to.
  ghost predicate Rounds(mode: Mode, x: real, k: int) {
    match mode
    case HalfEven => Near(x, k) && (Tie(x, k) ==> k % 2 == 0)
    case HalfUp => Near(x, k) && (Tie(x, k) ==> RealAbs(k as real) > RealAbs(x))
    case HalfDown => Near(x, k) && (Tie(x, k) ==> RealAbs(k as real) < RealAbs(x))
    case Floor => k as real <= x < (k + 1) as real
    case Ceiling => (k - 1) as real < x <= k as real
    case Unnecessary => x == k as real
    case Other(_) => false
  }

  lemma RoundsUnique(mode: Mode, x: real, k: int, l: int)
    requires Rounds(mode, x, k) && Rounds(mode, x, l)
    ensures k == l
  {
    RoundsMonotone(mode, x, x, k, l);
    RoundsMonotone(mode, x, x, l, k);
  }

  lemma RoundsMonotone(mode: Mode, x: real, y: real, k: int, l: int)
    requires x <= y && Rounds(mode, x, k) && Rounds(mode, y, l)
    ensures k <= l
  {
  }

  // The decimal `r` is `k` units of 10^-places.
  ghost predicate IsUnits(r: Decimal, places: int, k: int) {
    InUnits(r, places) == k as real
  }

  // Each mode succeeds as documented, and its result is the one multiple of
  // 10^-places that meets the mode's definition.
  lemma RoundToMeets(amount: Decimal, places: int, mode: Mode)
    ensures RoundTo(amount, places, mode).Ok? <==>
              !mode.Other? && (mode.Unnecessary? ==> exists k :: IsUnits(amount, places, k))
    ensures RoundTo(amount, places, mode).Ok? ==>
              var r := RoundTo(amount, places, mode).value;
              && (exists k :: IsUnits(r, places, k))
              && (forall k :: IsUnits(r, places, k) <==> Rounds(mode, InUnits(amount, places), k))
  {
    match mode
    case HalfEven => RoundBankMeets(amount, places);
    case HalfUp => RoundAwayMeets(amount, places);
    case HalfDown => RoundHalfDownMeets(amount, places);
    case Floor => RoundFloorMeets(amount, places);
    case Ceiling => RoundCeilMeets(amount, places);
    case Unnecessary => RoundUnnecessaryMeets(amount, places);
    case Other(_) =>
  }

  // It is enough to exhibit the number of units.
  lemma UnitsDecide(r: Decimal, x: real, places: int, mode: Mode, k: int)
    requires IsUnits(r, places, k) && Rounds(mode, x, k)
    ensures exists l :: IsUnits(r, places, l)
    ensures forall l :: IsUnits(r, places, l) <==> Rounds(mode, x, l)
  {
    forall l | Rounds(mode, x, l) ensures l == k { RoundsUnique(mode, x, k, l); }
    forall l | IsUnits(r, places, l) ensures l == k { }
  }

  // The coefficient HalfEven rounding produces, counted in units.
  lemma RoundBankCount(amount: Decimal, places: int)
    ensures IsUnits(RoundBank(amount, places), places, RoundBank(amount, places).coef)
    ensures Rounds(HalfEven, InUnits(amount, places), RoundBank(amount, places).coef)
  {
    UnitsMean(amount, places);
    WholeUnits(RoundBank(amount, places).coef, places);
  }

  lemma RoundBankMeets(amount: Decimal, places: int)
    ensures exists k :: IsUnits(RoundBank(amount, places), places, k)
    ensures forall k :: IsUnits(RoundBank(amount, places), places, k) <==> Rounds(HalfEven, InUnits(amount, places), k)
  {
    var r := RoundBank(amount, places);
    RoundBankCount(amount, places);
    UnitsDecide(r, InUnits(amount, places), places, HalfEven, r.coef);
  }

  // A decimal and its count of units have the same sign.
  lemma UnitsSign(d: Decimal, places: int)
    ensures d.coef > 0 <==> InUnits(d, places) > 0.0
    ensures d.coef < 0 <==> InUnits(d, places) < 0.0
  {
    SignMeans(Shift(d, places));
  }

  lemma RoundAwayMeets(amount: Decimal, places: int)
    ensures IsUnits(RoundAway(amount, places), places, RoundAway(amount, places).coef)
    ensures forall k :: IsUnits(RoundAway(amount, places), places, k) <==> Rounds(HalfUp, InUnits(amount, places), k)
  {
    var r := RoundAway(amount, places);
    UnitsMean(amount, places);
    UnitsSign(amount, places);
    WholeUnits(r.coef, places);
    UnitsDecide(r, InUnits(amount, places), places, HalfUp, r.coef);
  }

  lemma RoundFloorMeets(amount: Decimal, places: int)
    ensures exists k :: IsUnits(RoundFloor(amount, places), places, k)
    ensures forall k :: IsUnits(RoundFloor(amount, places), places, k) <==> Rounds(Floor, InUnits(amount, places), k)
  {
    var k := Units(amount, places).0;
    UnitsMean(amount, places);
    WholeUnits(k, places);
    UnitsDecide(RoundFloor(amount, places), InUnits(amount, places), places, Floor, k);
  }

  lemma RoundCeilMeets(amount: Decimal, places: int)
    ensures exists k :: IsUnits(RoundCeil(amount, places), places, k)
    ensures forall k :: IsUnits(RoundCeil(amount, places), places, k) <==> Rounds(Ceiling, InUnits(amount, places), k)
  {
    var (k, t) := Units(amount, places);
    var l := if t.Nothing? then k else k + 1;
    UnitsMean(amount, places);
    WholeUnits(l, places);
    UnitsDecide(RoundCeil(amount, places), InUnits(amount, places), places, Ceiling, l);
  }

  // Truncation keeps the whole part and drops a fraction of the same sign.
  lemma TruncateMeans(d: Decimal) returns (k: int)
    ensures Value(TruncateToInteger(d)) == k as real
    ensures d.coef >= 0 ==> 0.0 <= Value(d) - k as real < 1.0 && k >= 0
    ensures d.coef <= 0 ==> -1.0 < Value(d) - k as real <= 0.0 && k <= 0
  {
    var t := TruncateToInteger(d);
    Pow10Zero();
    UnitsMean(d, 0);
    SignMeans(d);
    if d.exp >= 0 {
      k := CoefAt(d, 0);
      CoefAtMeans(d, 0);
    } else {
      k := t.coef;
      ValueIs(t);
    }
  }

  // The test compares the dropped fraction with one half.
  lemma HalfDownTest(scaled: Decimal, k: int)
    requires Value(TruncateToInteger(scaled)) == k as real
    ensures Equal(Abs(Sub(scaled, TruncateToInteger(scaled))), HALF_UNIT)
       <==> Tie(Value(scaled), k)
  {
    var truncated := TruncateToInteger(scaled);
    SubMeans(scaled, truncated);
    AbsMeans(Sub(scaled, truncated));
    HalfMeans();
    CompareMeans(Abs(Sub(scaled, truncated)), HALF_UNIT);
  }

  // Next to its whole part, a number that does not tie there ties nowhere.
  lemma NoTie(x: real, k: int, l: int)
    requires -1.0 < x - k as real < 1.0 && !Tie(x, k) && Rounds(HalfUp, x, l)
    ensures Rounds(HalfDown, x, l)
  {
    assert Tie(x, l) ==> l == k || l == k + 1 || l == k - 1;
  }

  // The shift, truncate and compare-to-half test is nearest with ties toward zero.
  lemma RoundHalfDownMeets(amount: Decimal, places: int)
    ensures exists k :: IsUnits(RoundHalfDown(amount, places), places, k)
    ensures forall k :: IsUnits(RoundHalfDown(amount, places), places, k)
                   <==> Rounds(HalfDown, InUnits(amount, places), k)
  {
    var x, scaled := InUnits(amount, places), Shift(amount, places);
    var truncated := TruncateToInteger(scaled);
    var k := TruncateMeans(scaled);
    HalfDownTest(scaled, k);
    if Tie(x, k) {
      assert Shift(Shift(truncated, -places), places) == truncated;
      UnitsDecide(RoundHalfDown(amount, places), x, places, HalfDown, k);
    } else {
      var l := RoundAway(amount, places).coef;
      RoundAwayMeets(amount, places);
      NoTie(x, k, l);
      UnitsDecide(RoundHalfDown(amount, places), x, places, HalfDown, l);
    }
  }

  lemma HalfMeans()
    ensures Value(HALF_UNIT) == 0.5
  {
    ValueIs(HALF_UNIT);
    Pow10Zero();
    Pow10Succ(-1);
  }

  lemma RoundUnnecessaryMeets(amount: Decimal, places: int)
    ensures RoundUnnecessary(amount, places).Ok? <==> exists k :: IsUnits(amount, places, k)
    ensures RoundUnnecessary(amount, places).Ok? ==>
              var r := RoundUnnecessary(amount, places).value;
              && (exists k :: IsUnits(r, places, k))
              && (forall k :: IsUnits(r, places, k) <==> Rounds(Unnecessary, InUnits(amount, places), k))
  {
    var r := RoundAway(amount, places);
    RoundAwayMeets(amount, places);
    CompareMeans(amount, r);
    CompareUnits(amount, r, places);
    if k :| IsUnits(amount, places, k) {
      assert Rounds(HalfUp, InUnits(amount, places), k);
      assert IsUnits(r, places, k);
    }
    if RoundUnnecessary(amount, places).Ok? {
      UnitsDecide(r, InUnits(amount, places), places, Unnecessary, r.coef);
      assert IsUnits(amount, places, r.coef);
    }
  }

  // Round as a whole: the currency is checked first, then the mode, then exactness.
  lemma RoundDecides(registry: Registry, amount: Decimal, code: string, mode: Mode)
    ensures var rounded, found := Round(registry, amount, code, mode), FindRatable(registry, code);
            match rounded
            case Ok(r) =>
              && found.Ok? && !mode.Other?
              && (exists k :: IsUnits(r, found.value.minorUnits, k))
              && (forall k :: IsUnits(r, found.value.minorUnits, k)
                         <==> Rounds(mode, InUnits(amount, found.value.minorUnits), k))
            case Err(failure) =>
              if found.Err? then failure == Failure(Some(Code(found.error)), "Round", -1, "code", None)
              else if mode.Other? then failure == Failure(Some(Code(InvalidRoundingMode)), "Round", -1, "mode", None)
              else mode.Unnecessary? && failure == Failure(Some(Code(InexactRounding)), "Round", -1, "amount", None)
                   && forall k :: !IsUnits(amount, found.value.minorUnits, k)
  {
    if FindRatable(registry, code).Ok? {
      RoundToMeets(amount, FindRatable(registry, code).value.minorUnits, mode);
    }
  }

  /******* The laws of rounding *******/

  predicate AlwaysRounds(mode: Mode) {
    !mode.Unnecessary? && !mode.Other?
  }

  predicate HalfMode(mode: Mode) {
    mode.HalfEven? || mode.HalfUp? || mode.HalfDown?
  }

  // The amount a total mode returns.
  function Rounded(amount: Decimal, places: int, mode: Mode): Decimal {
    if RoundTo(amount, places, mode).Ok? then RoundTo(amount, places, mode).value else amount
  }

  // The mode that rounds a negated amount to the negated result.
  function Mirror(mode: Mode): Mode {
    match mode
    case Floor => Ceiling
    case Ceiling => Floor
    case _ => mode
  }

  lemma CountUnits(amount: Decimal, places: int, mode: Mode) returns (k: int)
    requires AlwaysRounds(mode)
    ensures IsUnits(Rounded(amount, places, mode), places, k)
    ensures Rounds(mode, InUnits(amount, places), k)
  {
    RoundToMeets(amount, places, mode);
    k :| IsUnits(Rounded(amount, places, mode), places, k);
  }

  lemma OrderByUnits(r: Decimal, s: Decimal, places: int, k: int, l: int)
    requires IsUnits(r, places, k) && IsUnits(s, places, l)
    ensures k <= l <==> Value(r) <= Value(s)
  {
    CompareUnits(s, r, places);
  }

  lemma RoundingIsIdempotent(amount: Decimal, places: int, mode: Mode)
    requires AlwaysRounds(mode)
    ensures Value(Rounded(Rounded(amount, places, mode), places, mode)) == Value(Rounded(amount, places, mode))
  {
    var once := Rounded(amount, places, mode);
    var k := CountUnits(amount, places, mode);
    var l := CountUnits(once, places, mode);
    RoundsUnique(mode, k as real, k, l);
    CompareUnits(Rounded(once, places, mode), once, places);
  }

  lemma RoundingIsMonotone(a: Decimal, b: Decimal, places: int, mode: Mode)
    requires AlwaysRounds(mode) && Value(a) <= Value(b)
    ensures Value(Rounded(a, places, mode)) <= Value(Rounded(b, places, mode))
  {
    var k := CountUnits(a, places, mode);
    var l := CountUnits(b, places, mode);
    CompareUnits(b, a, places);
    RoundsMonotone(mode, InUnits(a, places), InUnits(b, places), k, l);
    OrderByUnits(Rounded(a, places, mode), Rounded(b, places, mode), places, k, l);
  }

  // Rounding a negated amount negates the mirrored rounding: the half modes commute
  // with negation, and floor and ceiling are each other's mirror.
  lemma RoundingMirrors(amount: Decimal, places: int, mode: Mode)
    requires AlwaysRounds(mode)
    ensures Value(Rounded(Neg(amount), places, mode)) == -Value(Rounded(amount, places, Mirror(mode)))
  {
    var mirrored := Rounded(amount, places, Mirror(mode));
    var k := CountUnits(Neg(amount), places, mode);
    var l := CountUnits(amount, places, Mirror(mode));
    NegatedUnits(amount, places);
    RoundsUnique(mode, InUnits(Neg(amount), places), k, -l);
    NegatedUnits(mirrored, places);
    NegMeans(mirrored);
    CompareUnits(Rounded(Neg(amount), places, mode), Neg(mirrored), places);
  }

  // HalfEven rounding of a negated amount is the negated decimal, digit for digit.
  lemma RoundBankNegates(amount: Decimal, places: int)
    ensures RoundBank(Neg(amount), places) == Neg(RoundBank(amount, places))
  {
    RoundBankCount(amount, places);
    RoundBankCount(Neg(amount), places);
    NegatedUnits(amount, places);
    RoundsUnique(HalfEven, InUnits(Neg(amount), places),
                 RoundBank(Neg(amount), places).coef, -RoundBank(amount, places).coef);
  }

  lemma RoundingIsBracketed(amount: Decimal, places: int, mode: Mode)
    requires HalfMode(mode)
    ensures Value(Rounded(amount, places, Floor)) <= Value(Rounded(amount, places, mode))
         <= Value(Rounded(amount, places, Ceiling))
  {
    var f := CountUnits(amount, places, Floor);
    var k := CountUnits(amount, places, mode);
    var c := CountUnits(amount, places, Ceiling);
    OrderByUnits(Rounded(amount, places, Floor), Rounded(amount, places, mode), places, f, k);
    OrderByUnits(Rounded(amount, places, mode), Rounded(amount, places, Ceiling), places, k, c);
  }

  // The half modes err by at most half a unit.
  lemma RoundingErrorBound(amount: Decimal, places: int, mode: Mode)
    requires HalfMode(mode)
    ensures RealAbs(Value(Rounded(amount, places, mode)) - Value(amount)) <= 0.5 * Pow10(-places)
  {
    var k := CountUnits(amount, places, mode);
    NearBound(amount, Rounded(amount, places, mode), places, k);
  }

  lemma NearBound(amount: Decimal, r: Decimal, places: int, k: int)
    requires IsUnits(r, places, k) && Near(InUnits(amount, places), k)
    ensures RealAbs(Value(r) - Value(amount)) <= 0.5 * Pow10(-places)
  {
    DifferenceInUnits(r, amount, places);
    BoundInUnits(Sub(r, amount), 0.5, places);
    SubMeans(r, amount);
  }
}
