// Amounts tagged with their currency.
module Moneys {
  import opened Wrappers
  import opened Text
  import opened Errors
  import opened Decimals
  import opened Currencies
  import opened Rounding

  datatype Money = Money(amount: Decimal, code: string)

  // NewMoney: never rounds; an amount with too many decimal places is rejected.
  function NewMoney(registry: Registry, amount: Decimal, code: string): Result<Money, Failure> {
    match FindRatable(registry, code)
    case Err(sentinel) => Err(Fail(sentinel, "NewMoney", "code"))
    case Ok(c) =>
      if amount.exp < -c.minorUnits then Err(Fail(InvalidPrecision, "NewMoney", "amount"))
      else Ok(Money(amount, c.code))
  }

  function AddMoney(m: Money, other: Money): Result<Money, Failure> {
    if m.code != other.code then Err(Fail(CurrencyMismatch, "Money.Add", "currency"))
    else Ok(Money(Add(m.amount, other.amount), m.code))
  }

  function SubMoney(m: Money, other: Money): Result<Money, Failure> {
    if m.code != other.code then Err(Fail(CurrencyMismatch, "Money.Sub", "currency"))
    else Ok(Money(Sub(m.amount, other.amount), m.code))
  }

  function NegMoney(m: Money): Money {
    Money(Neg(m.amount), m.code)
  }

  // Money in a ratable currency under its canonical code, whose exponent is no finer
  // than the currency's minor unit.
  predicate ValidMoney(registry: Registry, m: Money) {
    && FindRatable(registry, m.code).Ok? && FindRatable(registry, m.code).value.code == m.code
    && m.amount.exp >= -FindRatable(registry, m.code).value.minorUnits
  }

  // NewMoney takes exactly amounts whose exponent is no finer than the minor unit of a
  // ratable currency, keeps them digit for digit, and so never rounds; what it makes is
  // a whole number of minor units, and rebuilding it changes nothing.
  lemma NewMoneyDecides(registry: Registry, amount: Decimal, code: string)
    ensures var made, found := NewMoney(registry, amount, code), FindRatable(registry, code);
            && (made.Ok? <==> found.Ok? && amount.exp >= -found.value.minorUnits)
            && (made.Ok? ==>
                  && made.value.amount == amount && made.value.code == found.value.code
                  && SameSpelling(code, made.value.code) && ValidMoney(registry, made.value)
                  && NewMoney(registry, made.value.amount, made.value.code) == made
                  && exists k: int :: IsUnits(amount, found.value.minorUnits, k))
            && (found.Err? ==> made == Err(Failure(Some(Code(found.error)), "NewMoney", -1, "code", None)))
            && (found.Ok? && made.Err? ==>
                  made == Err(Failure(Some(Code(InvalidPrecision)), "NewMoney", -1, "amount", None)))
  {
    var found := FindRatable(registry, code);
    LookupIgnoresCase(registry, code, code);
    LookupIsCanonical(registry, code, code);
    if found.Ok? && amount.exp >= -found.value.minorUnits {
      UnitsMean(amount, found.value.minorUnits);
      assert IsUnits(amount, found.value.minorUnits, Units(amount, found.value.minorUnits).0);
    }
  }

  // The test is on the exponent, not on the number: an amount may be refused although
  // another decimal of the same value is accepted.
  lemma PrecisionIsByExponent(registry: Registry, code: string)
    requires FindRatable(registry, code).Ok?
    ensures var places := FindRatable(registry, code).value.minorUnits;
            && NewMoney(registry, Decimal(10, -places - 1), code).Err? && NewMoney(registry, Decimal(1, -places), code).Ok?
            && Value(Decimal(10, -places - 1)) == Value(Decimal(1, -places))
  {
    var places := FindRatable(registry, code).value.minorUnits;
    assert CoefAt(Decimal(1, -places), -places - 1) == 10 * CoefAt(Decimal(1, -places), -places);
    CompareMeans(Decimal(10, -places - 1), Decimal(1, -places));
  }

  // Arithmetic is exact, stays within the currency's precision, and subtracting or
  // adding the negation undoes an addition.
  lemma MoneyArithmetic(registry: Registry, m: Money, other: Money)
    requires ValidMoney(registry, m) && ValidMoney(registry, other)
    ensures m.code != other.code ==>
              && AddMoney(m, other) == Err(Failure(Some(Code(CurrencyMismatch)), "Money.Add", -1, "currency", None))
              && SubMoney(m, other) == Err(Failure(Some(Code(CurrencyMismatch)), "Money.Sub", -1, "currency", None))
    ensures m.code == other.code ==>
              AddMoney(m, other).Ok? && SubMoney(m, other).Ok?
              && AddMoney(m, other).value.code == SubMoney(m, other).value.code == NegMoney(m).code == m.code
    ensures ValidMoney(registry, NegMoney(m)) && Value(NegMoney(m).amount) == -Value(m.amount)
    ensures m.code == other.code ==>
              && ValidMoney(registry, AddMoney(m, other).value)
              && ValidMoney(registry, SubMoney(m, other).value)
              && Value(AddMoney(m, other).value.amount) == Value(m.amount) + Value(other.amount)
              && Value(SubMoney(AddMoney(m, other).value, other).value.amount) == Value(m.amount)
              && Equal(SubMoney(m, other).value.amount, AddMoney(m, NegMoney(other)).value.amount)
  {
    NegMeans(m.amount);
    AddMeans(m.amount, other.amount);
    SubMeans(Add(m.amount, other.amount), other.amount);
    CompareMeans(Sub(m.amount, other.amount), Add(m.amount, Neg(other.amount)));
  }
}
