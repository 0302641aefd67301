// Transaction line items: construction, re-validation, and the functional amount.
module Entries {
  import opened Wrappers
  import opened Text
  import opened Errors
  import opened Decimals
  import opened Currencies
  import opened Rounding
  import opened Moneys

  datatype Entry = Entry(
    accountID: string,
    txAmount: Decimal, txCurrency: string, exchangeRate: Decimal,
    functionalAmount: Decimal, functionalCurrency: string,
    txMoney: Money, functionalMoney: Money)

  const ZERO_ENTRY := Entry("", ZERO, "", ZERO, ZERO, "", Money(ZERO, ""), Money(ZERO, ""))

  const NEW := "NewEntry"
  const VALIDATE := "Entry.Validate"

  // The canonical currency codes of an entry.
  datatype Fields = Fields(txCurrency: string, functionalCurrency: string)

  function LookupRatable(registry: Registry, code: string, operation: string, field: string)
    : Result<CurrencyTable.Entry, Failure>
  {
    match Lookup(registry, code)
    case Err(failure) => Err(Rewrap(Validation(FRESH, failure), operation, field))
    case Ok(c) => if c.ratable then Ok(c) else Err(Fail(CurrencyNotRatable, operation, field))
  }

  function ValidateFields(
    registry: Registry, accountID: string, txAmount: Decimal, txCurrency: string,
    exchangeRate: Decimal, functionalCurrency: string, operation: string): Result<Fields, Failure>
  {
    if !ValidAccountID(accountID) then Err(Fail(InvalidAccountID, operation, "accountID"))
    else
      match LookupRatable(registry, txCurrency, operation, "txCurrency")
      case Err(failure) => Err(failure)
      case Ok(tx) =>
        match LookupRatable(registry, functionalCurrency, operation, "functionalCurrency")
        case Err(failure) => Err(failure)
        case Ok(functional) =>
          if txAmount.exp < -tx.minorUnits then Err(Fail(InvalidPrecision, operation, "txAmount"))
          else if IsZero(txAmount) then Err(Fail(ZeroAmount, operation, "txAmount"))
          else if !IsPositive(exchangeRate) then Err(Fail(InvalidExchangeRate, operation, "exchangeRate"))
          else if tx.code == functional.code && !Equal(exchangeRate, ONE) then
            Err(Fail(InvalidExchangeRate, operation, "exchangeRate"))
          else Ok(Fields(tx.code, functional.code))
  }

  function NewEntry(
    registry: Registry, accountID: string, txAmount: Decimal, txCurrency: string,
    exchangeRate: Decimal, functionalCurrency: string): Result<Entry, Failure>
  {
    match ValidateFields(registry, accountID, txAmount, txCurrency, exchangeRate, functionalCurrency, NEW)
    case Err(failure) => Err(failure)
    case Ok(fields) =>
      match Round(registry, Mul(txAmount, exchangeRate), fields.functionalCurrency, HalfEven)
      case Err(failure) => Err(Rewrap(Validation(FRESH, failure), NEW, "functionalCurrency"))
      case Ok(functionalAmount) =>
        if !IsZero(txAmount) && IsZero(functionalAmount) then
          Err(Fail(FunctionalAmountZero, NEW, "functionalAmount"))
        else
          match NewMoney(registry, txAmount, fields.txCurrency)
          case Err(failure) => Err(Rewrap(Validation(FRESH, failure), NEW, "txAmount"))
          case Ok(txMoney) =>
            match NewMoney(registry, functionalAmount, fields.functionalCurrency)
            case Err(failure) => Err(Rewrap(Validation(FRESH, failure), NEW, "functionalAmount"))
            case Ok(functionalMoney) =>
              Ok(Entry(accountID, txAmount, fields.txCurrency, exchangeRate, functionalAmount,
                       fields.functionalCurrency, txMoney, functionalMoney))
  }

  function ValidateStoredValues(e: Entry, fields: Fields): Option<Failure> {
    if e.txCurrency != fields.txCurrency || e.functionalCurrency != fields.functionalCurrency then
      Some(Fail(InvalidEntry, VALIDATE, "entry"))
    else if !Equal(e.txMoney.amount, e.txAmount) || e.txMoney.code != fields.txCurrency then
      Some(Fail(InvalidEntry, VALIDATE, "entry"))
    else if !Equal(e.functionalMoney.amount, e.functionalAmount)
            || e.functionalMoney.code != fields.functionalCurrency then
      Some(Fail(InvalidEntry, VALIDATE, "functionalAmount"))
    else None
  }

  // Entry.Validate: the failure, if any.
  function Validate(registry: Registry, e: Entry): Option<Failure> {
    if e == ZERO_ENTRY then Some(Fail(InvalidEntry, VALIDATE, "entry"))
    else
      match ValidateFields(registry, e.accountID, e.txAmount, e.txCurrency, e.exchangeRate, e.functionalCurrency, VALIDATE)
      case Err(failure) => Some(failure)
      case Ok(fields) =>
        match Round(registry, Mul(e.txAmount, e.exchangeRate), fields.functionalCurrency, HalfEven)
        case Err(failure) => Some(Rewrap(Validation(FRESH, failure), VALIDATE, "functionalAmount"))
        case Ok(expected) =>
          if IsZero(expected) then Some(Fail(InvalidEntry, VALIDATE, "functionalAmount"))
          else if !Equal(e.functionalAmount, expected) then Some(Fail(InvalidEntry, VALIDATE, "functionalAmount"))
          else ValidateStoredValues(e, fields)
  }

  /******* What construction accepts *******/

  // The smallest amount of a currency.
  ghost function MinorUnit(registry: Registry, code: string): real {
    if FindRatable(registry, code).Ok? then Pow10(-FindRatable(registry, code).value.minorUnits) else 1.0
  }

  predicate Ratable(registry: Registry, code: string) {
    FindRatable(registry, code).Ok?
  }

  // The documented conditions on the fields of an entry, on real numbers.
  ghost predicate FieldsOk(
    registry: Registry, accountID: string, txAmount: Decimal, txCurrency: string,
    exchangeRate: Decimal, functionalCurrency: string)
  {
    && ValidAccountID(accountID)
    && Ratable(registry, txCurrency) && Ratable(registry, functionalCurrency)
    && txAmount.exp >= -FindRatable(registry, txCurrency).value.minorUnits
    && Value(txAmount) != 0.0
    && Value(exchangeRate) > 0.0
    && (Upper(txCurrency) == Upper(functionalCurrency) ==> Value(exchangeRate) == 1.0)
  }

  lemma RatableIsCanonical(registry: Registry, code: string)
    requires Ratable(registry, code)
    ensures FindRatable(registry, code).value.code == Upper(code)
    ensures FindRatable(registry, Upper(code)) == FindRatable(registry, code)
    ensures MinorUnit(registry, Upper(code)) == MinorUnit(registry, code)
  {
    LookupIsCanonical(registry, code, code);
  }

  lemma FieldsDecide(
    registry: Registry, accountID: string, txAmount: Decimal, txCurrency: string,
    exchangeRate: Decimal, functionalCurrency: string, operation: string)
    ensures ValidateFields(registry, accountID, txAmount, txCurrency, exchangeRate, functionalCurrency, operation).Ok?
       <==> FieldsOk(registry, accountID, txAmount, txCurrency, exchangeRate, functionalCurrency)
    ensures var fields := ValidateFields(registry, accountID, txAmount, txCurrency, exchangeRate, functionalCurrency, operation);
            fields.Ok? ==> fields.value == Fields(Upper(txCurrency), Upper(functionalCurrency))
  {
    SignMeans(txAmount);
    SignMeans(exchangeRate);
    OneMeans();
    CompareMeans(exchangeRate, ONE);
    if Ratable(registry, txCurrency) && Ratable(registry, functionalCurrency) {
      RatableIsCanonical(registry, txCurrency);
      RatableIsCanonical(registry, functionalCurrency);
    }
  }

  // The conditions in the order they are checked.
  datatype FieldCheck =
    | AccountIDOk | TxCurrencyOk | FunctionalCurrencyOk | PrecisionOk | AmountOk | RateOk | SameCurrencyOk

  const FIELD_ORDER: seq<FieldCheck> := [
    AccountIDOk, TxCurrencyOk, FunctionalCurrencyOk, PrecisionOk, AmountOk, RateOk, SameCurrencyOk]

  ghost predicate FieldHolds(
    registry: Registry, accountID: string, txAmount: Decimal, txCurrency: string,
    exchangeRate: Decimal, functionalCurrency: string, check: FieldCheck)
  {
    match check
    case AccountIDOk => ValidAccountID(accountID)
    case TxCurrencyOk => Ratable(registry, txCurrency)
    case FunctionalCurrencyOk => Ratable(registry, functionalCurrency)
    case PrecisionOk =>
      Ratable(registry, txCurrency) ==> txAmount.exp >= -FindRatable(registry, txCurrency).value.minorUnits
    case AmountOk => Value(txAmount) != 0.0
    case RateOk => Value(exchangeRate) > 0.0
    case SameCurrencyOk => Upper(txCurrency) == Upper(functionalCurrency) ==> Value(exchangeRate) == 1.0
  }

  // The failure that names a broken condition.
  function FieldFailure(
    registry: Registry, txCurrency: string, functionalCurrency: string, operation: string, check: FieldCheck): Failure
  {
    match check
    case AccountIDOk => Failure(Some(Code(InvalidAccountID)), operation, -1, "accountID", None)
    case TxCurrencyOk => Failure(Some(Code(CodeError(registry, txCurrency))), operation, -1, "txCurrency", None)
    case FunctionalCurrencyOk =>
      Failure(Some(Code(CodeError(registry, functionalCurrency))), operation, -1, "functionalCurrency", None)
    case PrecisionOk => Failure(Some(Code(InvalidPrecision)), operation, -1, "txAmount", None)
    case AmountOk => Failure(Some(Code(ZeroAmount)), operation, -1, "txAmount", None)
    case RateOk => Failure(Some(Code(InvalidExchangeRate)), operation, -1, "exchangeRate", None)
    case SameCurrencyOk => Failure(Some(Code(InvalidExchangeRate)), operation, -1, "exchangeRate", None)
  }

  // Why a code names no ratable currency.
  function CodeError(registry: Registry, code: string): Sentinel {
    if !ValidCode(code) then InvalidCurrencyCode
    else if Upper(code) !in registry then UnknownCurrency
    else CurrencyNotRatable
  }

  // Where the scan of the conditions stops: the number of the first broken one.
  function FirstBrokenField(
    registry: Registry, accountID: string, txAmount: Decimal, txCurrency: string,
    exchangeRate: Decimal, functionalCurrency: string): nat
  {
    if !ValidAccountID(accountID) then 0
    else if !Ratable(registry, txCurrency) then 1
    else if !Ratable(registry, functionalCurrency) then 2
    else if txAmount.exp < -FindRatable(registry, txCurrency).value.minorUnits then 3
    else if IsZero(txAmount) then 4
    else if !IsPositive(exchangeRate) then 5
    else 6
  }

  lemma FirstBrokenFieldIsFirst(
    registry: Registry, accountID: string, txAmount: Decimal, txCurrency: string,
    exchangeRate: Decimal, functionalCurrency: string)
    requires !FieldsOk(registry, accountID, txAmount, txCurrency, exchangeRate, functionalCurrency)
    ensures var n := FirstBrokenField(registry, accountID, txAmount, txCurrency, exchangeRate, functionalCurrency);
            && n < |FIELD_ORDER|
            && !FieldHolds(registry, accountID, txAmount, txCurrency, exchangeRate, functionalCurrency, FIELD_ORDER[n])
            && forall m :: 0 <= m < n ==>
                 FieldHolds(registry, accountID, txAmount, txCurrency, exchangeRate, functionalCurrency, FIELD_ORDER[m])
  {
    SignMeans(txAmount);
    SignMeans(exchangeRate);
  }

  // Invalid fields are reported by the first broken condition in the fixed order.
  lemma FieldsReportFirstBroken(
    registry: Registry, accountID: string, txAmount: Decimal, txCurrency: string,
    exchangeRate: Decimal, functionalCurrency: string, operation: string)
    requires !FieldsOk(registry, accountID, txAmount, txCurrency, exchangeRate, functionalCurrency)
    ensures exists n :: 0 <= n < |FIELD_ORDER|
              && !FieldHolds(registry, accountID, txAmount, txCurrency, exchangeRate, functionalCurrency, FIELD_ORDER[n])
              && (forall m :: 0 <= m < n ==>
                    FieldHolds(registry, accountID, txAmount, txCurrency, exchangeRate, functionalCurrency, FIELD_ORDER[m]))
              && ValidateFields(registry, accountID, txAmount, txCurrency, exchangeRate, functionalCurrency, operation)
              == Err(FieldFailure(registry, txCurrency, functionalCurrency, operation, FIELD_ORDER[n]))
  {
    FirstBrokenFieldIsFirst(registry, accountID, txAmount, txCurrency, exchangeRate, functionalCurrency);
    FieldsFailAtFirst(registry, accountID, txAmount, txCurrency, exchangeRate, functionalCurrency, operation);
  }

  lemma FieldsFailAtFirst(
    registry: Registry, accountID: string, txAmount: Decimal, txCurrency: string,
    exchangeRate: Decimal, functionalCurrency: string, operation: string)
    requires !FieldsOk(registry, accountID, txAmount, txCurrency, exchangeRate, functionalCurrency)
    ensures ValidateFields(registry, accountID, txAmount, txCurrency, exchangeRate, functionalCurrency, operation)
         == Err(FieldFailure(registry, txCurrency, functionalCurrency, operation,
                FIELD_ORDER[FirstBrokenField(registry, accountID, txAmount, txCurrency, exchangeRate, functionalCurrency)]))
  {
    FieldsDecide(registry, accountID, txAmount, txCurrency, exchangeRate, functionalCurrency, operation);
  }

  // The functional amount of a conversion, at the functional currency's minor units.
  function Converted(registry: Registry, txAmount: Decimal, exchangeRate: Decimal, functionalCurrency: string): Decimal
    requires Ratable(registry, functionalCurrency)
  {
    RoundBank(Mul(txAmount, exchangeRate), FindRatable(registry, functionalCurrency).value.minorUnits)
  }

  // With acceptable fields the only failure left is a functional amount that rounds
  // to zero: rounding and both money constructions succeed.
  lemma ConstructionIsTotal(
    registry: Registry, accountID: string, txAmount: Decimal, txCurrency: string,
    exchangeRate: Decimal, functionalCurrency: string)
    requires FieldsOk(registry, accountID, txAmount, txCurrency, exchangeRate, functionalCurrency)
    ensures NewEntry(registry, accountID, txAmount, txCurrency, exchangeRate, functionalCurrency)
         == var amount := Converted(registry, txAmount, exchangeRate, functionalCurrency);
            if Value(amount) == 0.0 then
              Err(Failure(Some(Code(FunctionalAmountZero)), "NewEntry", -1, "functionalAmount", None))
            else Ok(Entry(accountID, txAmount, Upper(txCurrency), exchangeRate, amount, Upper(functionalCurrency),
                          Money(txAmount, Upper(txCurrency)), Money(amount, Upper(functionalCurrency))))
  {
    FieldsDecide(registry, accountID, txAmount, txCurrency, exchangeRate, functionalCurrency, NEW);
    RatableIsCanonical(registry, txCurrency);
    RatableIsCanonical(registry, functionalCurrency);
    SignMeans(txAmount);
    SignMeans(Converted(registry, txAmount, exchangeRate, functionalCurrency));
  }

  // HalfEven rounding gives zero exactly on amounts of at most half a unit.
  lemma RoundsToZero(amount: Decimal, places: int)
    ensures IsZero(RoundBank(amount, places)) <==> RealAbs(Value(amount)) <= 0.5 * Pow10(-places)
  {
    RoundBankCount(amount, places);
    BoundInUnits(amount, 0.5, places);
    ZeroRounding(InUnits(amount, places), RoundBank(amount, places).coef);
  }

  lemma ZeroRounding(x: real, k: int)
    requires Rounds(HalfEven, x, k)
    ensures k == 0 <==> -0.5 <= x <= 0.5
  {
    if -0.5 <= x <= 0.5 { RoundsUnique(HalfEven, x, 0, k); }
  }

  // NewEntry succeeds exactly when the documented field conditions hold and the
  // converted amount is more than half a functional minor unit away from zero.
  lemma NewEntryDecides(
    registry: Registry, accountID: string, txAmount: Decimal, txCurrency: string,
    exchangeRate: Decimal, functionalCurrency: string)
    ensures NewEntry(registry, accountID, txAmount, txCurrency, exchangeRate, functionalCurrency).Ok?
       <==> && FieldsOk(registry, accountID, txAmount, txCurrency, exchangeRate, functionalCurrency)
            && RealAbs(Value(txAmount) * Value(exchangeRate)) > 0.5 * MinorUnit(registry, functionalCurrency)
  {
    FieldsDecide(registry, accountID, txAmount, txCurrency, exchangeRate, functionalCurrency, NEW);
    if FieldsOk(registry, accountID, txAmount, txCurrency, exchangeRate, functionalCurrency) {
      ConstructionIsTotal(registry, accountID, txAmount, txCurrency, exchangeRate, functionalCurrency);
      RoundsToZero(Mul(txAmount, exchangeRate), FindRatable(registry, functionalCurrency).value.minorUnits);
      SignMeans(Converted(registry, txAmount, exchangeRate, functionalCurrency));
      MulMeans(txAmount, exchangeRate);
    }
  }

  /******* Construction and re-validation agree *******/

  // NewEntry on the entry's own fields.
  function Rebuild(registry: Registry, e: Entry): Result<Entry, Failure> {
    NewEntry(registry, e.accountID, e.txAmount, e.txCurrency, e.exchangeRate, e.functionalCurrency)
  }

  // Same text fields, same numbers: decimals may differ in their exponent only.
  predicate SameEntry(e: Entry, f: Entry) {
    && e.accountID == f.accountID && e.txCurrency == f.txCurrency && e.functionalCurrency == f.functionalCurrency
    && Equal(e.txAmount, f.txAmount) && Equal(e.exchangeRate, f.exchangeRate)
    && Equal(e.functionalAmount, f.functionalAmount)
    && e.txMoney.code == f.txMoney.code && Equal(e.txMoney.amount, f.txMoney.amount)
    && e.functionalMoney.code == f.functionalMoney.code && Equal(e.functionalMoney.amount, f.functionalMoney.amount)
  }

  // Entry.Validate accepts exactly the values NewEntry can build from the entry's own
  // fields, up to the exponents of the stored amounts.
  lemma ValidateIsRebuild(registry: Registry, e: Entry)
    ensures Validate(registry, e).None?
       <==> Rebuild(registry, e).Ok? && SameEntry(Rebuild(registry, e).value, e)
  {
    FieldsDecide(registry, e.accountID, e.txAmount, e.txCurrency, e.exchangeRate, e.functionalCurrency, VALIDATE);
    FieldsDecide(registry, e.accountID, e.txAmount, e.txCurrency, e.exchangeRate, e.functionalCurrency, NEW);
    if FieldsOk(registry, e.accountID, e.txAmount, e.txCurrency, e.exchangeRate, e.functionalCurrency) {
      ConstructionIsTotal(registry, e.accountID, e.txAmount, e.txCurrency, e.exchangeRate, e.functionalCurrency);
      RatableIsCanonical(registry, e.functionalCurrency);
      var expected := Converted(registry, e.txAmount, e.exchangeRate, e.functionalCurrency);
      CompareMeans(e.functionalAmount, expected);
      CompareMeans(expected, e.functionalAmount);
      CompareMeans(e.txMoney.amount, e.txAmount);
      CompareMeans(e.txAmount, e.txMoney.amount);
      CompareMeans(e.functionalMoney.amount, e.functionalAmount);
      CompareMeans(expected, e.functionalMoney.amount);
      CompareMeans(e.txAmount, e.txAmount);
      CompareMeans(e.exchangeRate, e.exchangeRate);
    }
  }

  // Every constructed entry validates.
  lemma ConstructedEntriesValidate(
    registry: Registry, accountID: string, txAmount: Decimal, txCurrency: string,
    exchangeRate: Decimal, functionalCurrency: string)
    ensures var made := NewEntry(registry, accountID, txAmount, txCurrency, exchangeRate, functionalCurrency);
            made.Ok? ==> Validate(registry, made.value).None? && Rebuild(registry, made.value) == made
  {
    var made := NewEntry(registry, accountID, txAmount, txCurrency, exchangeRate, functionalCurrency);
    FieldsDecide(registry, accountID, txAmount, txCurrency, exchangeRate, functionalCurrency, NEW);
    if made.Ok? {
      ConstructionIsTotal(registry, accountID, txAmount, txCurrency, exchangeRate, functionalCurrency);
      RatableIsCanonical(registry, txCurrency);
      RatableIsCanonical(registry, functionalCurrency);
      UpperOfUpper(Upper(txCurrency));
      UpperOfUpper(Upper(functionalCurrency));
      ConstructionIsTotal(registry, accountID, txAmount, Upper(txCurrency), exchangeRate, Upper(functionalCurrency));
      ValidateIsRebuild(registry, made.value);
      var e := made.value;
      CompareMeans(e.txAmount, e.txAmount);
      CompareMeans(e.exchangeRate, e.exchangeRate);
      CompareMeans(e.functionalAmount, e.functionalAmount);
    }
  }

  /******* What a valid entry means *******/

  // An amount within the precision of a currency survives rounding unchanged.
  lemma RoundingKeepsPrecise(amount: Decimal, precise: Decimal, places: int)
    requires precise.exp >= -places && Value(amount) == Value(precise)
    ensures Value(RoundBank(amount, places)) == Value(precise)
  {
    var k := CoefAt(precise, -places);
    CompareUnits(amount, precise, places);
    RoundBankCount(amount, places);
    UnitsMean(precise, places);
    RoundsUnique(HalfEven, InUnits(amount, places), RoundBank(amount, places).coef, k);
    CompareUnits(RoundBank(amount, places), precise, places);
  }

  // The part of an entry with acceptable fields that differs from its rebuild: the
  // functional amount, then the codes and the transaction money, then the functional money.
  ghost function BrokenPart(registry: Registry, e: Entry): string {
    match Rebuild(registry, e)
    case Err(_) => "functionalAmount"
    case Ok(r) =>
      if Value(e.functionalAmount) != Value(r.functionalAmount) then "functionalAmount"
      else if e.txCurrency != r.txCurrency || e.functionalCurrency != r.functionalCurrency
              || e.txMoney.code != r.txMoney.code || Value(e.txMoney.amount) != Value(r.txMoney.amount) then "entry"
      else "functionalAmount"
  }

  // What re-validation reports of an entry it rejects.
  ghost predicate EntryReport(registry: Registry, e: Entry, f: Failure) {
    if e == ZERO_ENTRY then f == Failure(Some(Code(InvalidEntry)), "Entry.Validate", -1, "entry", None)
    else if !FieldsOk(registry, e.accountID, e.txAmount, e.txCurrency, e.exchangeRate, e.functionalCurrency) then
      exists n :: 0 <= n < |FIELD_ORDER|
        && !FieldHolds(registry, e.accountID, e.txAmount, e.txCurrency, e.exchangeRate, e.functionalCurrency, FIELD_ORDER[n])
        && (forall m :: 0 <= m < n ==>
              FieldHolds(registry, e.accountID, e.txAmount, e.txCurrency, e.exchangeRate, e.functionalCurrency, FIELD_ORDER[m]))
        && f == FieldFailure(registry, e.txCurrency, e.functionalCurrency, "Entry.Validate", FIELD_ORDER[n])
    else f == Failure(Some(Code(InvalidEntry)), "Entry.Validate", -1, BrokenPart(registry, e), None)
  }

  // A rejected entry is reported by its first broken field, or by the first part that
  // differs from its rebuild.
  lemma ValidateReports(registry: Registry, e: Entry)
    requires Validate(registry, e).Some?
    ensures EntryReport(registry, e, Validate(registry, e).value)
  {
    FieldsDecide(registry, e.accountID, e.txAmount, e.txCurrency, e.exchangeRate, e.functionalCurrency, VALIDATE);
    if FieldsOk(registry, e.accountID, e.txAmount, e.txCurrency, e.exchangeRate, e.functionalCurrency) {
      ConstructionIsTotal(registry, e.accountID, e.txAmount, e.txCurrency, e.exchangeRate, e.functionalCurrency);
      RatableIsCanonical(registry, e.functionalCurrency);
      CompareMeans(e.functionalAmount, Converted(registry, e.txAmount, e.exchangeRate, e.functionalCurrency));
      CompareMeans(e.txMoney.amount, e.txAmount);
    } else if e != ZERO_ENTRY {
      FieldsReportFirstBroken(
        registry, e.accountID, e.txAmount, e.txCurrency, e.exchangeRate, e.functionalCurrency, VALIDATE);
    }
  }

  // The numbers of a valid entry: a positive rate, a non-zero amount, a functional
  // amount within half a minor unit of the exact conversion, and no conversion at all
  // within one currency.
  lemma ValidEntryMeans(registry: Registry, e: Entry)
    requires Validate(registry, e).None?
    ensures Ratable(registry, e.functionalCurrency) && Ratable(registry, e.txCurrency)
    ensures Value(e.txAmount) != 0.0 && Value(e.exchangeRate) > 0.0 && Value(e.functionalAmount) != 0.0
    ensures RealAbs(Value(e.functionalAmount) - Value(Mul(e.txAmount, e.exchangeRate)))
         <= 0.5 * MinorUnit(registry, e.functionalCurrency)
    ensures e.txCurrency == e.functionalCurrency ==> Value(e.functionalAmount) == Value(e.txAmount)
  {
    ValidateIsRebuild(registry, e);
    FieldsDecide(registry, e.accountID, e.txAmount, e.txCurrency, e.exchangeRate, e.functionalCurrency, NEW);
    ConstructionIsTotal(registry, e.accountID, e.txAmount, e.txCurrency, e.exchangeRate, e.functionalCurrency);
    var product := Mul(e.txAmount, e.exchangeRate);
    var places := FindRatable(registry, e.functionalCurrency).value.minorUnits;
    var converted := RoundBank(product, places);
    CompareMeans(converted, e.functionalAmount);
    SignMeans(converted);
    MulMeans(e.txAmount, e.exchangeRate);
    RoundingErrorBound(product, places, HalfEven);
    if e.txCurrency == e.functionalCurrency {
      assert Value(product) == Value(e.txAmount);
      RoundingKeepsPrecise(product, e.txAmount, places);
    }
  }

  // Negating the transaction amount of an accepted construction is accepted, with
  // exactly the negated functional amount.
  lemma NewEntryNegates(
    registry: Registry, accountID: string, txAmount: Decimal, txCurrency: string,
    exchangeRate: Decimal, functionalCurrency: string)
    ensures var made := NewEntry(registry, accountID, txAmount, txCurrency, exchangeRate, functionalCurrency);
            var negated := NewEntry(registry, accountID, Neg(txAmount), txCurrency, exchangeRate, functionalCurrency);
            made.Ok? ==> negated == Ok(NegEntry(made.value))
  {
    var made := NewEntry(registry, accountID, txAmount, txCurrency, exchangeRate, functionalCurrency);
    FieldsDecide(registry, accountID, txAmount, txCurrency, exchangeRate, functionalCurrency, NEW);
    if made.Ok? {
      NegMeans(txAmount);
      ConstructionIsTotal(registry, accountID, txAmount, txCurrency, exchangeRate, functionalCurrency);
      ConstructionIsTotal(registry, accountID, Neg(txAmount), txCurrency, exchangeRate, functionalCurrency);
      var places := FindRatable(registry, functionalCurrency).value.minorUnits;
      assert Mul(Neg(txAmount), exchangeRate) == Neg(Mul(txAmount, exchangeRate)) by {
        assert (-txAmount.coef) * exchangeRate.coef == -(txAmount.coef * exchangeRate.coef);
      }
      RoundBankNegates(Mul(txAmount, exchangeRate), places);
    }
  }

  // The mirror image of an entry: every amount negated, everything else kept.
  function NegEntry(e: Entry): Entry {
    e.(txAmount := Neg(e.txAmount), functionalAmount := Neg(e.functionalAmount),
       txMoney := NegMoney(e.txMoney), functionalMoney := NegMoney(e.functionalMoney))
  }
}
