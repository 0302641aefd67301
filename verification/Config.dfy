// The ledger configuration: validation and normalization.
module Config {
  import opened Wrappers
  import opened Text
  import opened Errors
  import opened Decimals
  import opened Currencies

  // Instants are integers and 0 is Go's zero time.
  const ZERO_TIME: int := 0

  datatype LedgerConfig = LedgerConfig(closedDate: int, functionalCurrency: string, rateTolerance: Decimal)

  const VALIDATE_CONFIG := "LedgerConfig.Validate"

  function ValidateConfig(registry: Registry, c: LedgerConfig): Option<Failure> {
    match Lookup(registry, c.functionalCurrency)
    case Err(failure) =>
      Some(Failure(Some(Code(InvalidConfiguration)), VALIDATE_CONFIG, -1, "functionalCurrency",
                   Some(Validation(FRESH, failure))))
    case Ok(currency) =>
      if !currency.ratable then
        Some(Failure(Some(Code(InvalidConfiguration)), VALIDATE_CONFIG, -1, "functionalCurrency",
                     Some(Code(CurrencyNotRatable))))
      else if c.rateTolerance.coef < 0 then Some(Fail(InvalidConfiguration, VALIDATE_CONFIG, "rateTolerance"))
      else None
  }

  // normalizeConfig: the canonical currency code; UTC is the identity on instants.
  function NormalizeConfig(registry: Registry, c: LedgerConfig): LedgerConfig {
    match Lookup(registry, c.functionalCurrency)
    case Ok(currency) => c.(functionalCurrency := currency.code)
    case Err(_) => c
  }

  // A ratable currency and a tolerance that is not negative.
  ghost predicate ConfigUsable(registry: Registry, c: LedgerConfig) {
    FindRatable(registry, c.functionalCurrency).Ok? && Value(c.rateTolerance) >= 0.0
  }

  // Why a configuration is rejected: what is wrong with its currency, or nothing more
  // when its currency is usable and its tolerance negative.
  function ConfigCause(registry: Registry, c: LedgerConfig): Option<Error> {
    match FindRatable(registry, c.functionalCurrency)
    case Err(CurrencyNotRatable) => Some(Code(CurrencyNotRatable))
    case Err(sentinel) => Some(Validation(FRESH, Fail(sentinel, "Lookup", "code")))
    case Ok(_) => None
  }

  // An invalid configuration is reported by the currency first, then the tolerance.
  lemma ConfigReports(registry: Registry, c: LedgerConfig)
    requires ValidateConfig(registry, c).Some?
    ensures ValidateConfig(registry, c).value
         == Failure(Some(Code(InvalidConfiguration)), VALIDATE_CONFIG, -1,
                    if FindRatable(registry, c.functionalCurrency).Err? then "functionalCurrency" else "rateTolerance",
                    ConfigCause(registry, c))
  {
  }

  // A code a lookup finds in capitals, and any other string as it is.
  function Canonical(registry: Registry, code: string): string {
    if Find(registry, code).Ok? then Upper(code) else code
  }

  // Normalizing is idempotent, changes nothing but the letter case of a known currency
  // and no verdict, and a valid configuration is
  // one with a ratable currency and a tolerance that is not negative.
  lemma NormalizeIsCanonical(registry: Registry, c: LedgerConfig)
    ensures NormalizeConfig(registry, NormalizeConfig(registry, c)) == NormalizeConfig(registry, c)
    ensures NormalizeConfig(registry, c)
         == LedgerConfig(c.closedDate, Canonical(registry, c.functionalCurrency), c.rateTolerance)
    ensures ValidateConfig(registry, NormalizeConfig(registry, c)) == ValidateConfig(registry, c)
    ensures ValidateConfig(registry, c).None? <==> ConfigUsable(registry, c)
    ensures ValidateConfig(registry, c).None? ==> UpperCode(NormalizeConfig(registry, c).functionalCurrency)
  {
    LookupIsCanonical(registry, c.functionalCurrency, c.functionalCurrency);
    SignMeans(c.rateTolerance);
  }
}
