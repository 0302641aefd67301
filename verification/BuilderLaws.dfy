// What the validation pipeline decides, and the laws acceptance obeys.
module BuilderLaws {
  import opened Wrappers
  import opened Errors
  import opened Decimals
  import opened Currencies
  import opened Entries
  import opened Rates
  import opened Requests
  import opened RateLaws
  import opened RateErrors
  import opened Config
  import opened Builder
  import opened Sums

  /******* The checks in the ledger's own terms *******/

  ghost function FunctionalValue(): Entry -> real {
    (e: Entry) => Value(e.functionalAmount)
  }

  ghost predicate ValidKeys(metadata: map<string, MetaValue>) {
    forall key :: key in metadata ==> Printable(key, 64)
  }

  ghost predicate AllValid(registry: Registry, entries: seq<Entry>) {
    forall e :: e in entries ==> Validate(registry, e).None?
  }

  ghost predicate AllIn(entries: seq<Entry>, functionalCurrency: string) {
    forall e :: e in entries ==> e.functionalCurrency == functionalCurrency
  }

  // Non-empty, of at most `max` bytes, and free of ASCII control characters.
  ghost predicate Printable(s: string, max: nat) {
    0 < |s| <= max && forall i :: 0 <= i < |s| ==> s[i] as int >= 32 && s[i] as int != 127
  }

  // The provider's one answer for the pair of an entry: what it says to that request
  // when the pair is first needed, after `calls` earlier requests.
  function AnswerIn(b: BuilderState, calls: nat, e: Entry): Answer
    requires b.provider.Some?
  {
    var request := RateRequest(e.txCurrency, e.functionalCurrency, b.effectiveDate);
    b.provider.value(calls + IndexOf(DistinctRequests(b.entries, b.effectiveDate), request), request)
  }

  // Two positive rates within the tolerance of each other.
  ghost predicate Within(rate: Decimal, other: Decimal, tolerance: Decimal) {
    Value(rate) > 0.0 && Value(other) > 0.0 && RealAbs(Value(other) - Value(rate)) <= Value(tolerance)
  }

  // The builder's provider confirms the entry's rate.
  ghost predicate PairAgrees(b: BuilderState, calls: nat, e: Entry) {
    && b.provider.Some? && AnswerIn(b, calls, e).Ok?
    && Within(e.exchangeRate, AnswerIn(b, calls, e).value, b.config.rateTolerance)
  }

  // What the rate check requires of a builder, its provider and the context: every
  // foreign entry is confirmed, and no look the check needs is cancelled.
  ghost predicate RatesHold(b: BuilderState, ctx: Context, calls: nat, looks: nat) {
    && (forall e :: e in b.entries && e.txCurrency != e.functionalCurrency ==> PairAgrees(b, calls, e))
    && (forall n :: looks <= n < looks + LooksFor(b.entries, b.effectiveDate) ==> ctx(n).None?)
  }

  lemma RatesHoldIs(b: BuilderState, ctx: Context, out: Outside)
    ensures RatesHold(b, ctx, |out.trace.calls|, out.trace.looks + 1)
       <==> RatesPass(SettingOf(b, ctx), b.entries, AfterContextCheck(out, ctx))
  {
    var s, start := SettingOf(b, ctx), AfterContextCheck(out, ctx);
    forall e | e in b.entries && IsForeign(e)
      ensures PairAgrees(b, |out.trace.calls|, e)
         <==> Agrees(s, AnswersOf(s, start, DistinctRequests(b.entries, s.asOf)), e)
    {
    }
  }

  // What each check requires.
  ghost predicate Holds(registry: Registry, b: BuilderState, ctx: Context, out: Outside, check: Check) {
    match check
    case OptionsOk => b.initErr.None?
    case ContextLive => ctx(out.trace.looks).None?
    case ConfigOk => ConfigUsable(registry, b.config)
    case IDOk => Printable(b.id, 255)
    case DateOk => b.effectiveDate != 0
    case NotEmpty => |b.entries| > 0
    case MetadataOk => ValidKeys(b.metadata)
    case EntriesOk => AllValid(registry, b.entries)
    case CurrenciesOk => AllIn(b.entries, b.config.functionalCurrency)
    case ZeroSum => Total(b.entries, FunctionalValue()) == 0.0
    case PeriodOpen => b.effectiveDate > b.config.closedDate || b.isAdjustingEvent
    case RatesOk => RatesHold(b, ctx, |out.trace.calls|, out.trace.looks + 1)
  }

  // The first entry that fails a per-entry test.
  ghost predicate FirstSuch(entries: seq<Entry>, test: Entry -> bool, i: int) {
    0 <= i < |entries| && test(entries[i]) && forall j :: 0 <= j < i ==> !test(entries[j])
  }

  ghost function Invalid(registry: Registry): Entry -> bool {
    (e: Entry) => Validate(registry, e).Some?
  }

  ghost function OtherCurrency(functionalCurrency: string): Entry -> bool {
    (e: Entry) => e.functionalCurrency != functionalCurrency
  }

  // The failure's sentinel, entry index, field and cause; -1 is no entry.
  ghost predicate Says(f: Failure, sentinel: Sentinel, index: int, field: string, cause: Option<Error>) {
    f.code == Some(Code(sentinel)) && f.entryIndex == index && f.field == field && f.cause == cause
  }

  // How a failed check is reported: code, field, and the smallest offending entry.
  ghost predicate Reports(
    registry: Registry, b: BuilderState, ctx: Context, out: Outside, check: Check, f: Failure)
  {
    && f.operation == (if b.operation == "" then "Build" else b.operation)
    && match check
       case OptionsOk => f.field == "clock" && f.entryIndex == -1 && b.initErr.Some? && Adopts(f, b.initErr.value)
       case ContextLive => Says(f, RateProviderFailure, -1, "context", ctx(out.trace.looks))
       case ConfigOk => Says(f, InvalidConfiguration, -1, "config", ConfigCause(registry, b.config))
       case IDOk => Says(f, InvalidTransactionID, -1, "id", None)
       case DateOk => Says(f, InvalidEffectiveDate, -1, "effectiveDate", None)
       case NotEmpty => Says(f, EmptyTransaction, -1, "entries", None)
       case MetadataOk => Says(f, InvalidMetadata, -1, "metadata", None)
       case EntriesOk =>
         && FirstSuch(b.entries, Invalid(registry), f.entryIndex)
         && EntryReport(registry, b.entries[f.entryIndex], f.(operation := "Entry.Validate", entryIndex := -1))
       case CurrenciesOk =>
         && FirstSuch(b.entries, OtherCurrency(b.config.functionalCurrency), f.entryIndex)
         && Says(f, CurrencyMismatch, f.entryIndex, "functionalCurrency", None)
       case ZeroSum => Says(f, ZeroSumViolation, -1, "entries", None)
       case PeriodOpen => Says(f, PeriodClosed, -1, "effectiveDate", None)
       case RatesOk => RateReports(SettingOf(b, ctx), b.entries, AfterContextCheck(out, ctx), f)
  }

  lemma {:induction false} SumMeans(entries: seq<Entry>)
    ensures Value(SumFunctional(entries)) == Total(entries, FunctionalValue())
  {
    OneMeans();
    if entries != [] {
      SumMeans(entries[..|entries| - 1]);
      AddMeans(SumFunctional(entries[..|entries| - 1]), entries[|entries| - 1].functionalAmount);
    }
  }

  lemma EntriesCheckMeans(registry: Registry, entries: seq<Entry>, operation: string)
    ensures var failure := FirstFailure(entries, JudgeEntry(registry, operation), 0);
            && (failure.None? <==> AllValid(registry, entries))
            && (failure.Some? ==>
                  && failure.value.operation == operation
                  && FirstSuch(entries, Invalid(registry), failure.value.entryIndex)
                  && EntryReport(registry, entries[failure.value.entryIndex],
                                 failure.value.(operation := VALIDATE, entryIndex := -1)))
  {
    var judge := JudgeEntry(registry, operation);
    FirstFailureIsFirst(entries, judge, 0);
    forall i | 0 <= i < |entries|
      ensures judge(i, entries[i]) == EntryFailure(registry, entries[i], operation, i)
    {
    }
    if i :| 0 <= i < |entries| && judge(i, entries[i]) == FirstFailure(entries, judge, 0)
            && judge(i, entries[i]).Some? && forall k :: 0 <= k < i ==> judge(k, entries[k]).None? {
      EntryFailureReports(registry, entries[i], operation, i);
    }
  }

  lemma EntryFailureReports(registry: Registry, e: Entry, operation: string, index: nat)
    requires Validate(registry, e).Some?
    ensures var failure := EntryFailure(registry, e, operation, index);
            && failure.Some? && failure.value.operation == operation && failure.value.entryIndex == index
            && EntryReport(registry, e, failure.value.(operation := VALIDATE, entryIndex := -1))
  {
    ValidateReports(registry, e);
    var f := Validate(registry, e).value;
    assert EntryFailure(registry, e, operation, index).value.(operation := VALIDATE, entryIndex := -1) == f;
  }

  lemma CurrencyCheckMeans(entries: seq<Entry>, functionalCurrency: string, operation: string)
    ensures var failure := FirstFailure(entries, JudgeCurrency(functionalCurrency, operation), 0);
            && (failure.None? <==> AllIn(entries, functionalCurrency))
            && (failure.Some? ==>
                  && failure.value
                  == FailAt(CurrencyMismatch, operation, failure.value.entryIndex, "functionalCurrency", None)
                  && FirstSuch(entries, OtherCurrency(functionalCurrency), failure.value.entryIndex))
  {
    var judge := JudgeCurrency(functionalCurrency, operation);
    FirstFailureIsFirst(entries, judge, 0);
    assert forall i :: 0 <= i < |entries| ==>
      (judge(i, entries[i]).None? <==> entries[i].functionalCurrency == functionalCurrency);
  }

  // Each check fails exactly when its condition does not hold.
  lemma CheckMeans(registry: Registry, b: BuilderState, ctx: Context, out: Outside, check: Check)
    ensures Failing(registry, b, ctx, out, check).None? <==> Holds(registry, b, ctx, out, check)
  {
    match check
    case ConfigOk => NormalizeIsCanonical(registry, b.config);
    case EntriesOk => EntriesCheckMeans(registry, b.entries, OperationOf(b));
    case CurrenciesOk => CurrencyCheckMeans(b.entries, b.config.functionalCurrency, OperationOf(b));
    case ZeroSum => SumMeans(b.entries); SignMeans(SumFunctional(b.entries));
    case RatesOk =>
      RatesPassExactly(SettingOf(b, ctx), b.entries, AfterContextCheck(out, ctx));
      RatesHoldIs(b, ctx, out);
    case _ =>
  }

  // A check that fails says which it is and where.
  lemma CheckReports(registry: Registry, b: BuilderState, ctx: Context, out: Outside, check: Check)
    requires Failing(registry, b, ctx, out, check).Some?
    ensures Reports(registry, b, ctx, out, check, Failing(registry, b, ctx, out, check).value)
  {
    match check
    case ConfigOk => ConfigReports(registry, b.config);
    case EntriesOk =>
      EntriesCheckMeans(registry, b.entries, OperationOf(b));
    case CurrenciesOk => CurrencyCheckMeans(b.entries, b.config.functionalCurrency, OperationOf(b));
    case RatesOk => RatesReport(SettingOf(b, ctx), b.entries, AfterContextCheck(out, ctx));
    case _ =>
  }

  ghost predicate AllHold(registry: Registry, b: BuilderState, ctx: Context, out: Outside) {
    forall check :: Holds(registry, b, ctx, out, check)
  }

  lemma PassingIsHolding(registry: Registry, b: BuilderState, ctx: Context, out: Outside)
    ensures Verdict(registry, b, ctx, out).None? <==> AllHold(registry, b, ctx, out)
  {
    AllPassing(registry, b, ctx, out);
    if Verdict(registry, b, ctx, out).None? {
      forall check ensures Holds(registry, b, ctx, out, check) {
        CheckIsOrdered(check);
        var i :| 0 <= i < |ORDER| && ORDER[i] == check;
        CheckMeans(registry, b, ctx, out, ORDER[i]);
      }
    } else if AllHold(registry, b, ctx, out) {
      forall i | 0 <= i < |ORDER| ensures Failing(registry, b, ctx, out, ORDER[i]).None? {
        CheckMeans(registry, b, ctx, out, ORDER[i]);
      }
    }
  }

  // The first check that does not hold, in the fixed order: options, context,
  // configuration, identifier, date, entries present, metadata, each entry, currency,
  // balance, period, rates.
  ghost function FirstBroken(registry: Registry, b: BuilderState, ctx: Context, out: Outside): Option<Check> {
    if !Holds(registry, b, ctx, out, OptionsOk) then Some(OptionsOk)
    else if !Holds(registry, b, ctx, out, ContextLive) then Some(ContextLive)
    else if !Holds(registry, b, ctx, out, ConfigOk) then Some(ConfigOk)
    else if !Holds(registry, b, ctx, out, IDOk) then Some(IDOk)
    else if !Holds(registry, b, ctx, out, DateOk) then Some(DateOk)
    else if !Holds(registry, b, ctx, out, NotEmpty) then Some(NotEmpty)
    else if !Holds(registry, b, ctx, out, MetadataOk) then Some(MetadataOk)
    else if !Holds(registry, b, ctx, out, EntriesOk) then Some(EntriesOk)
    else if !Holds(registry, b, ctx, out, CurrenciesOk) then Some(CurrenciesOk)
    else if !Holds(registry, b, ctx, out, ZeroSum) then Some(ZeroSum)
    else if !Holds(registry, b, ctx, out, PeriodOpen) then Some(PeriodOpen)
    else if !Holds(registry, b, ctx, out, RatesOk) then Some(RatesOk)
    else None
  }

  lemma FirstInOrder(registry: Registry, b: BuilderState, ctx: Context, out: Outside, n: nat)
    requires n < |ORDER| && !Holds(registry, b, ctx, out, ORDER[n])
    requires forall m :: 0 <= m < n ==> Holds(registry, b, ctx, out, ORDER[m])
    ensures FirstBroken(registry, b, ctx, out) == Some(ORDER[n])
  {
    forall m | 0 <= m < n ensures Holds(registry, b, ctx, out, ORDER[m]) { }
    NamesInOrder();
  }

  // The failure a build reports is that of the first broken check.
  lemma FailureNamesFirstBroken(registry: Registry, b: BuilderState, ctx: Context, out: Outside)
    ensures FirstBroken(registry, b, ctx, out).None? <==> Verdict(registry, b, ctx, out).None?
    ensures FirstBroken(registry, b, ctx, out).Some? ==>
              Verdict(registry, b, ctx, out) == Failing(registry, b, ctx, out, FirstBroken(registry, b, ctx, out).value)
  {
    var judge := JudgeCheck(registry, b, ctx, out);
    PassingIsHolding(registry, b, ctx, out);
    FirstFailureIsFirst(ORDER, judge, 0);
    if Verdict(registry, b, ctx, out).Some? {
      var n :| 0 <= n < |ORDER| && judge(n, ORDER[n]) == Verdict(registry, b, ctx, out)
               && forall k :: 0 <= k < n ==> judge(k, ORDER[k]).None?;
      CheckMeans(registry, b, ctx, out, ORDER[n]);
      forall m | 0 <= m < n ensures Holds(registry, b, ctx, out, ORDER[m]) {
        assert judge(m, ORDER[m]).None?;
        CheckMeans(registry, b, ctx, out, ORDER[m]);
      }
      FirstInOrder(registry, b, ctx, out, n);
    }
  }

  // build succeeds exactly when every check holds; otherwise it reports the first
  // check, in the fixed order, that does not.
  lemma BuildDecides(registry: Registry, b: BuilderState, ctx: Context, out: Outside)
    ensures BuildOutcome(registry, b, ctx, out).0.Ok? <==> AllHold(registry, b, ctx, out)
    ensures BuildOutcome(registry, b, ctx, out).0.Ok? <==> FirstBroken(registry, b, ctx, out).None?
    ensures BuildOutcome(registry, b, ctx, out).0.Err? ==>
              Reports(registry, b, ctx, out, FirstBroken(registry, b, ctx, out).value,
                      BuildOutcome(registry, b, ctx, out).0.error)
  {
    PassingIsHolding(registry, b, ctx, out);
    FailureNamesFirstBroken(registry, b, ctx, out);
    if Verdict(registry, b, ctx, out).Some? {
      CheckReports(registry, b, ctx, out, FirstBroken(registry, b, ctx, out).value);
    }
  }

  /******* What a failed build still matches *******/

  // Everything the reported error of a broken check matches, in terms of the error that
  // broke it: an option's, the context's, the configuration's, an entry's or a rate's.
  ghost predicate Source(
    registry: Registry, b: BuilderState, ctx: Context, out: Outside, check: Check, f: Failure, target: Error)
  {
    match check
    case OptionsOk => b.initErr.Some? && Survives(b.initErr.value, target)
    case ContextLive =>
      target == Code(RateProviderFailure) || (ctx(out.trace.looks).Some? && Is(ctx(out.trace.looks).value, target))
    case ConfigOk =>
      ValidateConfig(registry, b.config).Some? && CodeOrCauseIs(ValidateConfig(registry, b.config).value, target)
    case EntriesOk =>
      && 0 <= f.entryIndex < |b.entries| && Validate(registry, b.entries[f.entryIndex]).Some?
      && CodeOrCauseIs(Validate(registry, b.entries[f.entryIndex]).value, target)
    case RatesOk =>
      || f.code == Some(target) || IsNode(f.cause, target)
      || exists err :: UnderliesAt(SettingOf(b, ctx), b.entries, AfterContextCheck(out, ctx), f.entryIndex, err)
           && Is(err, target)
    case _ => f.code == Some(target)
  }

  lemma SourceSurvives(
    registry: Registry, b: BuilderState, ctx: Context, out: Outside, check: Check, f: Failure, target: Error)
    requires Failing(registry, b, ctx, out, check) == Some(f)
    ensures CodeOrCauseIs(f, target) <==> Source(registry, b, ctx, out, check, f, target)
  {
    match check
    case RatesOk => RateSourceSurvives(SettingOf(b, ctx), b.entries, AfterContextCheck(out, ctx), target);
    case EntriesOk => EntryCodeAndCause(registry, b.entries, OperationOf(b));
    case CurrenciesOk => CurrencyCheckMeans(b.entries, b.config.functionalCurrency, OperationOf(b));
    case _ =>
  }

  lemma RateSourceSurvives(s: Setting, entries: seq<Entry>, start: Trace, target: Error)
    requires RatesOutcome(s, entries, start).0.Some?
    ensures var f := RatesOutcome(s, entries, start).0.value;
            (CodeOrCauseIs(f, target)
             <==> f.code == Some(target) || IsNode(f.cause, target)
                  || exists err :: UnderliesAt(s, entries, start, f.entryIndex, err) && Is(err, target))
  {
    RatesReport(s, entries, start);
    RateFailureMatchesAt(s, entries, start, RatesOutcome(s, entries, start).0.value, target);
  }

  // The failure of the entry scan carries on the code and cause of the entry's own.
  lemma EntryCodeAndCause(registry: Registry, entries: seq<Entry>, operation: string)
    requires FirstFailure(entries, JudgeEntry(registry, operation), 0).Some?
    ensures var f := FirstFailure(entries, JudgeEntry(registry, operation), 0).value;
            && 0 <= f.entryIndex < |entries| && Validate(registry, entries[f.entryIndex]).Some?
            && var inner := Validate(registry, entries[f.entryIndex]).value;
               f.code == inner.code && f.cause == inner.cause
  {
    var judge := JudgeEntry(registry, operation);
    FirstFailureIsFirst(entries, judge, 0);
    var i :| 0 <= i < |entries| && judge(i, entries[i]) == FirstFailure(entries, judge, 0);
    assert EntryFailure(registry, entries[i], operation, i) == FirstFailure(entries, judge, 0);
    KeepsCodeAndCause(registry, entries[i], operation, i);
  }

  lemma KeepsCodeAndCause(registry: Registry, e: Entry, operation: string, index: nat)
    ensures var f, inner := EntryFailure(registry, e, operation, index), Validate(registry, e);
            && (f.Some? <==> inner.Some?)
            && (f.Some? ==>
                  f.value.entryIndex == index && f.value.code == inner.value.code && f.value.cause == inner.value.cause)
  {
  }

  // The error a failed build returns matches a target, other than that error itself,
  // exactly when the error that broke the first broken check does.
  lemma BuildErrorsSurface(
    registry: Registry, b: BuilderState, ctx: Context, out: Outside, ptr: nat, target: Error)
    requires BuildOutcome(registry, b, ctx, out).0.Err? && Held(target)
    requires target != Validation(ptr, BuildOutcome(registry, b, ctx, out).0.error)
    ensures FirstBroken(registry, b, ctx, out).Some?
    ensures var f, check := BuildOutcome(registry, b, ctx, out).0.error, FirstBroken(registry, b, ctx, out).value;
            Is(Validation(ptr, f), target) <==> Source(registry, b, ctx, out, check, f, target)
  {
    var f := BuildOutcome(registry, b, ctx, out).0.error;
    FailureNamesFirstBroken(registry, b, ctx, out);
    Transparency(ptr, f, target);
    SourceSurvives(registry, b, ctx, out, FirstBroken(registry, b, ctx, out).value, f, target);
  }

  /******* Options *******/

  // The clock the first `n` options choose, if none of them fails.
  function ClockAfter(options: seq<Option<BuilderOption>>, n: nat): Option<Clock>
    requires n <= |options|
  {
    if n == 0 then None
    else if options[n - 1].None? then ClockAfter(options, n - 1)
    else options[n - 1].value(ClockAfter(options, n - 1)).0
  }

  // What option `i` reports when the ones before it were applied.
  function OptionError(options: seq<Option<BuilderOption>>, i: nat): Option<Error>
    requires i < |options|
  {
    if options[i].None? then None else options[i].value(ClockAfter(options, i)).1
  }

  // The first `n` options all apply.
  ghost predicate OptionsApply(options: seq<Option<BuilderOption>>, n: nat)
    requires n <= |options|
  {
    forall i :: 0 <= i < n ==> OptionError(options, i).None?
  }

  // Options apply in order: all of them, choosing the clock they compose to, or up to
  // the first that fails on what its predecessors chose.
  lemma {:induction false} OptionsApplyInOrder(options: seq<Option<BuilderOption>>, i: nat)
    requires i <= |options| && OptionsApply(options, i)
    ensures var (clock, err) := ApplyOptions(options, i, ClockAfter(options, i));
            if err.None? then OptionsApply(options, |options|) && clock == ClockAfter(options, |options|)
            else exists n :: i <= n < |options| && OptionsApply(options, n) && OptionError(options, n) == err
    decreases |options| - i
  {
    if i < |options| {
      if OptionError(options, i).None? {
        OptionsApplyInOrder(options, i + 1);
      } else {
        assert OptionsApply(options, i) && OptionError(options, i).Some?;
      }
    }
  }

  // A new builder holds the given fields, the configuration with its currency in
  // capitals, and nothing else: the clock is the one the options compose to, or the
  // system's, and the error of the first option that fails is kept for Build.
  lemma NewStateIs(
    registry: Registry, id: string, date: int, config: LedgerConfig, provider: Option<Provider>,
    options: seq<Option<BuilderOption>>, system: Clock)
    ensures var b, chosen := NewState(registry, id, date, config, provider, options, system), ClockAfter(options, |options|);
            && b.id == id && b.effectiveDate == date && b.provider == provider
            && b.entries == [] && b.metadata == map[] && !b.isAdjustingEvent && !b.finalized && b.operation == "Build"
            && b.config
            == LedgerConfig(config.closedDate, Canonical(registry, config.functionalCurrency), config.rateTolerance)
            && (b.initErr.None? <==> OptionsApply(options, |options|))
            && (b.initErr.None? ==> b.clock == if chosen.Some? then chosen.value else system)
            && (b.initErr.Some? ==>
                  exists n :: 0 <= n < |options| && OptionsApply(options, n) && OptionError(options, n) == b.initErr)
  {
    OptionsApplyInOrder(options, 0);
    NormalizeIsCanonical(registry, config);
  }

  lemma NamesInOrder()
    ensures |ORDER| == 12
    ensures ORDER[0] == OptionsOk && ORDER[1] == ContextLive && ORDER[2] == ConfigOk && ORDER[3] == IDOk
    ensures ORDER[4] == DateOk && ORDER[5] == NotEmpty && ORDER[6] == MetadataOk && ORDER[7] == EntriesOk
    ensures ORDER[8] == CurrenciesOk && ORDER[9] == ZeroSum && ORDER[10] == PeriodOpen && ORDER[11] == RatesOk
  {
  }

  lemma CheckIsOrdered(check: Check)
    ensures check in ORDER
  {
    NamesInOrder();
  }
}
