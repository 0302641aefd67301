// The ledger: the canonical validation path, and its agreement with the builder.
module Ledgers {
  import opened Wrappers
  import opened Text
  import opened Errors
  import opened Currencies
  import opened Entries
  import opened Rates
  import opened RateCaching
  import opened Config
  import opened Builder
  import opened BuilderLaws
  import opened Lifecycle

  datatype Ledger = Ledger(config: LedgerConfig, provider: Provider, clock: Clock)

  const VALIDATE_TRANSACTION := "ValidateTransaction"

  // A ledger's configuration is valid and normalized.
  ghost predicate LedgerOk(registry: Registry, l: Ledger) {
    ValidateConfig(registry, l.config).None? && NormalizeConfig(registry, l.config) == l.config
  }

  /******* Construction *******/

  function MakeLedger(
    registry: Registry, config: LedgerConfig, provider: Option<Provider>,
    options: seq<Option<BuilderOption>>, system: Clock): Result<Ledger, Failure>
  {
    var invalid := ValidateConfig(registry, config);
    var (clock, err) := ApplyOptions(options, 0, None);
    if invalid.Some? then Err(Rewrap(Validation(FRESH, invalid.value), "NewLedger", "config"))
    else if err.Some? then Err(Rewrap(err.value, "NewLedger", "clock"))
    else if provider.None? then Err(Fail(NilRateProvider, "NewLedger", "provider"))
    else Ok(Ledger(NormalizeConfig(registry, config), provider.value, if clock.Some? then clock.value else system))
  }

  method NewLedger(
    registry: Registry, config: LedgerConfig, provider: Option<Provider>,
    options: seq<Option<BuilderOption>>, system: Clock) returns (r: Result<Ledger, Failure>)
    ensures r == MakeLedger(registry, config, provider, options, system)
  {
    var invalid := ValidateConfig(registry, config);
    if invalid.Some? {
      return Err(Rewrap(Validation(FRESH, invalid.value), "NewLedger", "config"));
    }
    var chosen: Option<Clock> := None;
    for i := 0 to |options|
      invariant ApplyOptions(options, 0, None) == ApplyOptions(options, i, chosen)
    {
      if options[i].None? {
        continue;
      }
      var (next, err) := options[i].value(chosen);
      if err.Some? {
        return Err(Rewrap(err.value, "NewLedger", "clock"));
      }
      chosen := next;
    }
    if provider.None? {
      return Err(Fail(NilRateProvider, "NewLedger", "provider"));
    }
    var clock: Clock := system;
    if chosen.Some? {
      clock := chosen.value;
    }
    return Ok(Ledger(NormalizeConfig(registry, config), provider.value, clock));
  }

  function UpdateConfig(registry: Registry, l: Ledger, config: LedgerConfig): Result<Ledger, Failure> {
    var invalid := ValidateConfig(registry, config);
    if invalid.Some? then Err(Rewrap(Validation(FRESH, invalid.value), "UpdateConfig", "config"))
    else Ok(l.(config := NormalizeConfig(registry, config)))
  }

  // What is wrong with the arguments of a failed construction: the configuration, then
  // the first option that fails, then a missing provider.
  ghost predicate LedgerReport(
    registry: Registry, config: LedgerConfig, options: seq<Option<BuilderOption>>, f: Failure)
  {
    if !ConfigUsable(registry, config) then
      f == Failure(Some(Code(InvalidConfiguration)), "NewLedger", -1, "config", ConfigCause(registry, config))
    else if !OptionsApply(options, |options|) then
      && f.operation == "NewLedger" && f.entryIndex == -1 && f.field == "clock"
      && exists n :: 0 <= n < |options| && OptionsApply(options, n) && AdoptsOptionError(options, n, f)
    else f == Fail(NilRateProvider, "NewLedger", "provider")
  }

  // The failure carries on the error of option `n`.
  ghost predicate AdoptsOptionError(options: seq<Option<BuilderOption>>, n: nat, f: Failure)
    requires n < |options|
  {
    OptionError(options, n).Some? && Adopts(f, OptionError(options, n).value)
  }

  lemma OptionsReport(options: seq<Option<BuilderOption>>)
    requires !OptionsApply(options, |options|)
    ensures ApplyOptions(options, 0, None).1.Some?
    ensures var f := Rewrap(ApplyOptions(options, 0, None).1.value, "NewLedger", "clock");
            exists n :: 0 <= n < |options| && OptionsApply(options, n) && AdoptsOptionError(options, n, f)
  {
    OptionsApplyInOrder(options, 0);
    var err := ApplyOptions(options, 0, None).1;
    var n :| 0 <= n < |options| && OptionsApply(options, n) && OptionError(options, n) == err;
    assert AdoptsOptionError(options, n, Rewrap(err.value, "NewLedger", "clock"));
  }

  // A ledger is made exactly from a usable configuration, options that all apply and a
  // provider, and holds the normalized configuration, that provider and the clock the
  // options compose to.
  lemma NewLedgerDecides(
    registry: Registry, config: LedgerConfig, provider: Option<Provider>,
    options: seq<Option<BuilderOption>>, system: Clock)
    ensures var made, chosen := MakeLedger(registry, config, provider, options, system), ClockAfter(options, |options|);
            && (made.Ok? <==> ConfigUsable(registry, config) && OptionsApply(options, |options|) && provider.Some?)
            && (made.Ok? ==>
                  made.value
                  == Ledger(LedgerConfig(config.closedDate, Upper(config.functionalCurrency), config.rateTolerance),
                            provider.value, if chosen.Some? then chosen.value else system))
  {
    NormalizeIsCanonical(registry, config);
    OptionsApplyInOrder(options, 0);
  }

  // Otherwise the first of these that is missing is reported.
  lemma NewLedgerReports(
    registry: Registry, config: LedgerConfig, provider: Option<Provider>,
    options: seq<Option<BuilderOption>>, system: Clock)
    requires MakeLedger(registry, config, provider, options, system).Err?
    ensures LedgerReport(registry, config, options, MakeLedger(registry, config, provider, options, system).error)
  {
    NormalizeIsCanonical(registry, config);
    if !ConfigUsable(registry, config) {
      ConfigReports(registry, config);
    } else if !OptionsApply(options, |options|) {
      OptionsReport(options);
    } else {
      OptionsApplyInOrder(options, 0);
    }
  }

  // Every ledger that can be constructed or updated has a valid, normalized
  // configuration; updating keeps the provider and the clock.
  lemma LedgersAreOk(
    registry: Registry, config: LedgerConfig, provider: Option<Provider>,
    options: seq<Option<BuilderOption>>, system: Clock, l: Ledger)
    ensures var made := MakeLedger(registry, config, provider, options, system);
            made.Ok? ==> LedgerOk(registry, made.value) && provider == Some(made.value.provider)
    ensures var updated := UpdateConfig(registry, l, config);
            && (updated.Ok? <==> ConfigUsable(registry, config))
            && (updated.Err? ==>
                  updated.error == Failure(Some(Code(InvalidConfiguration)), "UpdateConfig", -1, "config",
                                           ConfigCause(registry, config)))
            && (updated.Ok? ==>
                  && LedgerOk(registry, updated.value)
                  && updated.value.config
                  == LedgerConfig(config.closedDate, Upper(config.functionalCurrency), config.rateTolerance)
                  && updated.value.provider == l.provider && updated.value.clock == l.clock)
  {
    NormalizeIsCanonical(registry, config);
    if !ConfigUsable(registry, config) {
      ConfigReports(registry, config);
    }
  }

  /******* Validation *******/

  // A transaction input, held by reference as callers hold it.
  datatype Input = Input(
    id: string, effectiveDate: int, isAdjustingEvent: bool, entries: array<Entry>, metadata: MetadataMap?)

  function WithBuilderClock(clock: Clock): BuilderOption {
    current => (Some(clock), None)
  }

  // The fresh internal builder of one validation; `system` is the clock a builder
  // without one would use.
  function LedgerState(
    registry: Registry, l: Ledger, system: Clock, id: string, date: int, flag: bool,
    entries: seq<Entry>, metadata: Option<map<string, MetaValue>>): BuilderState
  {
    var b := StartState(registry, l, system, id, date).(isAdjustingEvent := flag, entries := entries);
    WithMetadataStep(b, metadata).(operation := VALIDATE_TRANSACTION)
  }

  // What ValidateTransaction returns, and the outside afterwards.
  function LedgerOutcome(
    registry: Registry, l: Ledger, system: Clock, id: string, date: int, flag: bool, entries: seq<Entry>,
    metadata: Option<map<string, MetaValue>>, ctx: Context, out: Outside): (Result<Contents, Failure>, Outside)
  {
    var b := LedgerState(registry, l, system, id, date, flag, entries, metadata);
    var (result, after, outside) := BuildOutcome(registry, b, ctx, out);
    (result, outside)
  }

  // A transaction the ledger returns says what its input said, field by field, and is
  // posted at the ledger clock's reading.
  lemma LedgerKeepsInput(
    registry: Registry, l: Ledger, system: Clock, id: string, date: int, flag: bool, entries: seq<Entry>,
    metadata: Option<map<string, MetaValue>>, ctx: Context, out: Outside)
    requires LedgerOk(registry, l)
    ensures var (result, outside) := LedgerOutcome(registry, l, system, id, date, flag, entries, metadata, ctx, out);
            if result.Ok? then
              && result.value.id == id && result.value.effectiveDate == date && result.value.isAdjustingEvent == flag
              && result.value.entries == entries
              && result.value.metadata == (if metadata.Some? then metadata.value else map[])
              && result.value.postedAt == l.clock(out.clockReads) && outside.clockReads == out.clockReads + 1
            else result.error.operation == "ValidateTransaction" && outside.clockReads == out.clockReads
  {
    StartStateIs(registry, l, system, id, date);
    var b := LedgerState(registry, l, system, id, date, flag, entries, metadata);
    assert metadata.Some? ==> map[] + metadata.value == metadata.value;
    BuildDecides(registry, b, ctx, out);
  }

  // The books stay closed: a ledger made from a configuration accepts no transaction
  // dated at or before its closed date, adjusting events excepted.
  lemma ClosedBooksStayClosed(
    registry: Registry, config: LedgerConfig, provider: Option<Provider>, options: seq<Option<BuilderOption>>,
    system: Clock, id: string, date: int, flag: bool, entries: seq<Entry>,
    metadata: Option<map<string, MetaValue>>, ctx: Context, out: Outside)
    requires MakeLedger(registry, config, provider, options, system).Ok?
    ensures var l := MakeLedger(registry, config, provider, options, system).value;
            LedgerOutcome(registry, l, system, id, date, flag, entries, metadata, ctx, out).0.Ok? ==>
              date > config.closedDate || flag
  {
    var l := MakeLedger(registry, config, provider, options, system).value;
    NewLedgerDecides(registry, config, provider, options, system);
    LedgersAreOk(registry, config, provider, options, system, l);
    StartStateIs(registry, l, system, id, date);
    var b := LedgerState(registry, l, system, id, date, flag, entries, metadata);
    BuildDecides(registry, b, ctx, out);
    if AllHold(registry, b, ctx, out) {
      assert Holds(registry, b, ctx, out, PeriodOpen);
    }
  }

  method ValidateTransaction(registry: Registry, l: Ledger, system: Clock, ctx: Option<Context>, input: Input, world: World)
    returns (r: Result<Transaction, Failure>)
    modifies world
    ensures var given := if ctx.Some? then ctx.value else BACKGROUND;
            var metadata := if input.metadata == null then None else Some(old(input.metadata.m));
            var (result, outside) :=
              LedgerOutcome(registry, l, system, input.id, input.effectiveDate, input.isAdjustingEvent,
                            old(input.entries[..]), metadata, given, old(Observe(world)));
            && Observe(world) == outside
            && (r.Err? ==> result == Err(r.error))
            && (r.Ok? ==> fresh(r.value.entries) && fresh(r.value.metadata) && result == Ok(r.value.Read()))
  {
    var b := new TxBuilder(registry, input.id, input.effectiveDate, l.config, Some(l.provider),
                           [Some(WithBuilderClock(l.clock))], system);
    b.isAdjustingEvent := input.isAdjustingEvent;
    b.entries := input.entries[..];
    b.WithMetadata(input.metadata);
    b.operation := VALIDATE_TRANSACTION;
    assert b.State() == LedgerState(registry, l, system, input.id, input.effectiveDate, input.isAdjustingEvent,
                                    input.entries[..],
                                    if input.metadata == null then None else Some(input.metadata.m));
    r := b.BuildWith(registry, ctx, world);
  }

  method ValidateTransactionLegacy(
    registry: Registry, l: Ledger, system: Clock, id: string, date: int, flag: bool, entries: array<Entry>,
    world: World)
    returns (r: Result<Transaction, Failure>)
    modifies world
    ensures var (result, outside) :=
              LedgerOutcome(registry, l, system, id, date, flag, old(entries[..]), None, BACKGROUND, old(Observe(world)));
            && Observe(world) == outside
            && (r.Err? ==> result == Err(r.error))
            && (r.Ok? ==> fresh(r.value.entries) && fresh(r.value.metadata) && result == Ok(r.value.Read()))
  {
    r := ValidateTransaction(registry, l, system, None, Input(id, date, flag, entries, null), world);
  }

  /******* The operation name is only a label *******/

  function Relabel(failure: Option<Failure>, operation: string): Option<Failure> {
    match failure
    case None => None
    case Some(f) => Some(f.(operation := operation))
  }

  lemma {:induction false} FirstFailureRelabels<T>(
    es: seq<T>, judge: (nat, T) -> Option<Failure>, other: (nat, T) -> Option<Failure>, operation: string, i: nat)
    requires i <= |es|
    requires forall j :: 0 <= j < |es| ==> other(j, es[j]) == Relabel(judge(j, es[j]), operation)
    ensures FirstFailure(es, other, i) == Relabel(FirstFailure(es, judge, i), operation)
    decreases |es| - i
  {
    if i < |es| {
      FirstFailureRelabels(es, judge, other, operation, i + 1);
    }
  }

  // The uncached verdict depends on neither the context nor where calls start.
  lemma {:induction false} UncachedRelabels(
    s: Setting, t: Setting, entries: seq<Entry>, i: nat, calls: nat, calls': nat)
    requires i <= |entries| && t == s.(operation := t.operation, ctx := t.ctx)
    requires s.provider.Some? ==> Deterministic(s.provider.value)
    ensures UncachedRates(t, entries, i, calls') == Relabel(UncachedRates(s, entries, i, calls), t.operation)
    decreases |entries| - i
  {
    if i < |entries| {
      UncachedRelabels(s, t, entries, i + 1, calls, calls');
      UncachedRelabels(s, t, entries, i + 1, calls + 1, calls' + 1);
    }
  }

  lemma RatesRelabel(s: Setting, t: Setting, entries: seq<Entry>, start: Trace, start': Trace)
    requires t == s.(operation := t.operation, ctx := t.ctx) && Live(s.ctx) && Live(t.ctx)
    requires s.provider.Some? ==> Deterministic(s.provider.value)
    ensures RatesOutcome(t, entries, start').0 == Relabel(RatesOutcome(s, entries, start).0, t.operation)
  {
    CachedRefinesUncached(s, entries, start, 0);
    CachedRefinesUncached(t, entries, start', 0);
    UncachedRelabels(s, t, entries, 0, 0, 0);
  }

  // Two builders that differ only in the operation, under live contexts.
  lemma CheckRelabels(
    registry: Registry, b: BuilderState, c: BuilderState, ctx: Context, ctx': Context, out: Outside, out': Outside,
    check: Check)
    requires c == b.(operation := c.operation) && c.operation != ""
    requires Live(ctx) && Live(ctx') && (b.provider.Some? ==> Deterministic(b.provider.value))
    ensures Failing(registry, c, ctx', out', check)
         == Relabel(Failing(registry, b, ctx, out, check), c.operation)
  {
    match check
    case EntriesOk =>
      FirstFailureRelabels(b.entries, JudgeEntry(registry, OperationOf(b)), JudgeEntry(registry, c.operation), c.operation, 0);
    case CurrenciesOk =>
      var code := b.config.functionalCurrency;
      var judge, other := JudgeCurrency(code, OperationOf(b)), JudgeCurrency(code, c.operation);
      forall j | 0 <= j < |b.entries| ensures other(j, b.entries[j]) == Relabel(judge(j, b.entries[j]), c.operation) {
        assert judge(j, b.entries[j]) == CurrencyFailure(b.entries[j], code, OperationOf(b), j);
        assert other(j, b.entries[j]) == CurrencyFailure(b.entries[j], code, c.operation, j);
      }
      FirstFailureRelabels(b.entries, judge, other, c.operation, 0);
    case RatesOk =>
      RatesRelabel(SettingOf(b, ctx), SettingOf(c, ctx'), b.entries, AfterContextCheck(out, ctx), AfterContextCheck(out', ctx'));
    case _ =>
  }

  lemma VerdictRelabels(
    registry: Registry, b: BuilderState, c: BuilderState, ctx: Context, ctx': Context, out: Outside, out': Outside)
    requires c == b.(operation := c.operation) && c.operation != ""
    requires Live(ctx) && Live(ctx') && (b.provider.Some? ==> Deterministic(b.provider.value))
    ensures Verdict(registry, c, ctx', out') == Relabel(Verdict(registry, b, ctx, out), c.operation)
  {
    var judge, other := JudgeCheck(registry, b, ctx, out), JudgeCheck(registry, c, ctx', out');
    forall j | 0 <= j < |ORDER| ensures other(j, ORDER[j]) == Relabel(judge(j, ORDER[j]), c.operation) {
      CheckRelabels(registry, b, c, ctx, ctx', out, out', ORDER[j]);
    }
    FirstFailureRelabels(ORDER, judge, other, c.operation, 0);
  }

  /******* Path parity *******/

  // Two results that differ at most in the operation name and the posting instant.
  ghost predicate SameResult(a: Result<Contents, Failure>, b: Result<Contents, Failure>) {
    match (a, b)
    case (Ok(x), Ok(y)) => x == y.(postedAt := x.postedAt)
    case (Err(f), Err(g)) => f == g.(operation := f.operation)
    case _ => false
  }

  predicate Mutators(calls: seq<Call>) {
    forall i :: 0 <= i < |calls| ==> !calls[i].Build?
  }

  lemma {:induction false} MutatorsAccumulate(registry: Registry, b: BuilderState, out: Outside, calls: seq<Call>)
    requires !b.finalized && Mutators(calls)
    ensures RunCalls(registry, b, out, calls).b == Accumulated(b, calls)
    ensures RunCalls(registry, b, out, calls).out == out
  {
    if calls == [] {
      assert b.entries + [] == b.entries;
    } else {
      var n := |calls| - 1;
      MutatorsAccumulate(registry, b, out, calls[..n]);
      if calls[n].AddEntry? {
        assert b.entries + (EntriesOf(calls[..n]) + [calls[n].entry]) == (b.entries + EntriesOf(calls[..n])) + [calls[n].entry];
      }
    }
  }

  // The fresh state a ledger's clients and the ledger itself start a builder in.
  function StartState(registry: Registry, l: Ledger, system: Clock, id: string, date: int): BuilderState {
    NewState(registry, id, date, l.config, Some(l.provider), [Some(WithBuilderClock(l.clock))], system)
  }

  lemma StartStateIs(registry: Registry, l: Ledger, system: Clock, id: string, date: int)
    requires LedgerOk(registry, l)
    ensures StartState(registry, l, system, id, date)
         == BuilderState(id, date, false, [], map[], BUILD, false, None, l.clock, Some(l.provider), l.config)
  {
    var options: seq<Option<BuilderOption>> := [Some(WithBuilderClock(l.clock))];
    assert ApplyOptions(options, 1, Some(l.clock)) == (Some(l.clock), None);
    assert ApplyOptions(options, 0, None) == (Some(l.clock), None);
  }

  // Mutators bring a builder to the state the ledger sets up, but for the operation.
  lemma SameState(
    registry: Registry, l: Ledger, system: Clock, id: string, date: int, flag: bool, entries: seq<Entry>,
    metadata: Option<map<string, MetaValue>>, calls: seq<Call>, out: Outside)
    requires LedgerOk(registry, l)
    requires Mutators(calls) && EntriesOf(calls) == entries && FlagOf(calls, false) == flag
    requires MetadataOf(calls, map[]) == if metadata.Some? then metadata.value else map[]
    ensures var built := RunCalls(registry, StartState(registry, l, system, id, date), out, calls).b;
            && LedgerState(registry, l, system, id, date, flag, entries, metadata)
            == built.(operation := VALIDATE_TRANSACTION)
            && built.operation == BUILD && !built.finalized && built.clock == l.clock && built.provider == Some(l.provider)
  {
    StartStateIs(registry, l, system, id, date);
    MutatorsAccumulate(registry, StartState(registry, l, system, id, date), out, calls);
    assert [] + entries == entries;
    assert metadata.Some? ==> map[] + metadata.value == metadata.value;
  }

  // Relabelled builders build alike.
  lemma BuildsAlike(
    registry: Registry, b: BuilderState, operation: string, ctx: Context, out: Outside, out': Outside)
    requires b.operation == BUILD && !b.finalized && operation != ""
    requires Live(ctx) && (b.provider.Some? ==> Deterministic(b.provider.value))
    ensures var x := BuildOutcome(registry, b.(operation := operation), ctx, out).0;
            var y := BuildStep(registry, b, out').0;
            && SameResult(x, y)
            && (x.Ok? ==> x.value.postedAt == b.clock(out.clockReads))
            && (y.Ok? ==> y.value.postedAt == b.clock(out'.clockReads))
            && (x.Err? ==> x.error.operation == operation)
            && (y.Err? ==> y.error.operation == BUILD)
  {
    VerdictRelabels(registry, b, b.(operation := operation), BACKGROUND, ctx, out', out);
    VerdictRelabels(registry, b.(operation := operation), b, ctx, BACKGROUND, out, out');
  }

  // The ledger path under any live context, and a builder fed the same entries in
  // order, the same flag and the same metadata by any interleaving of mutators, agree
  // on the verdict, the transaction, and the error's code, field, entry index and
  // cause. Each posts at its own reading of the ledger's clock.
  lemma PathParity(
    registry: Registry, l: Ledger, system: Clock, id: string, date: int, flag: bool, entries: seq<Entry>,
    metadata: Option<map<string, MetaValue>>, calls: seq<Call>, ctx: Context, out: Outside, out': Outside)
    requires LedgerOk(registry, l) && Live(ctx) && Deterministic(l.provider)
    requires Mutators(calls) && EntriesOf(calls) == entries && FlagOf(calls, false) == flag
    requires MetadataOf(calls, map[]) == if metadata.Some? then metadata.value else map[]
    ensures var viaLedger := LedgerOutcome(registry, l, system, id, date, flag, entries, metadata, ctx, out).0;
            var built := RunCalls(registry, StartState(registry, l, system, id, date), out', calls).b;
            var viaBuilder := BuildStep(registry, built, out').0;
            && SameResult(viaLedger, viaBuilder)
            && (viaLedger.Ok? ==> viaLedger.value.postedAt == l.clock(out.clockReads))
            && (viaBuilder.Ok? ==> viaBuilder.value.postedAt == l.clock(out'.clockReads))
            && (viaLedger.Err? ==> viaLedger.error.operation == "ValidateTransaction")
            && (viaBuilder.Err? ==> viaBuilder.error.operation == "Build")
  {
    var built := RunCalls(registry, StartState(registry, l, system, id, date), out', calls).b;
    SameState(registry, l, system, id, date, flag, entries, metadata, calls, out');
    BuildsAlike(registry, built, VALIDATE_TRANSACTION, ctx, out, out');
  }
}
