// The transaction builder: accumulation, the fixed validation pipeline and
// finalization.
module Builder {
  import opened Wrappers
  import opened Text
  import opened Errors
  import opened Decimals
  import opened Currencies
  import opened Entries
  import opened Rates
  import opened Config

  // Metadata values are opaque to the engine.
  type MetaValue = int

  type Clock = nat -> int

  const BUILD := "Build"

  /******* State as values *******/

  datatype BuilderState = BuilderState(
    id: string, effectiveDate: int, isAdjustingEvent: bool,
    entries: seq<Entry>, metadata: map<string, MetaValue>,
    operation: string, finalized: bool, initErr: Option<Error>,
    clock: Clock, provider: Option<Provider>, config: LedgerConfig)

  // What happened outside: requests and looks at the context in order, and clock reads.
  datatype Outside = Outside(trace: Trace, clockReads: nat)

  // What a transaction says, apart from where it is stored.
  datatype Contents = Contents(
    id: string, effectiveDate: int, isAdjustingEvent: bool, postedAt: int,
    entries: seq<Entry>, metadata: map<string, MetaValue>)

  function OperationOf(b: BuilderState): string {
    if b.operation == "" then BUILD else b.operation
  }

  /******* The checks, one by one *******/

  datatype Check =
    | OptionsOk | ContextLive | ConfigOk | IDOk | DateOk | NotEmpty | MetadataOk
    | EntriesOk | CurrenciesOk | ZeroSum | PeriodOpen | RatesOk

  // The fixed order of validation.
  const ORDER: seq<Check> := [
    OptionsOk, ContextLive, ConfigOk, IDOk, DateOk, NotEmpty, MetadataOk,
    EntriesOk, CurrenciesOk, ZeroSum, PeriodOpen, RatesOk]

  function JudgeEntry(registry: Registry, operation: string): (nat, Entry) -> Option<Failure> {
    (i: nat, e: Entry) => EntryFailure(registry, e, operation, i)
  }

  function EntryFailure(registry: Registry, e: Entry, operation: string, index: nat): Option<Failure> {
    match Validate(registry, e)
    case None => None
    case Some(failure) => Some(RewrapEntry(Validation(FRESH, failure), index, operation))
  }

  function JudgeCurrency(functionalCurrency: string, operation: string): (nat, Entry) -> Option<Failure> {
    (i: nat, e: Entry) => CurrencyFailure(e, functionalCurrency, operation, i)
  }

  function CurrencyFailure(e: Entry, functionalCurrency: string, operation: string, index: nat): Option<Failure> {
    if e.functionalCurrency == functionalCurrency then None
    else Some(FailAt(CurrencyMismatch, operation, index, "functionalCurrency", None))
  }

  // The running sum of functional amounts.
  function SumFunctional(entries: seq<Entry>): Decimal {
    if entries == [] then ZERO
    else Add(SumFunctional(entries[..|entries| - 1]), entries[|entries| - 1].functionalAmount)
  }

  function SettingOf(b: BuilderState, ctx: Context): Setting {
    Setting(b.config.rateTolerance, b.provider, b.effectiveDate, OperationOf(b), ctx)
  }

  // The trace after the context check that precedes all validation.
  function AfterContextCheck(out: Outside, ctx: Context): Trace {
    Looking(out.trace, ctx)
  }

  // The failure a single check would report, if it does not hold.
  function Failing(registry: Registry, b: BuilderState, ctx: Context, out: Outside, check: Check): Option<Failure> {
    var op := OperationOf(b);
    match check
    case OptionsOk => if b.initErr.Some? then Some(Rewrap(b.initErr.value, op, "clock")) else None
    case ContextLive =>
      var err := ctx(out.trace.looks);
      if err.Some? then Some(Failure(Some(Code(RateProviderFailure)), op, -1, "context", err)) else None
    case ConfigOk =>
      var failure := ValidateConfig(registry, b.config);
      if failure.Some? then Some(Rewrap(Validation(FRESH, failure.value), op, "config")) else None
    case IDOk => if ValidAccountID(b.id) then None else Some(Fail(InvalidTransactionID, op, "id"))
    case DateOk => if b.effectiveDate != ZERO_TIME then None else Some(Fail(InvalidEffectiveDate, op, "effectiveDate"))
    case NotEmpty => if b.entries != [] then None else Some(Fail(EmptyTransaction, op, "entries"))
    case MetadataOk =>
      if forall key :: key in b.metadata ==> ValidMetadataKey(key) then None
      else Some(Fail(InvalidMetadata, op, "metadata"))
    case EntriesOk => FirstFailure(b.entries, JudgeEntry(registry, op), 0)
    case CurrenciesOk => FirstFailure(b.entries, JudgeCurrency(b.config.functionalCurrency, op), 0)
    case ZeroSum => if IsZero(SumFunctional(b.entries)) then None else Some(Fail(ZeroSumViolation, op, "entries"))
    case PeriodOpen =>
      if b.effectiveDate > b.config.closedDate || b.isAdjustingEvent then None
      else Some(Fail(PeriodClosed, op, "effectiveDate"))
    case RatesOk => RatesOutcome(SettingOf(b, ctx), b.entries, AfterContextCheck(out, ctx)).0
  }

  function JudgeCheck(registry: Registry, b: BuilderState, ctx: Context, out: Outside): (nat, Check) -> Option<Failure> {
    (i: nat, check: Check) => Failing(registry, b, ctx, out, check)
  }

  // The verdict of the checks from number `i` on: the first that fails decides.
  function VerdictFrom(registry: Registry, b: BuilderState, ctx: Context, out: Outside, i: nat): Option<Failure>
    requires i <= |ORDER|
  {
    FirstFailure(ORDER, JudgeCheck(registry, b, ctx, out), i)
  }

  function Verdict(registry: Registry, b: BuilderState, ctx: Context, out: Outside): Option<Failure> {
    VerdictFrom(registry, b, ctx, out, 0)
  }

  predicate PassesUpTo(registry: Registry, b: BuilderState, ctx: Context, out: Outside, n: nat)
    requires n <= |ORDER|
  {
    forall i :: 0 <= i < n ==> Failing(registry, b, ctx, out, ORDER[i]).None?
  }

  // The first check that fails decides the verdict.
  lemma FirstFailingDecides(registry: Registry, b: BuilderState, ctx: Context, out: Outside, n: nat)
    requires n < |ORDER| && PassesUpTo(registry, b, ctx, out, n)
    requires Failing(registry, b, ctx, out, ORDER[n]).Some?
    ensures Verdict(registry, b, ctx, out) == Failing(registry, b, ctx, out, ORDER[n])
  {
    var judge := JudgeCheck(registry, b, ctx, out);
    FirstFailureIsFirst(ORDER, judge, 0);
    assert judge(n, ORDER[n]).Some?;
  }

  // Of two consecutive checks, the first failure.
  function Either(first: Option<Failure>, second: Option<Failure>): Option<Failure> {
    if first.Some? then first else second
  }

  // Checks 3 to 6: what validateTransactionFields reports.
  function FieldsFailure(registry: Registry, b: BuilderState, ctx: Context, out: Outside): Option<Failure> {
    Either(Failing(registry, b, ctx, out, IDOk),
    Either(Failing(registry, b, ctx, out, DateOk),
    Either(Failing(registry, b, ctx, out, NotEmpty), Failing(registry, b, ctx, out, MetadataOk))))
  }

  // Checks 7 to 10: the entries, their currency, their balance and the period.
  function EntriesFailure(registry: Registry, b: BuilderState, ctx: Context, out: Outside): Option<Failure> {
    Either(Failing(registry, b, ctx, out, EntriesOk),
    Either(Failing(registry, b, ctx, out, CurrenciesOk),
    Either(Failing(registry, b, ctx, out, ZeroSum), Failing(registry, b, ctx, out, PeriodOpen))))
  }

  // A group of four checks decides, or all four pass.
  lemma GroupDecides(registry: Registry, b: BuilderState, ctx: Context, out: Outside, n: nat)
    requires n + 4 <= |ORDER| && PassesUpTo(registry, b, ctx, out, n)
    ensures var failure :=
              Either(Failing(registry, b, ctx, out, ORDER[n]),
              Either(Failing(registry, b, ctx, out, ORDER[n + 1]),
              Either(Failing(registry, b, ctx, out, ORDER[n + 2]), Failing(registry, b, ctx, out, ORDER[n + 3]))));
            if failure.Some? then
              Verdict(registry, b, ctx, out) == failure
              && forall m :: n + 4 <= m <= |ORDER| ==> !PassesUpTo(registry, b, ctx, out, m)
            else PassesUpTo(registry, b, ctx, out, n + 4)
  {
    for i := n to n + 4
      invariant PassesUpTo(registry, b, ctx, out, i)
    {
      if Failing(registry, b, ctx, out, ORDER[i]).Some? {
        FirstFailingDecides(registry, b, ctx, out, i);
        assert i == n || i == n + 1 || i == n + 2 || i == n + 3;
        return;
      }
    }
  }

  lemma AllPassing(registry: Registry, b: BuilderState, ctx: Context, out: Outside)
    ensures Verdict(registry, b, ctx, out).None? <==> PassesUpTo(registry, b, ctx, out, |ORDER|)
  {
    var judge := JudgeCheck(registry, b, ctx, out);
    FirstFailureIsFirst(ORDER, judge, 0);
    assert forall i :: 0 <= i < |ORDER| ==> judge(i, ORDER[i]) == Failing(registry, b, ctx, out, ORDER[i]);
  }

  // The first three checks decide, or all three pass.
  lemma PrepareDecides(registry: Registry, b: BuilderState, ctx: Context, out: Outside)
    ensures var failure := Either(Failing(registry, b, ctx, out, OptionsOk),
                           Either(Failing(registry, b, ctx, out, ContextLive), Failing(registry, b, ctx, out, ConfigOk)));
            if failure.Some? then
              Verdict(registry, b, ctx, out) == failure && !PassesUpTo(registry, b, ctx, out, |ORDER| - 1)
            else PassesUpTo(registry, b, ctx, out, 3)
  {
    for i := 0 to 3
      invariant PassesUpTo(registry, b, ctx, out, i)
    {
      if Failing(registry, b, ctx, out, ORDER[i]).Some? {
        FirstFailingDecides(registry, b, ctx, out, i);
        assert i == 0 || i == 1 || i == 2;
        return;
      }
    }
  }

  // Defaulting the operation changes no check.
  lemma SameChecks(registry: Registry, b: BuilderState, c: BuilderState, ctx: Context, out: Outside)
    requires c == b.(operation := OperationOf(b))
    ensures forall check :: Failing(registry, c, ctx, out, check) == Failing(registry, b, ctx, out, check)
  {
    assert SettingOf(c, ctx) == SettingOf(b, ctx);
  }

  // The trace after a build: the context is read unless an option failed, and the
  // provider is asked only when every other check holds.
  function TraceAfter(registry: Registry, b: BuilderState, ctx: Context, out: Outside): Trace {
    if b.initErr.Some? then out.trace
    else if !PassesUpTo(registry, b, ctx, out, |ORDER| - 1) then AfterContextCheck(out, ctx)
    else RatesOutcome(SettingOf(b, ctx), b.entries, AfterContextCheck(out, ctx)).1.trace
  }

  // When every earlier check passes, the rate check decides and its calls are logged.
  lemma RatesDecide(registry: Registry, b: BuilderState, ctx: Context, out: Outside)
    requires PassesUpTo(registry, b, ctx, out, |ORDER| - 1)
    ensures Verdict(registry, b, ctx, out) == RatesOutcome(SettingOf(b, ctx), b.entries, AfterContextCheck(out, ctx)).0
    ensures TraceAfter(registry, b, ctx, out)
         == RatesOutcome(SettingOf(b, ctx), b.entries, AfterContextCheck(out, ctx)).1.trace
    ensures b.initErr.None?
  {
    AllPassing(registry, b, ctx, out);
    assert Failing(registry, b, ctx, out, ORDER[0]).None?;
    if Failing(registry, b, ctx, out, ORDER[|ORDER| - 1]).Some? {
      FirstFailingDecides(registry, b, ctx, out, |ORDER| - 1);
    }
  }

  function ContentsOf(b: BuilderState, postedAt: int): Contents {
    Contents(b.id, b.effectiveDate, b.isAdjustingEvent, postedAt, b.entries, b.metadata)
  }

  // build: the result, the builder afterwards, and the outside afterwards.
  function BuildOutcome(registry: Registry, b: BuilderState, ctx: Context, out: Outside)
    : (Result<Contents, Failure>, BuilderState, Outside)
  {
    var trace := TraceAfter(registry, b, ctx, out);
    match Verdict(registry, b, ctx, out)
    case Some(failure) => (Err(failure), b.(operation := OperationOf(b)), Outside(trace, out.clockReads))
    case None =>
      (Ok(ContentsOf(b, b.clock(out.clockReads))), b.(operation := OperationOf(b), finalized := true),
       Outside(trace, out.clockReads + 1))
  }

  // Build: a finalized builder only reports that it is.
  function BuildStep(registry: Registry, b: BuilderState, out: Outside)
    : (Result<Contents, Failure>, BuilderState, Outside)
  {
    if b.finalized then (Err(Fail(BuilderFinalized, OperationOf(b), "builder")), b, out)
    else BuildOutcome(registry, b, BACKGROUND, out)
  }

  function AddEntryStep(b: BuilderState, e: Entry): BuilderState {
    if b.finalized then b else b.(entries := b.entries + [e])
  }

  function SetAdjustingStep(b: BuilderState, flag: bool): BuilderState {
    if b.finalized then b else b.(isAdjustingEvent := flag)
  }

  function WithMetadataStep(b: BuilderState, meta: Option<map<string, MetaValue>>): BuilderState {
    if b.finalized || meta.None? then b else b.(metadata := b.metadata + meta.value)
  }

  // Builder options, applied in order; the first error stops them.
  type BuilderOption = Option<Clock> -> (Option<Clock>, Option<Error>)

  function ApplyOptions(options: seq<Option<BuilderOption>>, i: nat, clock: Option<Clock>): (Option<Clock>, Option<Error>)
    requires i <= |options|
    decreases |options| - i
  {
    if i == |options| then (clock, None)
    else if options[i].None? then ApplyOptions(options, i + 1, clock)
    else
      var (next, err) := options[i].value(clock);
      if err.Some? then (next, err) else ApplyOptions(options, i + 1, next)
  }

  function NewState(
    registry: Registry, id: string, date: int, config: LedgerConfig, provider: Option<Provider>,
    options: seq<Option<BuilderOption>>, system: Clock): BuilderState
  {
    var (clock, err) := ApplyOptions(options, 0, None);
    BuilderState(id, date, false, [], map[], BUILD, false, err,
                 if clock.Some? then clock.value else system, provider, NormalizeConfig(registry, config))
  }

  function Observe(world: World): Outside
    reads world
  {
    Outside(world.trace, world.clockReads)
  }

  /******* Storage *******/

  // A Go map held by reference.
  class MetadataMap {
    var m: map<string, MetaValue>

    constructor (m: map<string, MetaValue>)
      ensures this.m == m
    {
      this.m := m;
    }
  }

  // A built transaction: values, a slice of its own and a map of its own.
  datatype Transaction = Transaction(
    id: string, effectiveDate: int, isAdjustingEvent: bool, postedAt: int,
    entries: array<Entry>, metadata: MetadataMap)
  {
    function Read(): Contents
      reads entries, metadata
    {
      Contents(id, effectiveDate, isAdjustingEvent, postedAt, entries[..], metadata.m)
    }

    // Entries: a defensive copy.
    method Entries() returns (copied: array<Entry>)
      ensures fresh(copied) && copied[..] == entries[..]
    {
      copied := CopyEntries(entries[..]);
    }

    // Metadata: a defensive copy.
    method Metadata() returns (copied: MetadataMap)
      ensures fresh(copied) && copied.m == metadata.m
    {
      copied := CopyMetadata(metadata.m);
    }
  }

  method CopyEntries(entries: seq<Entry>) returns (copied: array<Entry>)
    ensures fresh(copied) && copied[..] == entries
  {
    copied := new Entry[|entries|](i requires 0 <= i < |entries| => entries[i]);
  }

  // copyMetadata: key by key, in whatever order the map iterates.
  method CopyMetadata(metadata: map<string, MetaValue>) returns (copied: MetadataMap)
    ensures fresh(copied) && copied.m == metadata
  {
    copied := new MetadataMap(map[]);
    var left := metadata.Keys;
    while left != {}
      invariant left <= metadata.Keys
      invariant copied.m == map key | key in metadata && key !in left :: metadata[key]
      decreases left
    {
      var key :| key in left;
      copied.m := copied.m[key := metadata[key]];
      left := left - {key};
    }
  }

  /******* The builder *******/

  class TxBuilder {
    var id: string
    var effectiveDate: int
    var isAdjustingEvent: bool
    var entries: seq<Entry>
    var metadata: map<string, MetaValue>
    var operation: string
    var finalized: bool
    var initErr: Option<Error>
    var clock: Clock
    var provider: Option<Provider>
    var config: LedgerConfig

    function State(): BuilderState
      reads this
    {
      BuilderState(id, effectiveDate, isAdjustingEvent, entries, metadata, operation, finalized, initErr,
                   clock, provider, config)
    }

    // NewTxBuilder: option errors are kept for Build, and a missing clock is the system's.
    constructor (
      registry: Registry, id: string, date: int, config: LedgerConfig, provider: Option<Provider>,
      options: seq<Option<BuilderOption>>, system: Clock)
      ensures State() == NewState(registry, id, date, config, provider, options, system)
    {
      var chosen: Option<Clock>, failed: Option<Error> := None, None;
      var i := 0;
      while i < |options| && failed.None?
        invariant 0 <= i <= |options|
        invariant ApplyOptions(options, 0, None)
               == if failed.Some? then (chosen, failed) else ApplyOptions(options, i, chosen)
      {
        if options[i].Some? {
          var (next, err) := options[i].value(chosen);
          chosen, failed := next, err;
        }
        i := i + 1;
      }
      this.id, this.effectiveDate, this.isAdjustingEvent := id, date, false;
      this.entries, this.metadata, this.operation := [], map[], BUILD;
      this.finalized, this.initErr, this.provider := false, failed, provider;
      var clock: Clock := system;
      if chosen.Some? {
        clock := chosen.value;
      }
      this.clock := clock;
      this.config := NormalizeConfig(registry, config);
    }

    method AddEntry(e: Entry)
      modifies this
      ensures State() == AddEntryStep(old(State()), e)
    {
      if finalized {
        return;
      }
      entries := entries + [e];
    }

    method SetAdjustingEvent(flag: bool)
      modifies this
      ensures State() == SetAdjustingStep(old(State()), flag)
    {
      if finalized {
        return;
      }
      isAdjustingEvent := flag;
    }

    // WithMetadata: merge the caller's map, key by key, in whatever order it iterates.
    method WithMetadata(meta: MetadataMap?)
      modifies this
      ensures State() == WithMetadataStep(old(State()), if meta == null then None else Some(meta.m))
    {
      if finalized || meta == null {
        return;
      }
      var left := meta.m.Keys;
      while left != {}
        invariant left <= meta.m.Keys
        invariant State() == old(State()).(metadata := metadata)
        invariant metadata == old(metadata) + map key | key in meta.m && key !in left :: meta.m[key]
        decreases left
      {
        var key :| key in left;
        metadata := metadata[key := meta.m[key]];
        left := left - {key};
      }
      assert meta.m == map key | key in meta.m && key !in left :: meta.m[key];
    }

    method ValidateMetadataKeys() returns (failure: Option<Failure>)
      ensures failure == if forall key :: key in metadata ==> ValidMetadataKey(key) then None
                         else Some(Fail(InvalidMetadata, operation, "metadata"))
    {
      var left := metadata.Keys;
      while left != {}
        invariant left <= metadata.Keys
        invariant forall key :: key in metadata && key !in left ==> ValidMetadataKey(key)
        decreases left
      {
        var key :| key in left;
        var ok := CheckBounded(key, MAX_METADATA_KEY_BYTES);
        if !ok {
          return Some(Fail(InvalidMetadata, operation, "metadata"));
        }
        left := left - {key};
      }
      return None;
    }

    method ValidateEntries(registry: Registry) returns (failure: Option<Failure>)
      ensures failure == FirstFailure(entries, JudgeEntry(registry, operation), 0)
    {
      for i := 0 to |entries|
        invariant FirstFailure(entries, JudgeEntry(registry, operation), i)
               == FirstFailure(entries, JudgeEntry(registry, operation), 0)
      {
        var invalid := Validate(registry, entries[i]);
        if invalid.Some? {
          return Some(RewrapEntry(Validation(FRESH, invalid.value), i, operation));
        }
      }
      return None;
    }

    method ValidateCurrencyConsistency() returns (failure: Option<Failure>)
      ensures failure == FirstFailure(entries, JudgeCurrency(config.functionalCurrency, operation), 0)
    {
      for i := 0 to |entries|
        invariant FirstFailure(entries, JudgeCurrency(config.functionalCurrency, operation), i)
               == FirstFailure(entries, JudgeCurrency(config.functionalCurrency, operation), 0)
      {
        if entries[i].functionalCurrency != config.functionalCurrency {
          return Some(FailAt(CurrencyMismatch, operation, i, "functionalCurrency", None));
        }
      }
      return None;
    }

    method ValidateZeroSum() returns (failure: Option<Failure>)
      ensures failure == if IsZero(SumFunctional(entries)) then None
                         else Some(Fail(ZeroSumViolation, operation, "entries"))
    {
      var sum := ZERO;
      for i := 0 to |entries|
        invariant sum == SumFunctional(entries[..i])
      {
        assert entries[..i + 1][..i] == entries[..i];
        sum := Add(sum, entries[i].functionalAmount);
      }
      assert entries[..|entries|] == entries;
      return if IsZero(sum) then None else Some(Fail(ZeroSumViolation, operation, "entries"));
    }

    method ValidatePeriod() returns (failure: Option<Failure>)
      ensures failure == if effectiveDate > config.closedDate || isAdjustingEvent then None
                         else Some(Fail(PeriodClosed, operation, "effectiveDate"))
    {
      if effectiveDate > config.closedDate {
        return None;
      }
      if isAdjustingEvent {
        return None;
      }
      return Some(Fail(PeriodClosed, operation, "effectiveDate"));
    }

    method ValidateTransactionFields(registry: Registry, ghost ctx: Context, ghost out: Outside)
      returns (failure: Option<Failure>)
      requires operation != ""
      ensures failure == FieldsFailure(registry, State(), ctx, out)
    {
      var idOk := CheckBounded(id, MAX_ACCOUNT_ID_BYTES);
      if !idOk {
        return Some(Fail(InvalidTransactionID, operation, "id"));
      }
      if effectiveDate == ZERO_TIME {
        return Some(Fail(InvalidEffectiveDate, operation, "effectiveDate"));
      }
      if |entries| == 0 {
        return Some(Fail(EmptyTransaction, operation, "entries"));
      }
      failure := ValidateMetadataKeys();
    }

    method ValidateEntryGroup(registry: Registry, ghost ctx: Context, ghost out: Outside)
      returns (failure: Option<Failure>)
      requires operation != ""
      ensures failure == EntriesFailure(registry, State(), ctx, out)
    {
      failure := ValidateEntries(registry);
      if failure.Some? {
        return;
      }
      failure := ValidateCurrencyConsistency();
      if failure.Some? {
        return;
      }
      failure := ValidateZeroSum();
      if failure.Some? {
        return;
      }
      failure := ValidatePeriod();
    }

    // prepare, the context check and the configuration check.
    method Prepare(registry: Registry, ctx: Context, world: World) returns (failure: Option<Failure>)
      modifies this`operation, world`trace
      ensures operation == OperationOf(old(State()))
      ensures failure == Either(Failing(registry, old(State()), ctx, old(Observe(world)), OptionsOk),
                         Either(Failing(registry, old(State()), ctx, old(Observe(world)), ContextLive),
                                Failing(registry, old(State()), ctx, old(Observe(world)), ConfigOk)))
      ensures world.trace == if initErr.Some? then old(world.trace) else AfterContextCheck(old(Observe(world)), ctx)
    {
      if operation == "" {
        operation := BUILD;
      }
      if initErr.Some? {
        return Some(Rewrap(initErr.value, operation, "clock"));
      }
      var ctxErr := world.ContextErr(ctx);
      if ctxErr.Some? {
        return Some(Failure(Some(Code(RateProviderFailure)), operation, -1, "context", ctxErr));
      }
      var configErr := ValidateConfig(registry, config);
      if configErr.Some? {
        return Some(Rewrap(Validation(FRESH, configErr.value), operation, "config"));
      }
      return None;
    }

    // Every check but the last.
    method CheckBeforeRates(registry: Registry, ctx: Context, world: World) returns (failure: Option<Failure>)
      modifies this`operation, world`trace
      ensures operation == OperationOf(old(State()))
      ensures var b, out := old(State()), old(Observe(world));
              if failure.None? then PassesUpTo(registry, b, ctx, out, |ORDER| - 1)
              else Verdict(registry, b, ctx, out) == failure && !PassesUpTo(registry, b, ctx, out, |ORDER| - 1)
      ensures world.trace == if initErr.Some? then old(world.trace) else AfterContextCheck(old(Observe(world)), ctx)
    {
      ghost var b, out := State(), Observe(world);
      failure := Prepare(registry, ctx, world);
      PrepareDecides(registry, b, ctx, out);
      if failure.Some? {
        return;
      }
      SameChecks(registry, b, State(), ctx, out);
      failure := ValidateTransactionFields(registry, ctx, out);
      GroupDecides(registry, b, ctx, out, 3);
      if failure.Some? {
        return;
      }
      failure := ValidateEntryGroup(registry, ctx, out);
      GroupDecides(registry, b, ctx, out, 7);
    }

    // All checks, in order.
    method Check(registry: Registry, ctx: Context, world: World) returns (failure: Option<Failure>)
      modifies this`operation, world`trace
      ensures operation == OperationOf(old(State()))
      ensures failure == Verdict(registry, old(State()), ctx, old(Observe(world)))
      ensures world.trace == TraceAfter(registry, old(State()), ctx, old(Observe(world)))
    {
      ghost var b, out := State(), Observe(world);
      failure := CheckBeforeRates(registry, ctx, world);
      if failure.Some? {
        return;
      }
      RatesDecide(registry, b, ctx, out);
      var setting := Setting(config.rateTolerance, provider, effectiveDate, operation, ctx);
      assert setting == SettingOf(b, ctx) && world.trace == AfterContextCheck(out, ctx);
      failure := ValidateRates(setting, entries, world);
    }

    // The whole pipeline under a context; a nil context is the background.
    method BuildWith(registry: Registry, given: Option<Context>, world: World)
      returns (r: Result<Transaction, Failure>)
      modifies this, world
      ensures var ctx := if given.Some? then given.value else BACKGROUND;
              var (result, after, out) := BuildOutcome(registry, old(State()), ctx, old(Observe(world)));
              && State() == after && Observe(world) == out
              && (r.Err? ==> result == Err(r.error))
              && (r.Ok? ==> fresh(r.value.entries) && fresh(r.value.metadata) && result == Ok(r.value.Read()))
      ensures r.Ok? ==>
                && r.value.id == old(id) && r.value.effectiveDate == old(effectiveDate)
                && r.value.isAdjustingEvent == old(isAdjustingEvent) && r.value.postedAt == old(clock)(old(world.clockReads))
                && r.value.entries[..] == old(entries) && r.value.metadata.m == old(metadata)
    {
      var ctx: Context := BACKGROUND;
      if given.Some? {
        ctx := given.value;
      }
      var failure := Check(registry, ctx, world);
      if failure.Some? {
        return Err(failure.value);
      }
      var now := world.Now(clock);
      var copiedEntries := CopyEntries(entries);
      var copiedMetadata := CopyMetadata(metadata);
      finalized := true;
      return Ok(Transaction(id, effectiveDate, isAdjustingEvent, now, copiedEntries, copiedMetadata));
    }

    method Build(registry: Registry, world: World) returns (r: Result<Transaction, Failure>)
      modifies this, world
      ensures var (result, after, out) := BuildStep(registry, old(State()), old(Observe(world)));
              && State() == after && Observe(world) == out
              && (r.Err? ==> result == Err(r.error))
              && (r.Ok? ==> fresh(r.value.entries) && fresh(r.value.metadata) && result == Ok(r.value.Read()))
      ensures r.Ok? ==>
                && r.value.id == old(id) && r.value.effectiveDate == old(effectiveDate)
                && r.value.isAdjustingEvent == old(isAdjustingEvent) && r.value.postedAt == old(clock)(old(world.clockReads))
                && r.value.entries[..] == old(entries) && r.value.metadata.m == old(metadata)
    {
      if finalized {
        return Err(Fail(BuilderFinalized, if operation == "" then BUILD else operation, "builder"));
      }
      r := BuildWith(registry, None, world);
    }
  }
}
