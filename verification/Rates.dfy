// The rate validator: one provider call per distinct foreign pair, cached for the
// length of one validation, with cancellation observed around every call.
module Rates {
  import opened Wrappers
  import opened Errors
  import opened Decimals
  import opened Entries

  datatype RateRequest = RateRequest(base: string, quote: string, asOf: int)

  type Answer = Result<Decimal, Error>

  // Any provider, stateful or not: its answer to a request may depend on how many
  // requests came before.
  type Provider = (nat, RateRequest) -> Answer

  // Any context: the error its n-th inspection reports.
  type Context = nat -> Option<Error>

  const BACKGROUND: Context := n => None

  ghost predicate Live(ctx: Context) {
    forall n :: ctx(n).None?
  }

  // The interface's contract: the same request gets the same answer.
  ghost predicate Deterministic(provider: Provider) {
    forall n, request :: provider(n, request) == provider(0, request)
  }

  // What a validation does to the outside: it asks the provider, or looks at the
  // context and sees its error or none.
  datatype Event = Asked(request: RateRequest) | Looked(err: Option<Error>)

  // Everything a validation did outside, in order, with its requests and its looks
  // counted as they happen.
  datatype Trace = Trace(log: seq<Event>, calls: seq<RateRequest>, looks: nat)

  const NOTHING: Trace := Trace([], [], 0)

  // The trace after one more request.
  function Asking(trace: Trace, request: RateRequest): Trace {
    Trace(trace.log + [Asked(request)], trace.calls + [request], trace.looks)
  }

  // The trace after one more look at the context.
  function Looking(trace: Trace, ctx: Context): Trace {
    Trace(trace.log + [Looked(ctx(trace.looks))], trace.calls, trace.looks + 1)
  }

  datatype RateState = RateState(cache: map<RateRequest, Decimal>, trace: Trace)

  // The fixed inputs of one rate validation.
  datatype Setting = Setting(
    tolerance: Decimal, provider: Option<Provider>, asOf: int, operation: string, ctx: Context)

  /******* Scanning for the first failure *******/

  // The failure of the first element that has one.
  function FirstFailure<T>(es: seq<T>, judge: (nat, T) -> Option<Failure>, i: nat): Option<Failure>
    requires i <= |es|
    decreases |es| - i
  {
    if i == |es| then None
    else if judge(i, es[i]).Some? then judge(i, es[i])
    else FirstFailure(es, judge, i + 1)
  }

  lemma {:induction false} FirstFailureIsFirst<T>(es: seq<T>, judge: (nat, T) -> Option<Failure>, i: nat)
    requires i <= |es|
    ensures FirstFailure(es, judge, i).None? <==> forall j :: i <= j < |es| ==> judge(j, es[j]).None?
    ensures FirstFailure(es, judge, i).Some? ==>
              exists j :: i <= j < |es| && judge(j, es[j]) == FirstFailure(es, judge, i)
                && forall k :: i <= k < j ==> judge(k, es[k]).None?
    decreases |es| - i
  {
    if i < |es| && judge(i, es[i]).None? {
      FirstFailureIsFirst(es, judge, i + 1);
    }
  }

  /******* The cached loop, as a function of its state *******/

  function RateError(s: Setting, sentinel: Sentinel, index: nat, field: string, cause: Option<Error>): Failure {
    FailAt(sentinel, s.operation, index, field, cause)
  }

  // The failure for a provider error, a context error, or both.
  function ProviderFailure(s: Setting, index: nat, providerErr: Option<Error>, ctxErr: Option<Error>): Failure {
    match (providerErr, ctxErr)
    case (Some(p), Some(c)) =>
      RateError(s, RateProviderFailure, index, "context", Some(Joined(Some(FRESH), [Wrapped(FRESH, p), c])))
    case (Some(p), None) => RateError(s, RateProviderFailure, index, "rate", Some(Wrapped(FRESH, p)))
    case (None, c) => RateError(s, RateProviderFailure, index, "context", c)
  }

  // resolveRate: the cached rate, or one call followed by one look at the context.
  function ResolveRate(s: Setting, provider: Provider, request: RateRequest, index: nat, st: RateState)
    : (Result<Decimal, Failure>, RateState)
  {
    if request in st.cache then (Ok(st.cache[request]), st)
    else
      var answer := provider(|st.trace.calls|, request);
      var ctxErr := s.ctx(st.trace.looks);
      var trace := Looking(Asking(st.trace, request), s.ctx);
      if answer.Err? then (Err(ProviderFailure(s, index, Some(answer.error), ctxErr)), RateState(st.cache, trace))
      else if ctxErr.Some? then (Err(ProviderFailure(s, index, None, ctxErr)), RateState(st.cache, trace))
      else (Ok(answer.value), RateState(st.cache[request := answer.value], trace))
  }

  // The comparison of an entry's rate with the provider's.
  function CompareRates(s: Setting, e: Entry, index: nat, rate: Decimal): Option<Failure> {
    if !IsPositive(rate) then Some(RateError(s, InvalidExchangeRate, index, "rate", None))
    else if GreaterThan(Abs(Sub(rate, e.exchangeRate)), s.tolerance) then
      Some(RateError(s, RateDeviation, index, "rate", None))
    else None
  }

  // validateEntryRate
  function CheckRate(s: Setting, e: Entry, index: nat, st: RateState): (Option<Failure>, RateState) {
    if !IsPositive(e.exchangeRate) then
      (Some(RateError(s, InvalidExchangeRate, index, "exchangeRate", None)), st)
    else
      var looked := st.(trace := Looking(st.trace, s.ctx));
      var ctxErr := s.ctx(st.trace.looks);
      if ctxErr.Some? then (Some(RateError(s, RateProviderFailure, index, "context", ctxErr)), looked)
      else if s.provider.None? then (Some(RateError(s, NilRateProvider, index, "rate", None)), looked)
      else
        var request := RateRequest(e.txCurrency, e.functionalCurrency, s.asOf);
        var (rate, after) := ResolveRate(s, s.provider.value, request, index, looked);
        match rate
        case Err(failure) => (Some(failure), after)
        case Ok(r) => (CompareRates(s, e, index, r), after)
  }

  // validateRates from entry `i` on.
  function RunRates(s: Setting, entries: seq<Entry>, i: nat, st: RateState): (Option<Failure>, RateState)
    requires i <= |entries|
    decreases |entries| - i
  {
    if i == |entries| then (None, st)
    else if entries[i].txCurrency == entries[i].functionalCurrency then RunRates(s, entries, i + 1, st)
    else
      var (failure, after) := CheckRate(s, entries[i], i, st);
      if failure.Some? then (failure, after) else RunRates(s, entries, i + 1, after)
  }

  // validateRates as a whole: it starts with an empty cache.
  function RatesOutcome(s: Setting, entries: seq<Entry>, start: Trace): (Option<Failure>, RateState) {
    RunRates(s, entries, 0, RateState(map[], start))
  }

  /******* The loop itself *******/

  // The outside world: one log of provider requests and looks at the context, and
  // the number of clock reads.
  class World {
    var trace: Trace
    var clockReads: nat

    constructor ()
      ensures trace == NOTHING && clockReads == 0
    {
      trace, clockReads := NOTHING, 0;
    }

    method GetRate(provider: Provider, request: RateRequest) returns (answer: Answer)
      modifies this`trace
      ensures answer == provider(|old(trace).calls|, request)
      ensures trace == Asking(old(trace), request)
    {
      answer := provider(|trace.calls|, request);
      trace := Asking(trace, request);
    }

    method ContextErr(ctx: Context) returns (err: Option<Error>)
      modifies this`trace
      ensures err == ctx(old(trace).looks) && trace == Looking(old(trace), ctx)
    {
      err := ctx(trace.looks);
      trace := Looking(trace, ctx);
    }

    method Now(clock: nat -> int) returns (now: int)
      modifies this`clockReads
      ensures now == clock(old(clockReads)) && clockReads == old(clockReads) + 1
    {
      now := clock(clockReads);
      clockReads := clockReads + 1;
    }
  }

  // The cache map, shared by reference between the loop and its helpers.
  class RateCache {
    var rates: map<RateRequest, Decimal>

    constructor ()
      ensures rates == map[]
    {
      rates := map[];
    }
  }

  method Resolve(s: Setting, provider: Provider, request: RateRequest, index: nat, cache: RateCache, world: World)
    returns (r: Result<Decimal, Failure>)
    modifies cache, world`trace
    ensures (r, RateState(cache.rates, world.trace))
         == ResolveRate(s, provider, request, index, old(RateState(cache.rates, world.trace)))
  {
    if request in cache.rates {
      return Ok(cache.rates[request]);
    }
    var answer := world.GetRate(provider, request);
    var ctxErr := world.ContextErr(s.ctx);
    if answer.Err? {
      return Err(ProviderFailure(s, index, Some(answer.error), ctxErr));
    }
    if ctxErr.Some? {
      return Err(ProviderFailure(s, index, None, ctxErr));
    }
    cache.rates := cache.rates[request := answer.value];
    return Ok(answer.value);
  }

  method ValidateEntryRate(s: Setting, e: Entry, index: nat, cache: RateCache, world: World)
    returns (failure: Option<Failure>)
    modifies cache, world`trace
    ensures (failure, RateState(cache.rates, world.trace))
         == CheckRate(s, e, index, old(RateState(cache.rates, world.trace)))
  {
    if !IsPositive(e.exchangeRate) {
      return Some(RateError(s, InvalidExchangeRate, index, "exchangeRate", None));
    }
    var ctxErr := world.ContextErr(s.ctx);
    if ctxErr.Some? {
      return Some(RateError(s, RateProviderFailure, index, "context", ctxErr));
    }
    if s.provider.None? {
      return Some(RateError(s, NilRateProvider, index, "rate", None));
    }
    var rate := Resolve(s, s.provider.value, RateRequest(e.txCurrency, e.functionalCurrency, s.asOf), index, cache, world);
    if rate.Err? {
      return Some(rate.error);
    }
    return CompareRates(s, e, index, rate.value);
  }

  method ValidateRates(s: Setting, entries: seq<Entry>, world: World) returns (failure: Option<Failure>)
    modifies world`trace
    ensures failure == RatesOutcome(s, entries, old(world.trace)).0
    ensures world.trace == RatesOutcome(s, entries, old(world.trace)).1.trace
  {
    var cache := new RateCache();
    for i := 0 to |entries|
      invariant RunRates(s, entries, i, RateState(cache.rates, world.trace))
             == RatesOutcome(s, entries, old(world.trace))
    {
      if entries[i].txCurrency == entries[i].functionalCurrency {
        continue;
      }
      failure := ValidateEntryRate(s, entries[i], i, cache, world);
      if failure.Some? {
        return;
      }
    }
    return None;
  }
}
