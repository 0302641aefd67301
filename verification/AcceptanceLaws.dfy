// Laws of builds and of accepted transactions: what a build does outside, reordering,
// concatenation and reversal.
module AcceptanceLaws {
  import opened Wrappers
  import opened Errors
  import opened Decimals
  import opened Currencies
  import opened Entries
  import opened Rates
  import opened Requests
  import opened RateLaws
  import opened RateErrors
  import opened RateLog
  import opened Config
  import opened Builder
  import opened Sums
  import opened BuilderLaws

  // Whether a build succeeds: BuildOutcome returns a transaction exactly then.
  ghost predicate Accepted(registry: Registry, b: BuilderState, ctx: Context, out: Outside) {
    Verdict(registry, b, ctx, out).None?
  }

  // The conditions on the builder's own fields.
  ghost predicate FieldsAccepted(registry: Registry, b: BuilderState) {
    && b.initErr.None?
    && ConfigUsable(registry, b.config)
    && Printable(b.id, 255) && b.effectiveDate != 0
    && ValidKeys(b.metadata)
    && (b.effectiveDate > b.config.closedDate || b.isAdjustingEvent)
  }

  // The conditions on the entries that involve no provider.
  ghost predicate EntriesAccepted(registry: Registry, b: BuilderState) {
    && b.entries != []
    && AllValid(registry, b.entries) && AllIn(b.entries, b.config.functionalCurrency)
    && Total(b.entries, FunctionalValue()) == 0.0
  }

  // Acceptance: the fields, the entries, a live context at the start, and the rates.
  lemma AcceptedMeans(registry: Registry, b: BuilderState, ctx: Context, out: Outside)
    ensures Accepted(registry, b, ctx, out) <==>
              && FieldsAccepted(registry, b) && EntriesAccepted(registry, b)
              && ctx(out.trace.looks).None?
              && RatesHold(b, ctx, |out.trace.calls|, out.trace.looks + 1)
  {
    PassingIsHolding(registry, b, ctx, out);
    EachHolds(registry, b, ctx, out);
  }

  lemma EachHolds(registry: Registry, b: BuilderState, ctx: Context, out: Outside)
    ensures AllHold(registry, b, ctx, out) <==>
              && FieldsAccepted(registry, b) && EntriesAccepted(registry, b)
              && ctx(out.trace.looks).None?
              && RatesHold(b, ctx, |out.trace.calls|, out.trace.looks + 1)
  {
    if AllHold(registry, b, ctx, out) {
      FieldsHold(registry, b, ctx, out);
      assert Holds(registry, b, ctx, out, ContextLive) && Holds(registry, b, ctx, out, RatesOk);
    }
  }

  lemma FieldsHold(registry: Registry, b: BuilderState, ctx: Context, out: Outside)
    requires AllHold(registry, b, ctx, out)
    ensures FieldsAccepted(registry, b) && EntriesAccepted(registry, b)
  {
    assert Holds(registry, b, ctx, out, OptionsOk) && Holds(registry, b, ctx, out, ConfigOk);
    assert Holds(registry, b, ctx, out, IDOk) && Holds(registry, b, ctx, out, DateOk);
    assert Holds(registry, b, ctx, out, NotEmpty) && Holds(registry, b, ctx, out, MetadataOk);
    assert Holds(registry, b, ctx, out, EntriesOk) && Holds(registry, b, ctx, out, CurrenciesOk);
    assert Holds(registry, b, ctx, out, ZeroSum) && Holds(registry, b, ctx, out, PeriodOpen);
  }

  /******* The provider log of a build *******/

  // What a build asks: nothing when an earlier check fails, and otherwise what the rate
  // check asks, which is every pair on success and nothing past the failing entry.
  ghost predicate AskedInBuild(registry: Registry, b: BuilderState, ctx: Context, out: Outside, n: nat) {
    if PassesUpTo(registry, b, ctx, out, |ORDER| - 1) then
      AskedFor(SettingOf(b, ctx), b.entries, AfterContextCheck(out, ctx), Verdict(registry, b, ctx, out), n)
    else n == 0
  }

  // Over every build: no request is repeated, requests come in order of first need over
  // a prefix of the entries, and a failure before the rate check asks nothing.
  lemma BuildRequestLog(registry: Registry, b: BuilderState, ctx: Context, out: Outside) returns (n: nat)
    ensures n <= |b.entries| && AskedInBuild(registry, b, ctx, out, n)
    ensures BuildOutcome(registry, b, ctx, out).0.Ok? ==> n == |b.entries|
    ensures BuildOutcome(registry, b, ctx, out).0.Err? && FirstBroken(registry, b, ctx, out) != Some(RatesOk) ==> n == 0
    ensures var asked := DistinctRequests(b.entries[..n], b.effectiveDate);
            && BuildOutcome(registry, b, ctx, out).2.trace.calls == out.trace.calls + asked
            && NoRepeats(asked) && InOrderOfNeed(b.entries[..n], b.effectiveDate, asked)
  {
    n := 0;
    if PassesUpTo(registry, b, ctx, out, |ORDER| - 1) {
      RatesDecide(registry, b, ctx, out);
      n := RequestLog(SettingOf(b, ctx), b.entries, AfterContextCheck(out, ctx));
      OnlyRatesBroken(registry, b, ctx, out);
    } else {
      AllPassing(registry, b, ctx, out);
    }
    DistinctRequestsAre(b.entries[..n], b.effectiveDate);
  }

  lemma OnlyRatesBroken(registry: Registry, b: BuilderState, ctx: Context, out: Outside)
    requires PassesUpTo(registry, b, ctx, out, |ORDER| - 1)
    ensures Verdict(registry, b, ctx, out).Some? ==> FirstBroken(registry, b, ctx, out) == Some(RatesOk)
  {
    AllPassing(registry, b, ctx, out);
    forall m | 0 <= m < |ORDER|
      ensures Failing(registry, b, ctx, out, ORDER[m]).None? <==> Holds(registry, b, ctx, out, ORDER[m])
    {
      CheckMeans(registry, b, ctx, out, ORDER[m]);
    }
    if Verdict(registry, b, ctx, out).Some? {
      NamesInOrder();
      FirstInOrder(registry, b, ctx, out, |ORDER| - 1);
    }
  }

  // The outside of a build is the trace of its checks.
  lemma BuildTrace(registry: Registry, b: BuilderState, ctx: Context, out: Outside)
    ensures BuildOutcome(registry, b, ctx, out).2
         == Outside(TraceAfter(registry, b, ctx, out),
                    out.clockReads + if Verdict(registry, b, ctx, out).None? then 1 else 0)
  {
  }

  // In every build, whatever the provider and the context: every request is made right
  // after a clean look and is followed by a look, and a look that reports an error is
  // the last thing the build does outside.
  lemma BuildIsOrdered(registry: Registry, b: BuilderState, ctx: Context, out: Outside) returns (events: seq<Event>)
    ensures BuildOutcome(registry, b, ctx, out).2.trace.log == out.trace.log + events
    ensures Ordered(events)
  {
    BuildTrace(registry, b, ctx, out);
    if PassesUpTo(registry, b, ctx, out, |ORDER| - 1) {
      RatesDecide(registry, b, ctx, out);
      StartsClean(registry, b, ctx, out);
      events := LookThenRates(b, ctx, out);
    } else {
      events := if b.initErr.Some? then [] else [Looked(ctx(out.trace.looks))];
    }
  }

  lemma StartsClean(registry: Registry, b: BuilderState, ctx: Context, out: Outside)
    requires PassesUpTo(registry, b, ctx, out, |ORDER| - 1)
    ensures ctx(out.trace.looks).None?
  {
    assert Failing(registry, b, ctx, out, ORDER[1]).None?;
  }

  lemma LookThenRates(b: BuilderState, ctx: Context, out: Outside) returns (events: seq<Event>)
    requires ctx(out.trace.looks).None?
    ensures RatesOutcome(SettingOf(b, ctx), b.entries, AfterContextCheck(out, ctx)).1.trace.log == out.trace.log + events
    ensures Ordered(events)
  {
    var checked := AfterContextCheck(out, ctx);
    RunIsOrdered(SettingOf(b, ctx), b.entries, checked);
    var log := RatesOutcome(SettingOf(b, ctx), b.entries, checked).1.trace.log;
    OrderedConcat([Looked(None)], log[|checked.log|..]);
    events := [Looked(None)] + log[|checked.log|..];
  }

  // The request for an entry's pair: from its transaction currency to its functional
  // currency, as of the builder's effective date.
  ghost predicate AsksFor(b: BuilderState, e: Entry, event: Event) {
    && e in b.entries && e.txCurrency != e.functionalCurrency
    && event == Asked(RateRequest(e.txCurrency, e.functionalCurrency, b.effectiveDate))
  }

  // In every build each request is for the pair of some foreign entry and is made at one
  // place only; a build that succeeds has requested every foreign entry's pair.
  lemma BuildAsksForPairs(registry: Registry, b: BuilderState, ctx: Context, out: Outside) returns (events: seq<Event>)
    ensures BuildOutcome(registry, b, ctx, out).2.trace.log == out.trace.log + events
    ensures forall k :: 0 <= k < |events| && events[k].Asked? ==> exists e :: AsksFor(b, e, events[k])
    ensures forall j, k :: 0 <= j < k < |events| && events[j].Asked? ==> events[k] != events[j]
    ensures BuildOutcome(registry, b, ctx, out).0.Ok? ==>
              forall e :: e in b.entries && e.txCurrency != e.functionalCurrency ==>
                exists k :: 0 <= k < |events| && AsksFor(b, e, events[k])
  {
    BuildTrace(registry, b, ctx, out);
    AllPassing(registry, b, ctx, out);
    if PassesUpTo(registry, b, ctx, out, |ORDER| - 1) {
      RatesDecide(registry, b, ctx, out);
      var n := RequestLog(SettingOf(b, ctx), b.entries, AfterContextCheck(out, ctx));
      events := LookThenAsks(b, ctx, out, n);
      AsksAreForPairs(b, events, n);
    } else {
      EarlyTrace(registry, b, ctx, out);
      events := if b.initErr.Some? then [] else [Looked(ctx(out.trace.looks))];
    }
  }

  lemma LookThenAsks(b: BuilderState, ctx: Context, out: Outside, n: nat) returns (events: seq<Event>)
    requires n <= |b.entries|
    requires AskedFor(SettingOf(b, ctx), b.entries, AfterContextCheck(out, ctx),
                      RatesOutcome(SettingOf(b, ctx), b.entries, AfterContextCheck(out, ctx)).0, n)
    ensures RatesOutcome(SettingOf(b, ctx), b.entries, AfterContextCheck(out, ctx)).1.trace.log == out.trace.log + events
    ensures AsksOnce(events, DistinctRequests(b.entries[..n], b.effectiveDate))
  {
    var checked, requests := AfterContextCheck(out, ctx), DistinctRequests(b.entries[..n], b.effectiveDate);
    RunAsks(SettingOf(b, ctx), b.entries, checked, n);
    var log := RatesOutcome(SettingOf(b, ctx), b.entries, checked).1.trace.log;
    var look := Looked(ctx(out.trace.looks));
    AsksConcat([look], log[|checked.log|..], [], requests);
    assert [] + requests == requests;
    events := [look] + log[|checked.log|..];
  }

  lemma AsksAreForPairs(b: BuilderState, events: seq<Event>, n: nat)
    requires n <= |b.entries| && AsksOnce(events, DistinctRequests(b.entries[..n], b.effectiveDate))
    ensures forall k :: 0 <= k < |events| && events[k].Asked? ==> exists e :: AsksFor(b, e, events[k])
    ensures n == |b.entries| ==>
              forall e :: e in b.entries && e.txCurrency != e.functionalCurrency ==>
                exists k :: 0 <= k < |events| && AsksFor(b, e, events[k])
  {
    var front, asOf := b.entries[..n], b.effectiveDate;
    DistinctRequestsAre(front, asOf);
    forall k | 0 <= k < |events| && events[k].Asked? ensures exists e :: AsksFor(b, e, events[k]) {
      var i: nat :| FirstNeed(front, asOf, events[k].request, i);
      assert AsksFor(b, front[i], events[k]);
    }
    if n == |b.entries| {
      forall e | e in b.entries && e.txCurrency != e.functionalCurrency
        ensures exists k :: 0 <= k < |events| && AsksFor(b, e, events[k])
      {
        var i :| 0 <= i < n && front[i] == e;
        var r := RateRequest(e.txCurrency, e.functionalCurrency, asOf);
        FirstNeedExists(front, asOf, r, i);
        var k :| 0 <= k < |events| && events[k] == Asked(r);
        assert AsksFor(b, e, events[k]);
      }
    }
  }

  // Every build keeps the counts of requests and looks true to the log.
  lemma BuildIsCounted(registry: Registry, b: BuilderState, ctx: Context, out: Outside)
    requires Counted(out.trace)
    ensures Counted(BuildOutcome(registry, b, ctx, out).2.trace)
  {
    BuildTrace(registry, b, ctx, out);
    StepsAreCounted(out.trace, ctx);
    RunIsCounted(SettingOf(b, ctx), b.entries, 0, RateState(map[], AfterContextCheck(out, ctx)));
  }

  // The first cancellation a build observes is the last thing it does outside: it asks
  // nothing more, reads no clock, and fails with the context's error.
  lemma BuildCancellation(registry: Registry, b: BuilderState, ctx: Context, out: Outside, n: nat)
    requires ctx(n).Some? && out.trace.looks <= n < BuildOutcome(registry, b, ctx, out).2.trace.looks
    ensures var (result, after, outside) := BuildOutcome(registry, b, ctx, out);
            && result.Err? && EndsCancelled(ctx, n, outside.trace, Some(result.error))
            && outside.clockReads == out.clockReads
  {
    BuildTrace(registry, b, ctx, out);
    VerdictOnCancellation(registry, b, ctx, out, n);
  }

  lemma VerdictOnCancellation(registry: Registry, b: BuilderState, ctx: Context, out: Outside, n: nat)
    requires ctx(n).Some? && out.trace.looks <= n < TraceAfter(registry, b, ctx, out).looks
    ensures EndsCancelled(ctx, n, TraceAfter(registry, b, ctx, out), Verdict(registry, b, ctx, out))
  {
    if PassesUpTo(registry, b, ctx, out, |ORDER| - 1) {
      RatesDecide(registry, b, ctx, out);
      StartsClean(registry, b, ctx, out);
      CancelledInRates(b, ctx, out, n);
    } else {
      EarlyTrace(registry, b, ctx, out);
      CancelledAtStart(registry, b, ctx, out);
    }
  }

  lemma EarlyTrace(registry: Registry, b: BuilderState, ctx: Context, out: Outside)
    requires !PassesUpTo(registry, b, ctx, out, |ORDER| - 1)
    ensures TraceAfter(registry, b, ctx, out) == if b.initErr.Some? then out.trace else AfterContextCheck(out, ctx)
  {
  }

  lemma CancelledInRates(b: BuilderState, ctx: Context, out: Outside, n: nat)
    requires ctx(n).Some? && ctx(out.trace.looks).None?
    requires out.trace.looks <= n < RatesOutcome(SettingOf(b, ctx), b.entries, AfterContextCheck(out, ctx)).1.trace.looks
    ensures var (failure, after) := RatesOutcome(SettingOf(b, ctx), b.entries, AfterContextCheck(out, ctx));
            EndsCancelled(ctx, n, after.trace, failure)
  {
    CancellationStops(SettingOf(b, ctx), b.entries, AfterContextCheck(out, ctx), n);
  }

  // A context that is cancelled before the build is the first thing reported.
  lemma CancelledAtStart(registry: Registry, b: BuilderState, ctx: Context, out: Outside)
    requires b.initErr.None? && ctx(out.trace.looks).Some?
    ensures EndsCancelled(ctx, out.trace.looks, AfterContextCheck(out, ctx), Verdict(registry, b, ctx, out))
  {
    assert Failing(registry, b, ctx, out, ORDER[0]).None? && Failing(registry, b, ctx, out, ORDER[1]).Some?;
    FirstFailingDecides(registry, b, ctx, out, 1);
    CauseCarries(Verdict(registry, b, ctx, out).value, ctx(out.trace.looks).value);
  }

  /******* Reordering and concatenation *******/

  // The provider keeps its contract and the context is never cancelled.
  ghost predicate Steady(b: BuilderState, ctx: Context) {
    Live(ctx) && (b.provider.Some? ==> Deterministic(b.provider.value))
  }

  // The entry is valid, in the ledger's currency, and its rate is confirmed by what the
  // builder's provider answers for its pair on the effective date.
  ghost predicate EntryOk(registry: Registry, b: BuilderState, e: Entry) {
    && Validate(registry, e).None?
    && e.functionalCurrency == b.config.functionalCurrency
    && (e.txCurrency != e.functionalCurrency ==>
          && b.provider.Some?
          && var answer := b.provider.value(0, RateRequest(e.txCurrency, e.functionalCurrency, b.effectiveDate));
             && answer.Ok?
             && Value(e.exchangeRate) > 0.0 && Value(answer.value) > 0.0
             && RealAbs(Value(answer.value) - Value(e.exchangeRate)) <= Value(b.config.rateTolerance))
  }

  // With a steady environment acceptance is: the builder's own fields, a test of each
  // entry alone, and one exact sum.
  lemma SteadyAcceptance(registry: Registry, b: BuilderState, ctx: Context, out: Outside)
    requires Steady(b, ctx)
    ensures Accepted(registry, b, ctx, out) <==>
              && FieldsAccepted(registry, b) && b.entries != []
              && (forall e :: e in b.entries ==> EntryOk(registry, b, e))
              && Total(b.entries, FunctionalValue()) == 0.0
  {
    AcceptedMeans(registry, b, ctx, out);
    forall e | e in b.entries && e.txCurrency != e.functionalCurrency && b.provider.Some?
      ensures AnswerIn(b, |out.trace.calls|, e)
           == b.provider.value(0, RateRequest(e.txCurrency, e.functionalCurrency, b.effectiveDate))
    {
    }
  }

  // Acceptance does not depend on the order of the entries, nor on the outside.
  lemma AcceptanceIsPermutable(
    registry: Registry, b: BuilderState, entries: seq<Entry>, ctx: Context, out: Outside, out': Outside)
    requires Steady(b, ctx) && multiset(entries) == multiset(b.entries)
    ensures Accepted(registry, b, ctx, out) <==> Accepted(registry, b.(entries := entries), ctx, out')
  {
    var c := b.(entries := entries);
    SteadyAcceptance(registry, b, ctx, out);
    SteadyAcceptance(registry, c, ctx, out');
    assert forall e :: e in b.entries <==> e in multiset(b.entries);
    assert forall e :: e in entries <==> e in multiset(entries);
    assert |entries| == |multiset(entries)| == |multiset(b.entries)| == |b.entries|;
    TotalPermuted(b.entries, entries, FunctionalValue());
    assert SettingOf(c, ctx) == SettingOf(b, ctx);
  }

  // The entries of two accepted transactions with the same configuration, provider,
  // date and flag are together accepted, under either one's identifier and metadata.
  lemma AcceptanceConcatenates(
    registry: Registry, b: BuilderState, c: BuilderState, ctx: Context, out: Outside, out': Outside, out'': Outside)
    requires Steady(b, ctx) && Accepted(registry, b, ctx, out) && Accepted(registry, c, ctx, out')
    requires c.config == b.config && c.provider == b.provider
    requires c.effectiveDate == b.effectiveDate && c.isAdjustingEvent == b.isAdjustingEvent
    ensures Accepted(registry, b.(entries := b.entries + c.entries), ctx, out'')
  {
    SteadyAcceptance(registry, b, ctx, out);
    SteadyAcceptance(registry, c, ctx, out');
    SteadyAcceptance(registry, b.(entries := b.entries + c.entries), ctx, out'');
    TotalConcat(b.entries, c.entries, FunctionalValue());
  }

  /******* Reversal *******/

  // Construct the entry again with the transaction amount negated.
  function Reverse(registry: Registry, e: Entry): Result<Entry, Failure> {
    NewEntry(registry, e.accountID, Neg(e.txAmount), e.txCurrency, e.exchangeRate, e.functionalCurrency)
  }

  // Every entry of `reversed` is the reversal of its counterpart.
  ghost predicate Reverses(registry: Registry, entries: seq<Entry>, reversed: seq<Entry>) {
    |reversed| == |entries| && forall i :: 0 <= i < |entries| ==> Reverse(registry, entries[i]) == Ok(reversed[i])
  }

  lemma ReverseEntry(registry: Registry, e: Entry)
    requires Validate(registry, e).None?
    ensures Reverse(registry, e).Ok?
    ensures var r := Reverse(registry, e).value;
            && Validate(registry, r).None?
            && Equal(r.functionalAmount, Neg(e.functionalAmount))
            && Value(r.functionalAmount) == -Value(e.functionalAmount)
            && r.txCurrency == e.txCurrency && r.functionalCurrency == e.functionalCurrency
            && r.exchangeRate == e.exchangeRate
  {
    ValidateIsRebuild(registry, e);
    var rebuilt := Rebuild(registry, e).value;
    NewEntryNegates(registry, e.accountID, e.txAmount, e.txCurrency, e.exchangeRate, e.functionalCurrency);
    FieldsDecide(registry, e.accountID, e.txAmount, e.txCurrency, e.exchangeRate, e.functionalCurrency, NEW);
    ConstructionIsTotal(registry, e.accountID, e.txAmount, e.txCurrency, e.exchangeRate, e.functionalCurrency);
    ConstructedEntriesValidate(registry, e.accountID, Neg(e.txAmount), e.txCurrency, e.exchangeRate, e.functionalCurrency);
    CompareMeans(rebuilt.functionalAmount, e.functionalAmount);
    NegMeans(rebuilt.functionalAmount);
    NegMeans(e.functionalAmount);
    CompareMeans(Neg(rebuilt.functionalAmount), Neg(e.functionalAmount));
  }

  // Position by position, the same currencies and the same rate.
  predicate SamePairs(a: seq<Entry>, b: seq<Entry>) {
    |b| == |a| && forall i :: 0 <= i < |a| ==>
      b[i].txCurrency == a[i].txCurrency && b[i].functionalCurrency == a[i].functionalCurrency
      && b[i].exchangeRate == a[i].exchangeRate
  }

  // The rate loop sees only the currencies and rates of the entries.
  lemma {:induction false} RatesSeePairsOnly(s: Setting, entries: seq<Entry>, others: seq<Entry>, i: nat, st: RateState)
    requires SamePairs(entries, others) && i <= |entries|
    ensures RunRates(s, others, i, st) == RunRates(s, entries, i, st)
    decreases |entries| - i
  {
    if i < |entries| {
      RatesSeePairsOnly(s, entries, others, i + 1, st);
      RatesSeePairsOnly(s, entries, others, i + 1, CheckRate(s, entries[i], i, st).1);
    }
  }

  // The functional amounts of `b` are those of `a`, negated.
  ghost predicate Negates(a: seq<Entry>, b: seq<Entry>) {
    |b| == |a| && forall i :: 0 <= i < |a| ==> Value(b[i].functionalAmount) == -Value(a[i].functionalAmount)
  }

  lemma {:induction false} TotalNegated(a: seq<Entry>, b: seq<Entry>)
    requires Negates(a, b)
    ensures Total(b, FunctionalValue()) == -Total(a, FunctionalValue())
  {
    if a != [] {
      TotalNegated(a[..|a| - 1], b[..|b| - 1]);
    }
  }

  // Reversing every entry of an accepted transaction succeeds, gives exactly the
  // negated functional amounts, and is accepted with the same provider requests,
  // whatever the provider and the context.
  lemma ReversalIsAccepted(registry: Registry, b: BuilderState, ctx: Context, out: Outside) returns (reversed: seq<Entry>)
    requires Accepted(registry, b, ctx, out)
    ensures Reverses(registry, b.entries, reversed)
    ensures Negates(b.entries, reversed)
    ensures Accepted(registry, b.(entries := reversed), ctx, out)
    ensures BuildOutcome(registry, b.(entries := reversed), ctx, out).2 == BuildOutcome(registry, b, ctx, out).2
  {
    AcceptedMeans(registry, b, ctx, out);
    reversed := ReverseAll(registry, b.entries);
    var c := b.(entries := reversed);
    TotalNegated(b.entries, reversed);
    assert EntriesAccepted(registry, c);
    RatesSeePairsOnly(SettingOf(b, ctx), b.entries, reversed, 0, RateState(map[], AfterContextCheck(out, ctx)));
    RatesPassExactly(SettingOf(b, ctx), b.entries, AfterContextCheck(out, ctx));
    RatesPassExactly(SettingOf(b, ctx), reversed, AfterContextCheck(out, ctx));
    RatesHoldIs(b, ctx, out);
    RatesHoldIs(c, ctx, out);
    AcceptedMeans(registry, c, ctx, out);
    OutsideOfAccepted(registry, b, ctx, out);
    OutsideOfAccepted(registry, c, ctx, out);
  }

  lemma OutsideOfAccepted(registry: Registry, b: BuilderState, ctx: Context, out: Outside)
    requires Accepted(registry, b, ctx, out)
    ensures BuildOutcome(registry, b, ctx, out).2
         == Outside(RatesOutcome(SettingOf(b, ctx), b.entries, AfterContextCheck(out, ctx)).1.trace, out.clockReads + 1)
  {
    AllPassing(registry, b, ctx, out);
    RatesDecide(registry, b, ctx, out);
  }

  lemma ReverseAll(registry: Registry, entries: seq<Entry>) returns (reversed: seq<Entry>)
    requires AllValid(registry, entries)
    ensures Reverses(registry, entries, reversed)
    ensures Negates(entries, reversed) && SamePairs(entries, reversed)
    ensures AllValid(registry, reversed)
  {
    forall i | 0 <= i < |entries| ensures Reverse(registry, entries[i]).Ok? { ReverseEntry(registry, entries[i]); }
    reversed := seq(|entries|, i requires 0 <= i < |entries| => Reverse(registry, entries[i]).value);
    forall i | 0 <= i < |entries|
      ensures Value(reversed[i].functionalAmount) == -Value(entries[i].functionalAmount)
      ensures reversed[i].txCurrency == entries[i].txCurrency
      ensures reversed[i].functionalCurrency == entries[i].functionalCurrency
      ensures reversed[i].exchangeRate == entries[i].exchangeRate
      ensures Validate(registry, reversed[i]).None?
    {
      ReverseEntry(registry, entries[i]);
    }
  }
}
