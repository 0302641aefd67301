// The cache: every entry of a pair is judged against one answer, and with a
// deterministic provider caching changes nothing.
module RateCaching {
  import opened Wrappers
  import opened Errors
  import opened Decimals
  import opened Entries
  import opened Rates
  import opened Requests
  import opened RateLaws

  /******* One answer per pair *******/

  // The verdict on a foreign entry, given the provider's answer and a live context.
  function JudgeAnswer(s: Setting, answer: Answer, e: Entry, index: nat): Option<Failure> {
    if !IsPositive(e.exchangeRate) then Some(RateError(s, InvalidExchangeRate, index, "exchangeRate", None))
    else if s.provider.None? then Some(RateError(s, NilRateProvider, index, "rate", None))
    else match answer
         case Err(err) => Some(ProviderFailure(s, index, Some(err), None))
         case Ok(rate) => CompareRates(s, e, index, rate)
  }

  // The verdict on any entry, against one answer per pair.
  function Judge(s: Setting, answers: RateRequest -> Answer): (nat, Entry) -> Option<Failure> {
    (index: nat, e: Entry) => if IsForeign(e) then JudgeAnswer(s, answers(RequestFor(e, s.asOf)), e, index) else None
  }

  // For any provider, however stateful, every entry of a pair is judged against the
  // single answer given when the pair was first needed.
  lemma OneAnswerPerPair(s: Setting, entries: seq<Entry>, start: Trace)
    requires Live(s.ctx)
    ensures RatesOutcome(s, entries, start).0
         == FirstFailure(entries, Judge(s, AnswersOf(s, start, DistinctRequests(entries, s.asOf))), 0)
  {
    assert Progress(s, entries, start, 0, RateState(map[], start));
    OneAnswerFrom(s, entries, start, 0, RateState(map[], start));
  }

  lemma {:induction false} OneAnswerFrom(s: Setting, entries: seq<Entry>, start: Trace, i: nat, st: RateState)
    requires Live(s.ctx) && Progress(s, entries, start, i, st)
    ensures RunRates(s, entries, i, st).0
         == FirstFailure(entries, Judge(s, AnswersOf(s, start, DistinctRequests(entries, s.asOf))), i)
    decreases |entries| - i
  {
    if i < |entries| {
      if !IsForeign(entries[i]) {
        SkipSameCurrency(s, entries, start, i, st);
        OneAnswerFrom(s, entries, start, i + 1, st);
      } else {
        JudgedAlike(s, entries, start, i, st);
        if CheckRate(s, entries[i], i, st).0.None? {
          PassForeign(s, entries, start, i, st);
          OneAnswerFrom(s, entries, start, i + 1, CheckRate(s, entries[i], i, st).1);
        }
      }
    }
  }

  lemma JudgedAlike(s: Setting, entries: seq<Entry>, start: Trace, i: nat, st: RateState)
    requires Live(s.ctx) && Progress(s, entries, start, i, st) && i < |entries| && IsForeign(entries[i])
    ensures CheckRate(s, entries[i], i, st).0
         == JudgeAnswer(s, AnswersOf(s, start, DistinctRequests(entries, s.asOf))(RequestFor(entries[i], s.asOf)),
                        entries[i], i)
  {
    var d, r := DistinctRequests(entries[..i], s.asOf), RequestFor(entries[i], s.asOf);
    FirstUse(entries, s.asOf, i);
    if s.provider.Some? {
      ResolvedAlike(s, start, d, DistinctRequests(entries, s.asOf), r, i, st.(trace := Looking(st.trace, s.ctx)));
    }
    CheckIsJudged(s, entries[i], i, st, AnswersOf(s, start, DistinctRequests(entries, s.asOf))(r));
  }

  // A check judges the entry against the answer it resolves.
  lemma CheckIsJudged(s: Setting, e: Entry, index: nat, st: RateState, answer: Answer)
    requires Live(s.ctx)
    requires s.provider.Some? ==>
               ResolveRate(s, s.provider.value, RequestFor(e, s.asOf), index, st.(trace := Looking(st.trace, s.ctx))).0
               == Resolved(s, answer, index)
    ensures CheckRate(s, e, index, st).0 == JudgeAnswer(s, answer, e, index)
  {
  }

  // A cached rate and a fresh one are both the answer to the pair's first call.
  lemma ResolvedAlike(
    s: Setting, start: Trace, d: seq<RateRequest>, all: seq<RateRequest>, r: RateRequest, index: nat, st: RateState)
    requires Live(s.ctx) && s.provider.Some?
    requires Recorded(s, start, d, st.cache) && |st.trace.calls| == |start.calls| + |d| && Placed(d, all, r)
    ensures ResolveRate(s, s.provider.value, r, index, st).0 == Resolved(s, AnswersOf(s, start, all)(r), index)
  {
    FirstAnswer(s, start, d, all, r, st);
  }

  function Resolved(s: Setting, answer: Answer, index: nat): Result<Decimal, Failure> {
    match answer
    case Ok(rate) => Ok(rate)
    case Err(err) => Err(ProviderFailure(s, index, Some(err), None))
  }

  /******* The uncached reference *******/

  // The loop without a cache: ask the provider afresh for every foreign entry.
  function UncachedRates(s: Setting, entries: seq<Entry>, i: nat, calls: nat): Option<Failure>
    requires i <= |entries|
    decreases |entries| - i
  {
    if i == |entries| then None
    else if !IsForeign(entries[i]) then UncachedRates(s, entries, i + 1, calls)
    else
      var answer :=
        if s.provider.Some? then s.provider.value(calls, RequestFor(entries[i], s.asOf)) else Err(Code(NilRateProvider));
      var failure := JudgeAnswer(s, answer, entries[i], i);
      if failure.Some? then failure else UncachedRates(s, entries, i + 1, calls + 1)
  }

  // With a provider that keeps the interface's contract, caching changes nothing:
  // the same verdict, error and entry index as asking every time.
  lemma CachedRefinesUncached(s: Setting, entries: seq<Entry>, start: Trace, calls: nat)
    requires Live(s.ctx) && (s.provider.Some? ==> Deterministic(s.provider.value))
    ensures RatesOutcome(s, entries, start).0 == UncachedRates(s, entries, 0, calls)
  {
    OneAnswerPerPair(s, entries, start);
    UncachedFrom(s, entries, AnswersOf(s, start, DistinctRequests(entries, s.asOf)), 0, calls);
  }

  lemma {:induction false} UncachedFrom(
    s: Setting, entries: seq<Entry>, answers: RateRequest -> Answer, i: nat, calls: nat)
    requires i <= |entries| && (s.provider.Some? ==> Deterministic(s.provider.value))
    requires s.provider.Some? ==> forall r :: answers(r) == s.provider.value(0, r)
    ensures UncachedRates(s, entries, i, calls) == FirstFailure(entries, Judge(s, answers), i)
    decreases |entries| - i
  {
    if i < |entries| {
      UncachedFrom(s, entries, answers, i + 1, calls);
      UncachedFrom(s, entries, answers, i + 1, calls + 1);
      var r := RequestFor(entries[i], s.asOf);
      assert s.provider.Some? ==> answers(r) == s.provider.value(calls, r);
      assert Judge(s, answers)(i, entries[i])
          == if IsForeign(entries[i]) then JudgeAnswer(s, answers(r), entries[i], i) else None;
    }
  }

  // The provider's one answer to a request.
  function AnswerTo(s: Setting): RateRequest -> Answer {
    r => if s.provider.Some? then s.provider.value(0, r) else Err(Code(NilRateProvider))
  }

  // An entry needs no rate, or the provider's answer for it agrees.
  ghost predicate EntryRateOk(s: Setting, e: Entry) {
    IsForeign(e) ==>
      && s.provider.Some?
      && AnswerTo(s)(RequestFor(e, s.asOf)).Ok?
      && RateAgrees(s, e, AnswerTo(s)(RequestFor(e, s.asOf)).value)
  }

  // With a deterministic provider acceptance is a property of each entry alone.
  lemma AcceptedEntryByEntry(s: Setting, entries: seq<Entry>, start: Trace)
    requires Live(s.ctx) && (s.provider.Some? ==> Deterministic(s.provider.value))
    ensures RatesOutcome(s, entries, start).0.None? <==> forall e :: e in entries ==> EntryRateOk(s, e)
  {
    var answers := AnswersOf(s, start, DistinctRequests(entries, s.asOf));
    OneAnswerPerPair(s, entries, start);
    FirstFailureIsFirst(entries, Judge(s, answers), 0);
    forall j | 0 <= j < |entries|
      ensures Judge(s, answers)(j, entries[j]).None? <==> EntryRateOk(s, entries[j])
    {
      var e := entries[j];
      SignMeans(e.exchangeRate);
      assert answers(RequestFor(e, s.asOf)) == AnswerTo(s)(RequestFor(e, s.asOf));
      if IsForeign(e) && IsPositive(e.exchangeRate) && s.provider.Some? && answers(RequestFor(e, s.asOf)).Ok? {
        CompareRatesMeans(s, e, j, answers(RequestFor(e, s.asOf)).value);
      }
    }
  }
}
