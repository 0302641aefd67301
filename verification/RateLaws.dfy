// What the rate check decides, for any provider and any context: when it passes, and
// which failure it reports when it does not.
module RateLaws {
  import opened Wrappers
  import opened Errors
  import opened Decimals
  import opened Entries
  import opened Rates
  import opened Requests

  /******* The loop invariant *******/

  // Entry `e` passes against this provider rate.
  ghost predicate RateAgrees(s: Setting, e: Entry, rate: Decimal) {
    Value(e.exchangeRate) > 0.0 && Value(rate) > 0.0 && RealAbs(Value(rate) - Value(e.exchangeRate)) <= Value(s.tolerance)
  }

  // The cache holds exactly the answers of the calls made so far.
  ghost predicate Recorded(s: Setting, start: Trace, d: seq<RateRequest>, cache: map<RateRequest, Decimal>) {
    && (forall r :: r in cache <==> r in d)
    && (s.provider.Some? ==>
          forall j :: 0 <= j < |d| ==> s.provider.value(|start.calls| + j, d[j]) == Ok(cache[d[j]]))
  }

  // The context reports no error on the looks from number `from` up to `to`.
  ghost predicate Clean(ctx: Context, from: nat, to: nat) {
    forall n :: from <= n < to ==> ctx(n).None?
  }

  // Every foreign entry agrees with the cached rate of its pair.
  ghost predicate CacheAgrees(s: Setting, entries: seq<Entry>, cache: map<RateRequest, Decimal>) {
    forall e :: e in entries && IsForeign(e) ==>
      s.provider.Some? && RequestFor(e, s.asOf) in cache && RateAgrees(s, e, cache[RequestFor(e, s.asOf)])
  }

  // What the outside has seen when the entries have passed.
  ghost predicate Logged(s: Setting, entries: seq<Entry>, start: Trace, trace: Trace) {
    && trace.log == start.log + CleanLog(entries, s.asOf)
    && trace.calls == start.calls + DistinctRequests(entries, s.asOf)
    && trace.looks == start.looks + LooksFor(entries, s.asOf)
    && Clean(s.ctx, start.looks, trace.looks)
  }

  // The state of the loop before entry `i`, when nothing has failed.
  ghost predicate Progress(s: Setting, entries: seq<Entry>, start: Trace, i: nat, st: RateState) {
    && i <= |entries|
    && Logged(s, entries[..i], start, st.trace)
    && Recorded(s, start, DistinctRequests(entries[..i], s.asOf), st.cache)
    && CacheAgrees(s, entries[..i], st.cache)
  }

  lemma CompareRatesMeans(s: Setting, e: Entry, index: nat, rate: Decimal)
    requires IsPositive(e.exchangeRate)
    ensures CompareRates(s, e, index, rate).None? <==> RateAgrees(s, e, rate)
    ensures var failure := CompareRates(s, e, index, rate);
            var sentinel := if Value(rate) <= 0.0 then InvalidExchangeRate else RateDeviation;
            failure.Some? ==> failure.value == RateError(s, sentinel, index, "rate", None)
  {
    SignMeans(e.exchangeRate);
    SignMeans(rate);
    SubMeans(rate, e.exchangeRate);
    AbsMeans(Sub(rate, e.exchangeRate));
    CompareMeans(Abs(Sub(rate, e.exchangeRate)), s.tolerance);
  }

  lemma SkipSameCurrency(s: Setting, entries: seq<Entry>, start: Trace, i: nat, st: RateState)
    requires Progress(s, entries, start, i, st) && i < |entries| && !IsForeign(entries[i])
    ensures Progress(s, entries, start, i + 1, st)
  {
    ExtendDistinct(entries, s.asOf, i);
    LoggedExtends(s, entries, start, i, st.trace, st.trace);
    assert entries[..i + 1] == entries[..i] + [entries[i]];
  }

  // The log after one more entry, when it does what a passing entry does.
  lemma LoggedExtends(s: Setting, entries: seq<Entry>, start: Trace, i: nat, trace: Trace, after: Trace)
    requires i < |entries| && Logged(s, entries[..i], start, trace)
    requires var d := DistinctRequests(entries[..i], s.asOf);
             && after.log == trace.log + EntryEvents(entries[i], s.asOf, d)
             && after.looks == trace.looks + EntryLooks(entries[i], s.asOf, d)
             && Clean(s.ctx, trace.looks, after.looks)
    requires after.calls == start.calls + DistinctRequests(entries[..i + 1], s.asOf)
    ensures Logged(s, entries[..i + 1], start, after)
  {
    ExtendLog(entries, s.asOf, i);
    var clean := CleanLog(entries[..i], s.asOf);
    var events := EntryEvents(entries[i], s.asOf, DistinctRequests(entries[..i], s.asOf));
    assert start.log + (clean + events) == (start.log + clean) + events;
  }

  lemma RecordedExtends(
    s: Setting, start: Trace, d: seq<RateRequest>, cache: map<RateRequest, Decimal>, r: RateRequest, rate: Decimal)
    requires Recorded(s, start, d, cache) && r !in d
    requires s.provider.Some? ==> s.provider.value(|start.calls| + |d|, r) == Ok(rate)
    ensures Recorded(s, start, d + [r], cache[r := rate])
  {
  }

  // What a passing check leaves behind: the same cache, or one more call and its answer.
  ghost predicate Passed(s: Setting, e: Entry, index: nat, st: RateState, after: RateState, known: seq<RateRequest>) {
    var r := RequestFor(e, s.asOf);
    && s.provider.Some? && IsPositive(e.exchangeRate)
    && r in after.cache && CompareRates(s, e, index, after.cache[r]).None?
    && after.trace.log == st.trace.log + EntryEvents(e, s.asOf, known)
    && after.trace.looks == st.trace.looks + EntryLooks(e, s.asOf, known)
    && Clean(s.ctx, st.trace.looks, after.trace.looks)
    && if r in known then after.cache == st.cache && after.trace.calls == st.trace.calls
       else
         s.provider.value(|st.trace.calls|, r) == Ok(after.cache[r])
         && after.cache == st.cache[r := after.cache[r]] && after.trace.calls == st.trace.calls + [r]
  }

  lemma PassingCheck(s: Setting, e: Entry, index: nat, st: RateState, known: seq<RateRequest>)
    requires CheckRate(s, e, index, st).0.None? && IsForeign(e)
    requires RequestFor(e, s.asOf) in st.cache <==> RequestFor(e, s.asOf) in known
    ensures Passed(s, e, index, st, CheckRate(s, e, index, st).1, known)
  {
  }

  // A foreign entry that passes keeps the invariant.
  lemma PassForeign(s: Setting, entries: seq<Entry>, start: Trace, i: nat, st: RateState)
    requires Progress(s, entries, start, i, st) && i < |entries| && IsForeign(entries[i])
    requires CheckRate(s, entries[i], i, st).0.None?
    ensures Progress(s, entries, start, i + 1, CheckRate(s, entries[i], i, st).1)
  {
    var d := DistinctRequests(entries[..i], s.asOf);
    PassingCheck(s, entries[i], i, st, d);
    PassedExtends(s, entries, start, i, st, CheckRate(s, entries[i], i, st).1);
  }

  lemma PassedExtends(s: Setting, entries: seq<Entry>, start: Trace, i: nat, st: RateState, after: RateState)
    requires Progress(s, entries, start, i, st) && i < |entries| && IsForeign(entries[i])
    requires Passed(s, entries[i], i, st, after, DistinctRequests(entries[..i], s.asOf))
    ensures Progress(s, entries, start, i + 1, after)
  {
    var e, r, d := entries[i], RequestFor(entries[i], s.asOf), DistinctRequests(entries[..i], s.asOf);
    ExtendDistinct(entries, s.asOf, i);
    LoggedExtends(s, entries, start, i, st.trace, after.trace);
    CompareRatesMeans(s, e, i, after.cache[r]);
    assert entries[..i + 1] == entries[..i] + [e];
    CacheAgreesExtends(s, entries[..i], e, st.cache, after.cache);
    if r !in d {
      RecordedExtends(s, start, d, st.cache, r, after.cache[r]);
    }
  }

  lemma CacheAgreesExtends(
    s: Setting, entries: seq<Entry>, e: Entry, cache: map<RateRequest, Decimal>, after: map<RateRequest, Decimal>)
    requires CacheAgrees(s, entries, cache) && s.provider.Some?
    requires forall r :: r in cache ==> r in after && after[r] == cache[r]
    requires RequestFor(e, s.asOf) in after && RateAgrees(s, e, after[RequestFor(e, s.asOf)])
    ensures CacheAgrees(s, entries + [e], after)
  {
  }

  // A run either completes with the invariant, or stops at the entry that fails.
  lemma {:induction false} RunProgress(s: Setting, entries: seq<Entry>, start: Trace, i: nat, st: RateState)
    returns (stop: nat, mid: RateState)
    requires Progress(s, entries, start, i, st)
    ensures var (failure, after) := RunRates(s, entries, i, st);
            if failure.None? then Progress(s, entries, start, |entries|, after)
            else i <= stop < |entries| && IsForeign(entries[stop]) && Progress(s, entries, start, stop, mid)
                 && CheckRate(s, entries[stop], stop, mid) == (failure, after)
    decreases |entries| - i
  {
    stop, mid := i, st;
    if i < |entries| {
      if !IsForeign(entries[i]) {
        SkipSameCurrency(s, entries, start, i, st);
        stop, mid := RunProgress(s, entries, start, i + 1, st);
      } else if CheckRate(s, entries[i], i, st).0.None? {
        PassForeign(s, entries, start, i, st);
        stop, mid := RunProgress(s, entries, start, i + 1, CheckRate(s, entries[i], i, st).1);
      }
    }
  }

  lemma OutcomeProgress(s: Setting, entries: seq<Entry>, start: Trace) returns (stop: nat, mid: RateState)
    ensures var (failure, after) := RatesOutcome(s, entries, start);
            if failure.None? then Progress(s, entries, start, |entries|, after)
            else stop < |entries| && IsForeign(entries[stop]) && Progress(s, entries, start, stop, mid)
                 && CheckRate(s, entries[stop], stop, mid) == (failure, after)
  {
    var st := RateState(map[], start);
    assert Progress(s, entries, start, 0, st);
    stop, mid := RunProgress(s, entries, start, 0, st);
  }

  /******* The provider's answers *******/

  // What the provider says to the j-th distinct pair when asked as the j-th call.
  function AnswersOf(s: Setting, start: Trace, requests: seq<RateRequest>): RateRequest -> Answer {
    r => if s.provider.Some? then s.provider.value(|start.calls| + IndexOf(requests, r), r)
         else Err(Code(NilRateProvider))
  }

  // The answer to a pair is in the cache once the pair is known; until then it is what
  // the provider says next.
  lemma FirstAnswer(
    s: Setting, start: Trace, d: seq<RateRequest>, all: seq<RateRequest>, r: RateRequest, st: RateState)
    requires s.provider.Some? && Recorded(s, start, d, st.cache) && Placed(d, all, r)
    requires |st.trace.calls| == |start.calls| + |d|
    ensures AnswersOf(s, start, all)(r)
         == if r in st.cache then Ok(st.cache[r]) else s.provider.value(|st.trace.calls|, r)
  {
    var j := IndexOf(all, r);
    if r in d {
      assert s.provider.value(|start.calls| + j, d[j]) == Ok(st.cache[d[j]]);
    }
  }

  // The cache holds the provider's answer to each pair's first call.
  lemma RecordedAnswer(s: Setting, start: Trace, d: seq<RateRequest>, cache: map<RateRequest, Decimal>, r: RateRequest)
    requires Recorded(s, start, d, cache) && NoRepeats(d) && r in d && s.provider.Some?
    ensures AnswersOf(s, start, d)(r) == Ok(cache[r])
  {
    var j :| 0 <= j < |d| && d[j] == r;
    IndexOfAt(d, j);
  }

  /******* When the rates pass *******/

  // The answer agrees with the entry's rate.
  ghost predicate Agrees(s: Setting, answers: RateRequest -> Answer, e: Entry) {
    var answer := answers(RequestFor(e, s.asOf));
    answer.Ok? && RateAgrees(s, e, answer.value)
  }

  // What the rate check requires: for each foreign entry the provider's one answer for
  // its pair agrees, and the context is live on every look of a passing run.
  ghost predicate RatesPass(s: Setting, entries: seq<Entry>, start: Trace) {
    && (forall e :: e in entries && IsForeign(e) ==>
          Agrees(s, AnswersOf(s, start, DistinctRequests(entries, s.asOf)), e))
    && Clean(s.ctx, start.looks, start.looks + LooksFor(entries, s.asOf))
  }

  // While nothing has failed, everything so far passes.
  lemma ProgressPasses(s: Setting, entries: seq<Entry>, start: Trace, i: nat, st: RateState)
    requires Progress(s, entries, start, i, st)
    ensures RatesPass(s, entries[..i], start)
  {
    var d := DistinctRequests(entries[..i], s.asOf);
    DistinctRequestsAre(entries[..i], s.asOf);
    forall e | e in entries[..i] && IsForeign(e) ensures Agrees(s, AnswersOf(s, start, d), e) {
      RecordedAnswer(s, start, d, st.cache, RequestFor(e, s.asOf));
    }
  }

  // The judgement of entry `i` after passing entries, on real values: the provider's
  // one answer for its pair, and the looks before and after asking.
  ghost predicate EntryPasses(s: Setting, entries: seq<Entry>, start: Trace, i: nat)
    requires i < |entries|
  {
    && Agrees(s, AnswersOf(s, start, DistinctRequests(entries, s.asOf)), entries[i])
    && Clean(s.ctx, start.looks + LooksFor(entries[..i], s.asOf), start.looks + LooksFor(entries[..i + 1], s.asOf))
  }

  lemma PassingIsEntryByEntry(s: Setting, entries: seq<Entry>, start: Trace, i: nat)
    requires RatesPass(s, entries, start) && i < |entries| && IsForeign(entries[i])
    ensures EntryPasses(s, entries, start, i)
  {
    LooksForPrefix(entries, s.asOf, i + 1);
  }

  // The rate check passes exactly when every answer agrees and no look is cancelled,
  // for any provider and any context.
  lemma RatesPassExactly(s: Setting, entries: seq<Entry>, start: Trace)
    ensures RatesOutcome(s, entries, start).0.None? <==> RatesPass(s, entries, start)
  {
    var stop, mid := OutcomeProgress(s, entries, start);
    if RatesOutcome(s, entries, start).0.None? {
      assert entries[..|entries|] == entries;
      ProgressPasses(s, entries, start, |entries|, RatesOutcome(s, entries, start).1);
    } else {
      StopReports(s, entries, start, stop, mid);
      if RatesPass(s, entries, start) {
        PassingIsEntryByEntry(s, entries, start, stop);
        ExtendLog(entries, s.asOf, stop);
        assert false;
      }
    }
  }

  /******* What a rate failure reports *******/

  // The causes of a failed request: the provider's error, wrapped, and the context's.
  function RequestCause(answer: Answer, ctxErr: Option<Error>): Option<Error> {
    match answer
    case Ok(_) => ctxErr
    case Err(p) =>
      if ctxErr.Some? then Some(Joined(Some(FRESH), [Wrapped(FRESH, p), ctxErr.value])) else Some(Wrapped(FRESH, p))
  }

  // The loop stopped at entry `f.entryIndex`: every entry before it passes, and `f` says
  // which condition broke first, with its sentinel, field and cause.
  ghost predicate RateReports(s: Setting, entries: seq<Entry>, start: Trace, f: Failure) {
    && 0 <= f.entryIndex < |entries| && IsForeign(entries[f.entryIndex])
    && RatesPass(s, entries[..f.entryIndex], start)
    && var e := entries[f.entryIndex];
       Breaks(s, e, f.entryIndex, LooksBefore(s, entries, start, f.entryIndex), IsNew(entries, s.asOf, f.entryIndex),
              AnswerFor(s, entries, start, e), f)
  }

  // How often the context was looked at before entry `i`, when all before it pass.
  function LooksBefore(s: Setting, entries: seq<Entry>, start: Trace, i: nat): nat
    requires i <= |entries|
  {
    start.looks + LooksFor(entries[..i], s.asOf)
  }

  // The provider's one answer for the pair of an entry.
  function AnswerFor(s: Setting, entries: seq<Entry>, start: Trace, e: Entry): Answer {
    AnswersOf(s, start, DistinctRequests(entries, s.asOf))(RequestFor(e, s.asOf))
  }

  // The first condition that breaks at entry `i`, given the looks so far, whether its
  // pair is new, and the answer for its pair.
  ghost predicate Breaks(s: Setting, e: Entry, i: nat, looks: nat, first: bool, answer: Answer, f: Failure) {
    if Value(e.exchangeRate) <= 0.0 then
      f == Failure(Some(Code(InvalidExchangeRate)), s.operation, i, "exchangeRate", None)
    else if s.ctx(looks).Some? then
      f == Failure(Some(Code(RateProviderFailure)), s.operation, i, "context", s.ctx(looks))
    else if s.provider.None? then
      f == Failure(Some(Code(NilRateProvider)), s.operation, i, "rate", None)
    else if first && (answer.Err? || s.ctx(looks + 1).Some?) then
      f == Failure(Some(Code(RateProviderFailure)), s.operation, i, if s.ctx(looks + 1).Some? then "context" else "rate",
                  RequestCause(answer, s.ctx(looks + 1)))
    else
      && answer.Ok? && !RateAgrees(s, e, answer.value)
      && f == Failure(Some(Code(if Value(answer.value) <= 0.0 then InvalidExchangeRate else RateDeviation)),
                      s.operation, i, "rate", None)
  }

  lemma StopReports(s: Setting, entries: seq<Entry>, start: Trace, i: nat, st: RateState)
    requires Progress(s, entries, start, i, st) && i < |entries| && IsForeign(entries[i])
    requires CheckRate(s, entries[i], i, st).0.Some?
    ensures var f := CheckRate(s, entries[i], i, st).0.value;
            f.entryIndex == i && RateReports(s, entries, start, f)
  {
    var r := RequestFor(entries[i], s.asOf);
    var d, all := DistinctRequests(entries[..i], s.asOf), DistinctRequests(entries, s.asOf);
    ProgressPasses(s, entries, start, i, st);
    FirstUse(entries, s.asOf, i);
    if s.provider.Some? {
      FirstAnswer(s, start, d, all, r, st);
    }
    FailingCheck(s, entries[i], i, st, AnswersOf(s, start, all)(r));
  }

  lemma FailingCheck(s: Setting, e: Entry, index: nat, st: RateState, answer: Answer)
    requires CheckRate(s, e, index, st).0.Some?
    requires s.provider.Some? ==>
               answer == var r := RequestFor(e, s.asOf);
                         if r in st.cache then Ok(st.cache[r]) else s.provider.value(|st.trace.calls|, r)
    ensures var f := CheckRate(s, e, index, st).0.value;
            f.entryIndex == index && Breaks(s, e, index, st.trace.looks, RequestFor(e, s.asOf) !in st.cache, answer, f)
  {
    SignMeans(e.exchangeRate);
    if IsPositive(e.exchangeRate) && answer.Ok? {
      CompareRatesMeans(s, e, index, answer.value);
    }
  }

  // A failing run reports the first condition that broke, at the first entry where one
  // did, for any provider and any context.
  lemma RatesReport(s: Setting, entries: seq<Entry>, start: Trace)
    requires RatesOutcome(s, entries, start).0.Some?
    ensures RateReports(s, entries, start, RatesOutcome(s, entries, start).0.value)
    ensures RatesOutcome(s, entries, start).0.value.operation == s.operation
  {
    var stop, mid := OutcomeProgress(s, entries, start);
    StopReports(s, entries, start, stop, mid);
  }
}
