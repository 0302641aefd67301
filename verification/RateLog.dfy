// The log of a rate check: exactly what it asks and when it looks at the context, and
// that an observed cancellation ends it.
module RateLog {
  import opened Wrappers
  import opened Errors
  import opened Decimals
  import opened Entries
  import opened Rates
  import opened Requests
  import opened RateLaws
  import opened RateErrors

  /******* The exact log *******/

  // The events of the entry at which a run stops.
  ghost function LastEvents(s: Setting, entries: seq<Entry>, start: Trace, i: nat): seq<Event>
    requires i < |entries|
  {
    var looks := LooksBefore(s, entries, start, i);
    if Value(entries[i].exchangeRate) <= 0.0 then []
    else if s.ctx(looks).Some? || s.provider.None? || !IsNew(entries, s.asOf, i) then [Looked(s.ctx(looks))]
    else [Looked(None), Asked(RequestFor(entries[i], s.asOf)), Looked(s.ctx(looks + 1))]
  }

  lemma StopLog(s: Setting, entries: seq<Entry>, start: Trace, i: nat, st: RateState)
    requires Progress(s, entries, start, i, st) && i < |entries| && IsForeign(entries[i])
    requires CheckRate(s, entries[i], i, st).0.Some?
    ensures CheckRate(s, entries[i], i, st).0.value.entryIndex == i
    ensures CheckRate(s, entries[i], i, st).1.trace.log == st.trace.log + LastEvents(s, entries, start, i)
  {
    SignMeans(entries[i].exchangeRate);
  }

  // The exact log of every run: passing entries do what they must, and the entry that
  // fails gets as far as its first broken condition.
  lemma RunLog(s: Setting, entries: seq<Entry>, start: Trace)
    ensures var (failure, after) := RatesOutcome(s, entries, start);
            if failure.None? then after.trace.log == start.log + CleanLog(entries, s.asOf)
            else
              && 0 <= failure.value.entryIndex < |entries|
              && var i := failure.value.entryIndex;
                 after.trace.log == start.log + CleanLog(entries[..i], s.asOf) + LastEvents(s, entries, start, i)
  {
    var stop, mid := OutcomeProgress(s, entries, start);
    if RatesOutcome(s, entries, start).0.Some? {
      StopLog(s, entries, start, stop, mid);
    } else {
      assert entries[..|entries|] == entries;
    }
  }

  /******* The requests *******/

  // Entry `i` gets as far as the provider or its cached answer.
  ghost predicate Consults(s: Setting, entries: seq<Entry>, start: Trace, i: nat)
    requires i < |entries|
  {
    && Value(entries[i].exchangeRate) > 0.0
    && s.ctx(LooksBefore(s, entries, start, i)).None?
    && s.provider.Some?
  }

  // How many entries had their pairs requested: all, or those before the failing entry,
  // or the failing entry too when it consulted the provider.
  ghost predicate AskedFor(s: Setting, entries: seq<Entry>, start: Trace, failure: Option<Failure>, n: nat) {
    match failure
    case None => n == |entries|
    case Some(f) =>
      && 0 <= f.entryIndex < |entries|
      && n == if Consults(s, entries, start, f.entryIndex) then f.entryIndex + 1 else f.entryIndex
  }

  // Every run asks for the distinct pairs of a prefix of the entries, each once and in
  // order of first use; a run that fails asks nothing after the failing entry.
  lemma RequestLog(s: Setting, entries: seq<Entry>, start: Trace) returns (n: nat)
    ensures n <= |entries| && AskedFor(s, entries, start, RatesOutcome(s, entries, start).0, n)
    ensures RatesOutcome(s, entries, start).1.trace.calls == start.calls + DistinctRequests(entries[..n], s.asOf)
  {
    var stop, mid := OutcomeProgress(s, entries, start);
    n := |entries|;
    if RatesOutcome(s, entries, start).0.Some? {
      StopCalls(s, entries, start, stop, mid);
      n := if Consults(s, entries, start, stop) then stop + 1 else stop;
    } else {
      assert entries[..n] == entries;
    }
  }

  // A failing entry requests its pair when it consults the provider and the pair is new.
  lemma StopCalls(s: Setting, entries: seq<Entry>, start: Trace, i: nat, st: RateState)
    requires Progress(s, entries, start, i, st) && i < |entries| && IsForeign(entries[i])
    requires CheckRate(s, entries[i], i, st).0.Some?
    ensures CheckRate(s, entries[i], i, st).0.value.entryIndex == i
    ensures CheckRate(s, entries[i], i, st).1.trace.calls
         == start.calls + DistinctRequests(entries[..if Consults(s, entries, start, i) then i + 1 else i], s.asOf)
  {
    SignMeans(entries[i].exchangeRate);
    CheckCalls(s, entries[i], i, st);
    if Consults(s, entries, start, i) {
      var d, r := DistinctRequests(entries[..i], s.asOf), RequestFor(entries[i], s.asOf);
      ExtendDistinct(entries, s.asOf, i);
      assert start.calls + (d + [r]) == (start.calls + d) + [r];
    }
  }

  lemma CheckCalls(s: Setting, e: Entry, index: nat, st: RateState)
    ensures var (failure, after) := CheckRate(s, e, index, st);
            var consults := IsPositive(e.exchangeRate) && s.ctx(st.trace.looks).None? && s.provider.Some?;
            && (failure.Some? ==> failure.value.entryIndex == index)
            && after.trace.calls == st.trace.calls
                                    + if consults && RequestFor(e, s.asOf) !in st.cache then [RequestFor(e, s.asOf)] else []
  {
  }

  // The log asks exactly these requests, each at one place.
  ghost predicate AsksOnce(log: seq<Event>, requests: seq<RateRequest>) {
    && (forall k :: 0 <= k < |log| && log[k].Asked? ==> log[k].request in requests)
    && (forall r :: r in requests ==> Asked(r) in log)
    && (forall j, k :: 0 <= j < k < |log| && log[j].Asked? ==> log[k] != log[j])
  }

  lemma AsksConcat(a: seq<Event>, b: seq<Event>, p: seq<RateRequest>, q: seq<RateRequest>)
    requires AsksOnce(a, p) && AsksOnce(b, q) && forall r :: r in p ==> r !in q
    ensures AsksOnce(a + b, p + q)
  {
    forall k | 0 <= k < |a + b| && (a + b)[k].Asked? ensures (a + b)[k].request in p + q {
      if k < |a| { assert a[k].Asked?; } else { assert b[k - |a|].Asked?; }
    }
    forall j, k | 0 <= j < k < |a + b| && (a + b)[j].Asked? ensures (a + b)[k] != (a + b)[j] {
      if j < |a| <= k {
        assert a[j].request in p;
        assert b[k - |a|].Asked? ==> b[k - |a|].request in q;
      }
    }
  }

  lemma {:induction false} CleanLogAsks(entries: seq<Entry>, asOf: int)
    ensures AsksOnce(CleanLog(entries, asOf), DistinctRequests(entries, asOf))
  {
    if entries != [] {
      var front, last := entries[..|entries| - 1], entries[|entries| - 1];
      var d, r := DistinctRequests(front, asOf), RequestFor(last, asOf);
      CleanLogAsks(front, asOf);
      EventsAsk(last, asOf, d);
      AsksConcat(CleanLog(front, asOf), EntryEvents(last, asOf, d), d, if IsForeign(last) && r !in d then [r] else []);
    }
  }

  lemma EventsAsk(e: Entry, asOf: int, known: seq<RateRequest>)
    ensures AsksOnce(EntryEvents(e, asOf, known),
                     if IsForeign(e) && RequestFor(e, asOf) !in known then [RequestFor(e, asOf)] else [])
  {
    var events := EntryEvents(e, asOf, known);
    assert |events| == 3 ==> events[1] == Asked(RequestFor(e, asOf));
  }

  // The requests in the log of a run are those of the entries it asked for, each once.
  lemma RunAsks(s: Setting, entries: seq<Entry>, start: Trace, n: nat)
    requires n <= |entries| && AskedFor(s, entries, start, RatesOutcome(s, entries, start).0, n)
    ensures var log := RatesOutcome(s, entries, start).1.trace.log;
            start.log <= log && AsksOnce(log[|start.log|..], DistinctRequests(entries[..n], s.asOf))
  {
    var (failure, after) := RatesOutcome(s, entries, start);
    RunLog(s, entries, start);
    RunIsForeign(s, entries, start);
    if failure.None? {
      assert entries[..n] == entries;
      CleanLogAsks(entries, s.asOf);
      assert after.trace.log[|start.log|..] == CleanLog(entries, s.asOf);
    } else {
      var i := failure.value.entryIndex;
      var clean, last := CleanLog(entries[..i], s.asOf), LastEvents(s, entries, start, i);
      CleanLogAsks(entries[..i], s.asOf);
      LastAsks(s, entries, start, i);
      assert after.trace.log[|start.log|..] == clean + last;
    }
  }

  lemma RunIsForeign(s: Setting, entries: seq<Entry>, start: Trace)
    ensures var failure := RatesOutcome(s, entries, start).0;
            failure.Some? ==> 0 <= failure.value.entryIndex < |entries| && IsForeign(entries[failure.value.entryIndex])
  {
    if RatesOutcome(s, entries, start).0.Some? {
      RatesReport(s, entries, start);
    }
  }

  // The failing entry adds its own request when it consults the provider and is new.
  lemma LastAsks(s: Setting, entries: seq<Entry>, start: Trace, i: nat)
    requires i < |entries| && IsForeign(entries[i])
    requires AsksOnce(CleanLog(entries[..i], s.asOf), DistinctRequests(entries[..i], s.asOf))
    ensures var n := if Consults(s, entries, start, i) then i + 1 else i;
            AsksOnce(CleanLog(entries[..i], s.asOf) + LastEvents(s, entries, start, i),
                     DistinctRequests(entries[..n], s.asOf))
  {
    var last, d := LastEvents(s, entries, start, i), DistinctRequests(entries[..i], s.asOf);
    var r := RequestFor(entries[i], s.asOf);
    ExtendDistinct(entries, s.asOf, i);
    var asked := if Consults(s, entries, start, i) && r !in d then [r] else [];
    assert |last| == 3 ==> last[1] == Asked(r);
    AsksConcat(CleanLog(entries[..i], s.asOf), last, d, asked);
    assert d + [] == d;
  }

  /******* The counts *******/

  function CallsIn(log: seq<Event>): seq<RateRequest> {
    if log == [] then []
    else
      match log[|log| - 1]
      case Asked(request) => CallsIn(log[..|log| - 1]) + [request]
      case Looked(_) => CallsIn(log[..|log| - 1])
  }

  function LooksIn(log: seq<Event>): nat {
    if log == [] then 0 else LooksIn(log[..|log| - 1]) + if log[|log| - 1].Looked? then 1 else 0
  }

  // The counts are those of the log.
  ghost predicate Counted(trace: Trace) {
    trace.calls == CallsIn(trace.log) && trace.looks == LooksIn(trace.log)
  }

  lemma StepsAreCounted(trace: Trace, ctx: Context)
    requires Counted(trace)
    ensures forall request :: Counted(Asking(trace, request))
    ensures Counted(Looking(trace, ctx))
  {
    forall request ensures Counted(Asking(trace, request)) {
      assert Asking(trace, request).log[..|trace.log|] == trace.log;
    }
    assert Looking(trace, ctx).log[..|trace.log|] == trace.log;
  }

  // Every run keeps the counts true to the log.
  lemma {:induction false} RunIsCounted(s: Setting, entries: seq<Entry>, i: nat, st: RateState)
    requires i <= |entries| && Counted(st.trace)
    ensures Counted(RunRates(s, entries, i, st).1.trace)
    decreases |entries| - i
  {
    if i < |entries| {
      var r := RequestFor(entries[i], s.asOf);
      StepsAreCounted(st.trace, s.ctx);
      StepsAreCounted(Looking(st.trace, s.ctx), s.ctx);
      StepsAreCounted(Asking(Looking(st.trace, s.ctx), r), s.ctx);
      RunIsCounted(s, entries, i + 1, st);
      RunIsCounted(s, entries, i + 1, CheckRate(s, entries[i], i, st).1);
    }
  }

  /******* Order and cancellation *******/

  // A log in which every request comes between a clean look and another look, and a
  // look that reports an error comes last.
  ghost predicate Ordered(log: seq<Event>) {
    && (forall k :: 0 <= k < |log| && log[k].Asked? ==>
          0 < k < |log| - 1 && log[k - 1] == Looked(None) && log[k + 1].Looked?)
    && (forall k :: 0 <= k < |log| && log[k].Looked? && log[k].err.Some? ==> k == |log| - 1)
  }

  ghost predicate NoErrors(log: seq<Event>) {
    forall k :: 0 <= k < |log| && log[k].Looked? ==> log[k].err.None?
  }

  lemma OrderedConcat(a: seq<Event>, b: seq<Event>)
    requires Ordered(a) && NoErrors(a) && Ordered(b)
    ensures Ordered(a + b)
    ensures NoErrors(b) ==> NoErrors(a + b)
  {
    forall k | 0 <= k < |a + b| && (a + b)[k].Asked?
      ensures 0 < k < |a + b| - 1 && (a + b)[k - 1] == Looked(None) && (a + b)[k + 1].Looked?
    {
      if k < |a| { assert a[k].Asked?; } else { assert b[k - |a|].Asked?; }
    }
  }

  lemma {:induction false} CleanLogIsOrdered(entries: seq<Entry>, asOf: int)
    ensures Ordered(CleanLog(entries, asOf)) && NoErrors(CleanLog(entries, asOf))
  {
    if entries != [] {
      var front, last := entries[..|entries| - 1], entries[|entries| - 1];
      CleanLogIsOrdered(front, asOf);
      OrderedConcat(CleanLog(front, asOf), EntryEvents(last, asOf, DistinctRequests(front, asOf)));
    }
  }

  // In every run, whatever the provider and the context: the log only grows, every
  // request is made right after a clean look and is followed by a look, and a look that
  // reports an error ends the run.
  lemma RunIsOrdered(s: Setting, entries: seq<Entry>, start: Trace)
    ensures var log := RatesOutcome(s, entries, start).1.trace.log;
            start.log <= log && Ordered(log[|start.log|..])
  {
    var (failure, after) := RatesOutcome(s, entries, start);
    RunLog(s, entries, start);
    if failure.None? {
      CleanLogIsOrdered(entries, s.asOf);
      assert after.trace.log[|start.log|..] == CleanLog(entries, s.asOf);
    } else {
      var i := failure.value.entryIndex;
      var clean, last := CleanLog(entries[..i], s.asOf), LastEvents(s, entries, start, i);
      CleanLogIsOrdered(entries[..i], s.asOf);
      OrderedConcat(clean, last);
      assert after.trace.log[|start.log|..] == clean + last;
    }
  }

  // Look number `n` reported an error: it is the last event, and the failure is that
  // error under the sentinel for providers.
  ghost predicate EndsCancelled(ctx: Context, n: nat, trace: Trace, failure: Option<Failure>) {
    && n == trace.looks - 1 && trace.log != [] && trace.log[|trace.log| - 1] == Looked(ctx(n))
    && failure.Some? && failure.value.code == Some(Code(RateProviderFailure)) && failure.value.field == "context"
    && ctx(n).Some? && Carries(failure.value, ctx(n).value)
  }

  // The first cancellation a run observes is its last event: it asks nothing more, and
  // fails there with the context's error.
  lemma CancellationStops(s: Setting, entries: seq<Entry>, start: Trace, n: nat)
    requires s.ctx(n).Some? && start.looks <= n < RatesOutcome(s, entries, start).1.trace.looks
    ensures var (failure, after) := RatesOutcome(s, entries, start);
            EndsCancelled(s.ctx, n, after.trace, failure)
  {
    var stop, mid := OutcomeProgress(s, entries, start);
    if RatesOutcome(s, entries, start).0.Some? {
      CancelledCheck(s, entries[stop], stop, mid, n);
      CauseCarries(RatesOutcome(s, entries, start).0.value, s.ctx(n).value);
    }
  }

  lemma CancelledCheck(s: Setting, e: Entry, index: nat, st: RateState, n: nat)
    requires s.ctx(n).Some? && st.trace.looks <= n < CheckRate(s, e, index, st).1.trace.looks
    ensures var (failure, after) := CheckRate(s, e, index, st);
            && n == after.trace.looks - 1
            && after.trace.log != [] && after.trace.log[|after.trace.log| - 1] == Looked(s.ctx(n))
            && failure.Some? && failure.value.field == "context"
            && failure.value.code == Some(Code(RateProviderFailure))
            && failure.value.cause.Some?
            && var cause, err := failure.value.cause.value, s.ctx(n).value;
               cause == err || (cause.Joined? && |cause.parts| == 2 && cause.parts[1] == err)
  {
  }
}
