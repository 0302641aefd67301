// The builder as a state machine: what every sequence of operations keeps.
module Lifecycle {
  import opened Wrappers
  import opened Errors
  import opened Currencies
  import opened Entries
  import opened Builder

  // A call on a builder.
  datatype Call =
    | AddEntry(entry: Entry)
    | SetAdjustingEvent(flag: bool)
    | WithMetadata(meta: Option<map<string, MetaValue>>)
    | Build

  // A builder, the outside, and what each call returned: nothing for a mutator.
  datatype Run = Run(b: BuilderState, out: Outside, results: seq<Option<Result<Contents, Failure>>>)

  function Step(registry: Registry, r: Run, call: Call): Run {
    match call
    case AddEntry(e) => Run(AddEntryStep(r.b, e), r.out, r.results + [None])
    case SetAdjustingEvent(flag) => Run(SetAdjustingStep(r.b, flag), r.out, r.results + [None])
    case WithMetadata(meta) => Run(WithMetadataStep(r.b, meta), r.out, r.results + [None])
    case Build =>
      var (result, after, out) := BuildStep(registry, r.b, r.out);
      Run(after, out, r.results + [Some(result)])
  }

  function RunCalls(registry: Registry, b: BuilderState, out: Outside, calls: seq<Call>): Run {
    if calls == [] then Run(b, out, [])
    else Step(registry, RunCalls(registry, b, out, calls[..|calls| - 1]), calls[|calls| - 1])
  }

  /******* What the mutators alone accumulate *******/

  function EntriesOf(calls: seq<Call>): seq<Entry> {
    if calls == [] then []
    else
      var front, last := EntriesOf(calls[..|calls| - 1]), calls[|calls| - 1];
      if last.AddEntry? then front + [last.entry] else front
  }

  // The last flag set, or `initial`.
  function FlagOf(calls: seq<Call>, initial: bool): bool {
    if calls == [] then initial
    else
      var last := calls[|calls| - 1];
      if last.SetAdjustingEvent? then last.flag else FlagOf(calls[..|calls| - 1], initial)
  }

  // The right-biased merge of the metadata maps.
  function MetadataOf(calls: seq<Call>, initial: map<string, MetaValue>): map<string, MetaValue> {
    if calls == [] then initial
    else
      var front, last := MetadataOf(calls[..|calls| - 1], initial), calls[|calls| - 1];
      if last.WithMetadata? && last.meta.Some? then front + last.meta.value else front
  }

  // The builder with everything the calls add, and nothing else changed.
  function Accumulated(b: BuilderState, calls: seq<Call>): BuilderState {
    b.(entries := b.entries + EntriesOf(calls),
       isAdjustingEvent := FlagOf(calls, b.isAdjustingEvent),
       metadata := MetadataOf(calls, b.metadata))
  }

  // The operation a builder reports under.
  function NameOf(b: BuilderState): string {
    if b.operation == "" then "Build" else b.operation
  }

  // Equal up to defaulting an empty operation name.
  ghost predicate SameUpToOperation(b: BuilderState, c: BuilderState) {
    b == c.(operation := b.operation) && NameOf(b) == NameOf(c)
  }

  ghost predicate SucceedsAt(r: Run, p: int) {
    0 <= p < |r.results| && r.results[p].Some? && r.results[p].value.Ok?
  }

  /******* Every run *******/

  // Before any success: nothing is finalized, the accumulated state survives every
  // failed build, and the clock is untouched.
  ghost predicate Accumulating(b: BuilderState, out: Outside, calls: seq<Call>, r: Run) {
    && !r.b.finalized
    && SameUpToOperation(r.b, Accumulated(b, calls))
    && r.out.clockReads == out.clockReads
    && (forall p :: !SucceedsAt(r, p))
  }

  // What a built transaction says, field by field: the builder's identifier and date,
  // the last flag set, the entries in order of adding, the merged metadata, the instant.
  ghost predicate Keeps(c: Contents, b: BuilderState, calls: seq<Call>, now: int) {
    && c.id == b.id && c.effectiveDate == b.effectiveDate && c.postedAt == now
    && c.isAdjustingEvent == FlagOf(calls, b.isAdjustingEvent)
    && c.entries == b.entries + EntriesOf(calls)
    && c.metadata == MetadataOf(calls, b.metadata)
  }

  // From a success at call `p` on: its transaction holds exactly what was accumulated
  // before it, nothing changes any more, every later build reports finalized, and the
  // clock was read once.
  ghost predicate Finalized(b: BuilderState, out: Outside, calls: seq<Call>, r: Run, p: int) {
    && 0 <= p < |calls| == |r.results|
    && SucceedsAt(r, p) && Keeps(r.results[p].value.value, b, calls[..p], b.clock(out.clockReads))
    && r.b.finalized
    && SameUpToOperation(r.b, Accumulated(b, calls[..p]).(finalized := true))
    && r.out.clockReads == out.clockReads + 1
    && (forall q :: SucceedsAt(r, q) ==> q == p)
    && (forall q :: p < q < |calls| && calls[q].Build? ==>
          r.results[q] == Some(Err(Failure(Some(Code(BuilderFinalized)), NameOf(r.b), -1, "builder", None))))
  }

  lemma {:induction false} EveryRun(registry: Registry, b: BuilderState, out: Outside, calls: seq<Call>)
    requires !b.finalized
    ensures var r := RunCalls(registry, b, out, calls);
            && |r.results| == |calls|
            && (Accumulating(b, out, calls, r) || exists p :: Finalized(b, out, calls, r, p))
  {
    if calls == [] {
      assert b.entries + [] == b.entries;
    } else {
      var n := |calls| - 1;
      var front := calls[..n];
      var before, r := RunCalls(registry, b, out, front), RunCalls(registry, b, out, calls);
      EveryRun(registry, b, out, front);
      if Accumulating(b, out, front, before) {
        AccumulatingStep(registry, b, out, calls, before);
      } else {
        var p :| Finalized(b, out, front, before, p);
        FinalizedStep(registry, b, out, calls, before, p);
      }
    }
  }

  // One build of a builder that is not finalized: it either finalizes with what it
  // holds, or changes nothing but a defaulted operation name.
  lemma BuildShape(registry: Registry, b: BuilderState, out: Outside)
    requires !b.finalized
    ensures var (result, after, outside) := BuildStep(registry, b, out);
            if result.Ok? then
              result.value
              == Contents(b.id, b.effectiveDate, b.isAdjustingEvent, b.clock(out.clockReads), b.entries, b.metadata)
              && after == b.(operation := NameOf(b), finalized := true)
              && outside.clockReads == out.clockReads + 1
            else
              after == b.(operation := NameOf(b)) && outside.clockReads == out.clockReads
  {
  }

  lemma MutatorStep(registry: Registry, b: BuilderState, calls: seq<Call>, before: Run)
    requires calls != [] && !calls[|calls| - 1].Build? && !before.b.finalized
    requires SameUpToOperation(before.b, Accumulated(b, calls[..|calls| - 1]))
    ensures SameUpToOperation(Step(registry, before, calls[|calls| - 1]).b, Accumulated(b, calls))
  {
    AccumulatesStep(b, calls);
  }

  // A mutator's effect on a builder that is not finalized.
  function Mutated(b: BuilderState, call: Call): BuilderState {
    match call
    case AddEntry(e) => b.(entries := b.entries + [e])
    case SetAdjustingEvent(flag) => b.(isAdjustingEvent := flag)
    case WithMetadata(meta) => if meta.Some? then b.(metadata := b.metadata + meta.value) else b
    case Build => b
  }

  lemma AccumulatesStep(b: BuilderState, calls: seq<Call>)
    requires calls != []
    ensures Accumulated(b, calls) == Mutated(Accumulated(b, calls[..|calls| - 1]), calls[|calls| - 1])
  {
    var n, call := |calls| - 1, calls[|calls| - 1];
    if call.AddEntry? {
      assert b.entries + (EntriesOf(calls[..n]) + [call.entry]) == (b.entries + EntriesOf(calls[..n])) + [call.entry];
    } else if call.WithMetadata? && call.meta.Some? {
      assert MetadataOf(calls, b.metadata) == MetadataOf(calls[..n], b.metadata) + call.meta.value;
    }
  }

  lemma AccumulatingStep(registry: Registry, b: BuilderState, out: Outside, calls: seq<Call>, before: Run)
    requires calls != [] && |before.results| == |calls| - 1
    requires Accumulating(b, out, calls[..|calls| - 1], before)
    ensures var r := Step(registry, before, calls[|calls| - 1]);
            Accumulating(b, out, calls, r) || Finalized(b, out, calls, r, |calls| - 1)
  {
    var n := |calls| - 1;
    var r := Step(registry, before, calls[n]);
    assert forall p :: 0 <= p < n ==> (SucceedsAt(r, p) <==> SucceedsAt(before, p));
    if calls[n].Build? {
      BuildShape(registry, before.b, before.out);
      assert Accumulated(b, calls) == Accumulated(b, calls[..n]);
    } else {
      MutatorStep(registry, b, calls, before);
    }
  }

  lemma FinalizedStep(registry: Registry, b: BuilderState, out: Outside, calls: seq<Call>, before: Run, p: int)
    requires calls != [] && |before.results| == |calls| - 1
    requires Finalized(b, out, calls[..|calls| - 1], before, p)
    ensures Finalized(b, out, calls, Step(registry, before, calls[|calls| - 1]), p)
  {
    var n := |calls| - 1;
    var r := Step(registry, before, calls[n]);
    assert calls[..n][..p] == calls[..p];
    assert forall q :: 0 <= q < n ==> (SucceedsAt(r, q) <==> SucceedsAt(before, q));
    assert forall q :: 0 <= q < n ==> calls[..n][q] == calls[q] && r.results[q] == before.results[q];
  }

  // At most one build succeeds, and clock reads equal successes.
  lemma AtMostOneSuccess(registry: Registry, b: BuilderState, out: Outside, calls: seq<Call>, p: int, q: int)
    requires !b.finalized
    ensures var r := RunCalls(registry, b, out, calls);
            && (SucceedsAt(r, p) && SucceedsAt(r, q) ==> p == q)
            && (SucceedsAt(r, p) ==> r.b.finalized && r.out.clockReads == out.clockReads + 1)
            && ((forall k :: !SucceedsAt(r, k)) ==> !r.b.finalized && r.out.clockReads == out.clockReads)
  {
    var r := RunCalls(registry, b, out, calls);
    EveryRun(registry, b, out, calls);
    if k :| Finalized(b, out, calls, r, k) {
      assert SucceedsAt(r, k);
    }
  }
}
