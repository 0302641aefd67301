// The error tree of pkg/errors: sentinels, foreign errors, wrapping and joining
// nodes, and the structured ValidationError.
module Errors {
  import opened Wrappers

  // The sentinels of pkg/errors/errors.go that the modelled code returns.
  datatype Sentinel =
    | ZeroSumViolation | PeriodClosed | RateDeviation | RateProviderFailure
    | InvalidPrecision | CurrencyMismatch | EmptyTransaction | ZeroAmount
    | FunctionalAmountZero | InvalidEntry | NilRateProvider | InvalidTransactionID
    | InvalidEffectiveDate | InvalidMetadata | InvalidAccountID | InvalidExchangeRate
    | InvalidConfiguration | UnknownCurrency | InvalidCurrencyCode | CurrencyNotRatable
    | InvalidRoundingMode | InexactRounding | BuilderFinalized

  // A finite Go error tree without custom Is or As methods. Every node that Go
  // holds by pointer carries that pointer, so datatype equality is Go's `==`.
  // A join with no pointer is one allocated during a traversal: no caller holds it.
  datatype Error =
    | Code(sentinel: Sentinel)
    | Foreign(id: nat, comparable: bool)
    | Wrapped(ptr: nat, inner: Error)
    | Joined(held: Option<nat>, parts: seq<Error>)
    | Validation(ptr: nat, failure: Failure)

  // The fields of a ValidationError: what its pointer points to.
  datatype Failure = Failure(
    code: Option<Error>, operation: string, entryIndex: int, field: string, cause: Option<Error>)

  // NewValidationError with a sentinel code and no cause.
  function Fail(sentinel: Sentinel, operation: string, field: string): Failure {
    Failure(Some(Code(sentinel)), operation, -1, field, None)
  }

  // NewEntryValidationError with a sentinel code.
  function FailAt(sentinel: Sentinel, operation: string, index: int, field: string, cause: Option<Error>): Failure {
    Failure(Some(Code(sentinel)), operation, index, field, cause)
  }

  // The pointer given to errors the pipeline allocates; its value never matters.
  const FRESH: nat := 0

  /******* Matching *******/

  // Whether the error's dynamic type supports `==`, which errors.Is checks first.
  predicate Comparable(e: Error) {
    e.Foreign? ==> e.comparable
  }

  // An error a caller can hold, as opposed to a join made while unwrapping.
  predicate Held(e: Error) {
    e.Joined? ==> e.held.Some?
  }

  function Size(e: Error): (n: nat)
    ensures n > 0
    decreases e, 1
  {
    match e
    case Code(_) => 1
    case Foreign(_, _) => 1
    case Wrapped(_, inner) => 1 + Size(inner)
    case Joined(_, parts) => 1 + Sizes(parts)
    case Validation(_, f) => SizeOf(f)
  }

  function Sizes(es: seq<Error>): nat
    decreases es, 0
  {
    if es == [] then 0 else Size(es[0]) + Sizes(es[1..])
  }

  function SizeOf(f: Failure): (n: nat)
    ensures n > 0
    decreases f, 1
  {
    2 + (if f.code.Some? then Size(f.code.value) else 0) + (if f.cause.Some? then Size(f.cause.value) else 0)
  }

  // ValidationError.Unwrap on a non-nil receiver. Joining allocates a node no caller holds.
  function Unwrap(f: Failure): (e: Option<Error>)
    ensures e.Some? ==> Size(e.value) < SizeOf(f)
    decreases SizeOf(f), 0
  {
    if f.code.None? then f.cause
    else if f.cause.None? then f.code
    else if SameError(f.code.value, f.cause.value) then f.code
    else
      assert Sizes([f.cause.value]) == Size(f.cause.value) + Sizes([]);
      assert [f.code.value, f.cause.value][1..] == [f.cause.value];
      Some(Joined(None, [f.code.value, f.cause.value]))
  }

  // sameError on two non-nil errors.
  predicate SameError(a: Error, b: Error)
    decreases Size(a) + Size(b), 2
  {
    Is(a, b) && Is(b, a)
  }

  // errors.Is: depth-first search for a node equal to the target.
  predicate Is(e: Error, target: Error)
    decreases Size(e), 1
  {
    (Comparable(target) && e == target) ||
    match e
    case Code(_) => false
    case Foreign(_, _) => false
    case Wrapped(_, inner) => Is(inner, target)
    case Joined(_, parts) => AnyIs(parts, target)
    case Validation(_, f) => var next := Unwrap(f); next.Some? && Is(next.value, target)
  }

  predicate AnyIs(es: seq<Error>, target: Error)
    decreases Sizes(es), 2
  {
    es != [] && (Is(es[0], target) || AnyIs(es[1..], target))
  }

  // A match is the error itself or a strictly smaller error below it.
  lemma {:induction false} MatchShrinks(e: Error, target: Error)
    requires Is(e, target)
    ensures target == e || Size(target) < Size(e)
    decreases Size(e), 1
  {
    if !(Comparable(target) && e == target) {
      match e
      case Wrapped(_, inner) => MatchShrinks(inner, target);
      case Joined(_, parts) => MatchesShrink(parts, target);
      case Validation(_, f) => MatchShrinks(Unwrap(f).value, target);
    }
  }

  lemma {:induction false} MatchesShrink(es: seq<Error>, target: Error)
    requires AnyIs(es, target)
    ensures Size(target) <= Sizes(es)
    decreases Sizes(es), 2
  {
    if Is(es[0], target) { MatchShrinks(es[0], target); } else { MatchesShrink(es[1..], target); }
  }

  // Two errors that match each other are one error: the branch of Unwrap that
  // drops the cause drops a copy of the code.
  lemma SameErrorIsEquality(a: Error, b: Error)
    ensures SameError(a, b) <==> a == b && Comparable(a)
  {
    if SameError(a, b) {
      MatchShrinks(a, b);
      MatchShrinks(b, a);
      if !Comparable(b) { NothingMatchesIncomparable(a, b); }
    }
  }

  lemma {:induction false} NothingMatchesIncomparable(e: Error, target: Error)
    requires !Comparable(target)
    ensures !Is(e, target)
    decreases Size(e), 1
  {
    match e
    case Code(_) =>
    case Foreign(_, _) =>
    case Wrapped(_, inner) => NothingMatchesIncomparable(inner, target);
    case Joined(_, parts) => NoneMatchIncomparable(parts, target);
    case Validation(_, f) => if Unwrap(f).Some? { NothingMatchesIncomparable(Unwrap(f).value, target); }
  }

  lemma {:induction false} NoneMatchIncomparable(es: seq<Error>, target: Error)
    requires !Comparable(target)
    ensures !AnyIs(es, target)
    decreases Sizes(es), 2
  {
    if es != [] { NothingMatchesIncomparable(es[0], target); NoneMatchIncomparable(es[1..], target); }
  }

  // Every error matches itself, except one whose type is not comparable, which nothing
  // matches.
  lemma MatchesItself(e: Error, id: nat)
    ensures (forall n :: e != Foreign(n, false)) ==> Is(e, e)
    ensures !Is(e, Foreign(id, false))
  {
    NothingMatchesIncomparable(e, Foreign(id, false));
    assert e.Foreign? && !e.comparable ==> e == Foreign(e.id, false);
  }

  // The code or the cause of a failure matches.
  predicate CodeOrCauseIs(f: Failure, target: Error) {
    (f.code.Some? && Is(f.code.value, target)) || (f.cause.Some? && Is(f.cause.value, target))
  }

  // errors.Is finds a target in a ValidationError exactly when the target is that
  // error itself, or its code or its cause matches.
  lemma Transparency(ptr: nat, f: Failure, target: Error)
    requires Held(target)
    ensures Is(Validation(ptr, f), target) <==> target == Validation(ptr, f) || CodeOrCauseIs(f, target)
  {
    if f.code.Some? && f.cause.Some? {
      var code, cause := f.code.value, f.cause.value;
      SameErrorIsEquality(code, cause);
      assert [code, cause][1..] == [cause];
      assert AnyIs([cause], target) <==> Is(cause, target);
      assert AnyIs([code, cause], target) <==> Is(code, target) || Is(cause, target);
    }
  }

  /******* Rewrapping *******/

  // errors.As with a *ValidationError target: the first one in depth-first order.
  function FindFailure(e: Error): (r: Option<Failure>)
    decreases e, 1
  {
    match e
    case Code(_) => None
    case Foreign(_, _) => None
    case Wrapped(_, inner) => FindFailure(inner)
    case Joined(_, parts) => FindFirstFailure(parts)
    case Validation(_, f) => Some(f)
  }

  function FindFirstFailure(es: seq<Error>): Option<Failure>
    decreases es, 0
  {
    if es == [] then None
    else var first := FindFailure(es[0]); if first.Some? then first else FindFirstFailure(es[1..])
  }

  // The nodes of a tree in depth-first order, not looking inside a validation error.
  function Preorder(e: Error): seq<Error>
    decreases e, 1
  {
    [e] + match e
          case Wrapped(_, inner) => Preorder(inner)
          case Joined(_, parts) => Preorders(parts)
          case _ => []
  }

  function Preorders(es: seq<Error>): seq<Error>
    decreases es, 0
  {
    if es == [] then [] else Preorder(es[0]) + Preorders(es[1..])
  }

  // `f` is the first validation error among the nodes, or there is none.
  ghost predicate FirstValidation(nodes: seq<Error>, f: Option<Failure>) {
    match f
    case None => forall e :: e in nodes ==> !e.Validation?
    case Some(g) =>
      exists i :: 0 <= i < |nodes| && nodes[i].Validation? && nodes[i].failure == g
        && forall j :: 0 <= j < i ==> !nodes[j].Validation?
  }

  lemma FirstConcat(a: seq<Error>, b: seq<Error>, f: Option<Failure>, g: Option<Failure>)
    requires FirstValidation(a, f) && FirstValidation(b, g)
    ensures FirstValidation(a + b, if f.Some? then f else g)
  {
    if f.Some? {
      var i :| 0 <= i < |a| && a[i].Validation? && a[i].failure == f.value
               && forall j :: 0 <= j < i ==> !a[j].Validation?;
      assert (a + b)[i] == a[i];
    } else if g.Some? {
      var i :| 0 <= i < |b| && b[i].Validation? && b[i].failure == g.value
               && forall j :: 0 <= j < i ==> !b[j].Validation?;
      assert (a + b)[|a| + i] == b[i];
      assert forall j :: 0 <= j < |a| ==> a[j] in a;
    }
  }

  // errors.As stops at the first validation error in depth-first order.
  lemma {:induction false} FindsFirstValidation(e: Error)
    ensures FirstValidation(Preorder(e), FindFailure(e))
    decreases e, 1
  {
    match e
    case Wrapped(_, inner) =>
      FindsFirstValidation(inner);
      FirstConcat([e], Preorder(inner), None, FindFailure(inner));
    case Joined(_, parts) =>
      FindsFirstAmong(parts);
      FirstConcat([e], Preorders(parts), None, FindFirstFailure(parts));
    case Validation(_, f) => assert Preorder(e) == [e] && Preorder(e)[0] == e;
    case _ => assert Preorder(e) == [e];
  }

  lemma {:induction false} FindsFirstAmong(es: seq<Error>)
    ensures FirstValidation(Preorders(es), FindFirstFailure(es))
    decreases es, 0
  {
    if es != [] {
      FindsFirstValidation(es[0]);
      FindsFirstAmong(es[1..]);
      FirstConcat(Preorder(es[0]), Preorders(es[1..]), FindFailure(es[0]), FindFirstFailure(es[1..]));
    }
  }

  // rewrapValidationError: keep the code and cause of the failure inside `err`, or
  // adopt `err` itself as the code.
  function Rewrap(err: Error, operation: string, field: string): Failure {
    match FindFailure(err)
    case Some(f) => Failure(f.code, operation, -1, field, f.cause)
    case None => Failure(Some(err), operation, -1, field, None)
  }

  // rewrapEntryValidationError: as Rewrap, but the inner field is kept and the
  // entry index recorded.
  function RewrapEntry(err: Error, index: int, operation: string): Failure {
    match FindFailure(err)
    case Some(f) => Failure(f.code, operation, index, f.field, f.cause)
    case None => Failure(Some(err), operation, index, "entry", None)
  }

  // One rewrapping layer: a transaction-level or an entry-level one.
  datatype Layer = Level(operation: string, field: string) | EntryLevel(index: int, op: string)

  function ApplyLayer(ptr: nat, f: Failure, layer: Layer): Failure {
    match layer
    case Level(operation, field) => Rewrap(Validation(ptr, f), operation, field)
    case EntryLevel(index, op) => RewrapEntry(Validation(ptr, f), index, op)
  }

  function ApplyLayers(ptrs: nat -> nat, f: Failure, layers: seq<Layer>): Failure
    decreases |layers|
  {
    if layers == [] then f
    else ApplyLayers(ptrs, ApplyLayer(ptrs(|layers|), f, layers[0]), layers[1..])
  }

  // However many layers rewrap a failure, everything its code or cause matched
  // still matches, and nothing new does.
  lemma {:induction false} LayersAreTransparent(
    ptrs: nat -> nat, f: Failure, layers: seq<Layer>, ptr: nat, outer: nat, target: Error)
    requires Held(target)
    requires target != Validation(ptr, f) && target != Validation(outer, ApplyLayers(ptrs, f, layers))
    ensures Is(Validation(outer, ApplyLayers(ptrs, f, layers)), target) <==> Is(Validation(ptr, f), target)
  {
    LayersKeepCodeAndCause(ptrs, f, layers);
    Transparency(ptr, f, target);
    Transparency(outer, ApplyLayers(ptrs, f, layers), target);
  }

  lemma {:induction false} LayersKeepCodeAndCause(ptrs: nat -> nat, f: Failure, layers: seq<Layer>)
    ensures ApplyLayers(ptrs, f, layers).code == f.code
    ensures ApplyLayers(ptrs, f, layers).cause == f.cause
    decreases |layers|
  {
    if layers != [] {
      LayersKeepCodeAndCause(ptrs, ApplyLayer(ptrs(|layers|), f, layers[0]), layers[1..]);
    }
  }

  // Rewrapping an arbitrary error tree: the result matches what the first failure
  // found in it matches by code or cause, or all of the tree when it holds none.
  lemma RewrapMatches(err: Error, operation: string, field: string, ptr: nat, target: Error)
    requires Held(target) && target != Validation(ptr, Rewrap(err, operation, field))
    ensures Is(Validation(ptr, Rewrap(err, operation, field)), target)
       <==> Survives(err, target)
  {
    Transparency(ptr, Rewrap(err, operation, field), target);
  }

  // What an error still matches once rewrapped: all that the code and the cause of the
  // first failure in it match, or all that it matches itself when it holds none.
  predicate Survives(err: Error, target: Error) {
    match FindFailure(err)
    case Some(f) => CodeOrCauseIs(f, target)
    case None => Is(err, target)
  }

  // `f` carries on the code and cause of the first failure in `err`, or `err` itself.
  predicate Adopts(f: Failure, err: Error) {
    match FindFailure(err)
    case Some(g) => f.code == g.code && f.cause == g.cause
    case None => f.code == Some(err) && f.cause == None
  }
}
