// What a rate failure still matches: the provider's and the context's errors.
module RateErrors {
  import opened Wrappers
  import opened Errors
  import opened Decimals
  import opened Entries
  import opened Rates
  import opened Requests
  import opened RateLaws

  // Everything `err` matches, the failure's code or cause matches too.
  ghost predicate Carries(f: Failure, err: Error) {
    forall target :: Is(err, target) ==> CodeOrCauseIs(f, target)
  }

  lemma {:induction false} PartMatches(parts: seq<Error>, part: Error, target: Error)
    requires part in parts && Is(part, target)
    ensures AnyIs(parts, target)
  {
    if !Is(parts[0], target) { PartMatches(parts[1..], part, target); }
  }

  // A cause carries itself, what it wraps, and every part it joins.
  lemma CauseCarries(f: Failure, err: Error)
    requires f.cause.Some?
    requires f.cause == Some(err) || f.cause.value == Wrapped(FRESH, err)
          || (f.cause.value.Joined? && (err in f.cause.value.parts || Wrapped(FRESH, err) in f.cause.value.parts))
    ensures Carries(f, err)
  {
    forall target | Is(err, target) ensures CodeOrCauseIs(f, target) {
      assert Is(Wrapped(FRESH, err), target);
      if f.cause.value.Joined? && f.cause != Some(err) {
        var part := if err in f.cause.value.parts then err else Wrapped(FRESH, err);
        PartMatches(f.cause.value.parts, part, target);
      }
    }
  }

  // The target is a comparable node of the cause itself: its root or a part it joins.
  ghost predicate IsNode(cause: Option<Error>, target: Error) {
    && Comparable(target) && cause.Some?
    && (target == cause.value || (cause.value.Joined? && target in cause.value.parts))
  }

  // The cause of a failed request matches exactly its own nodes, what the provider's
  // error matches and what the context's error matches, whether one failed or both.
  lemma BothErrorsMatch(answer: Answer, ctxErr: Option<Error>, target: Error)
    ensures var cause := RequestCause(answer, ctxErr);
            (cause.Some? && Is(cause.value, target)
             <==> IsNode(cause, target) || (answer.Err? && Is(answer.error, target))
                  || (ctxErr.Some? && Is(ctxErr.value, target)))
  {
    var cause := RequestCause(answer, ctxErr);
    if cause.Some? && cause.value.Joined? && Comparable(target) && target in cause.value.parts {
      assert Is(target, target);
      PartMatches(cause.value.parts, target, target);
    }
    if answer.Err? && ctxErr.Some? {
      JoinOfTwo(Wrapped(FRESH, answer.error), ctxErr.value, target);
    }
  }

  lemma JoinOfTwo(a: Error, b: Error, target: Error)
    ensures AnyIs([a, b], target) <==> Is(a, target) || Is(b, target)
  {
    assert [a, b][1..] == [b];
    assert AnyIs([b], target) <==> Is(b, target);
  }

  // An error behind a rate failure: the context's at the look before asking, or the
  // provider's, or the context's at the look after it.
  ghost predicate Underlies(s: Setting, e: Entry, looks: nat, first: bool, answer: Answer, err: Error) {
    && Value(e.exchangeRate) > 0.0
    && if s.ctx(looks).Some? then s.ctx(looks) == Some(err)
       else s.provider.Some? && first && (answer == Err(err) || s.ctx(looks + 1) == Some(err))
  }

  // A rate failure matches exactly its sentinel, the nodes of its cause, and whatever
  // the provider and context errors behind it match.
  lemma RateFailureMatches(
    s: Setting, e: Entry, i: nat, looks: nat, first: bool, answer: Answer, f: Failure, target: Error)
    requires Breaks(s, e, i, looks, first, answer, f)
    ensures CodeOrCauseIs(f, target)
       <==> f.code == Some(target) || IsNode(f.cause, target)
            || exists err :: Underlies(s, e, looks, first, answer, err) && Is(err, target)
  {
    var before, after := s.ctx(looks), s.ctx(looks + 1);
    assert CodeOrCauseIs(f, target) <==> f.code == Some(target) || (f.cause.Some? && Is(f.cause.value, target));
    if Value(e.exchangeRate) > 0.0 && before.Some? {
      BothErrorsMatch(Ok(ZERO), before, target);
      assert Underlies(s, e, looks, first, answer, before.value);
    } else if Value(e.exchangeRate) > 0.0 && s.provider.Some? && first {
      BothErrorsMatch(answer, after, target);
      assert answer.Err? ==> Underlies(s, e, looks, first, answer, answer.error);
      assert after.Some? ==> Underlies(s, e, looks, first, answer, after.value);
    }
  }

  // An error behind the failure at entry `i`.
  ghost predicate UnderliesAt(s: Setting, entries: seq<Entry>, start: Trace, i: int, err: Error) {
    && 0 <= i < |entries|
    && Underlies(s, entries[i], LooksBefore(s, entries, start, i), IsNew(entries, s.asOf, i),
                 AnswerFor(s, entries, start, entries[i]), err)
  }

  lemma RateFailureMatchesAt(s: Setting, entries: seq<Entry>, start: Trace, f: Failure, target: Error)
    requires RateReports(s, entries, start, f)
    ensures CodeOrCauseIs(f, target)
       <==> f.code == Some(target) || IsNode(f.cause, target)
            || exists err :: UnderliesAt(s, entries, start, f.entryIndex, err) && Is(err, target)
  {
    var i := f.entryIndex;
    var looks, first := LooksBefore(s, entries, start, i), IsNew(entries, s.asOf, i);
    var answer := AnswerFor(s, entries, start, entries[i]);
    RateFailureMatches(s, entries[i], i, looks, first, answer, f, target);
    assert forall err :: UnderliesAt(s, entries, start, i, err) <==> Underlies(s, entries[i], looks, first, answer, err);
  }
}
