// The revaluation bound: how far an accepted transaction can be from balanced when
// its transaction amounts are converted at the provider's own rates.
module Revaluation {
  import opened Decimals
  import opened Currencies
  import opened Entries
  import opened Rates
  import opened Builder
  import opened Sums
  import opened BuilderLaws
  import opened AcceptanceLaws

  // The transaction amount at the rate the builder's provider gave for its pair, after
  // `calls` earlier requests, or unchanged within one currency.
  ghost function AtProviderRate(b: BuilderState, calls: nat): Entry -> real {
    (e: Entry) =>
      if e.txCurrency == e.functionalCurrency then Value(e.txAmount)
      else if b.provider.Some? && AnswerIn(b, calls, e).Ok? then Value(Mul(e.txAmount, AnswerIn(b, calls, e).value))
      else 0.0
  }

  ghost function ForeignMagnitude(): Entry -> real {
    (e: Entry) => if e.txCurrency != e.functionalCurrency then RealAbs(Value(e.txAmount)) else 0.0
  }

  ghost function ForeignCount(): Entry -> real {
    (e: Entry) => if e.txCurrency != e.functionalCurrency then 1.0 else 0.0
  }

  // What one entry can contribute to the imbalance.
  ghost function Slack(tolerance: Decimal, half: real): Entry -> real {
    (e: Entry) =>
      if e.txCurrency != e.functionalCurrency then Value(Mul(tolerance, Abs(e.txAmount))) + half else 0.0
  }

  lemma DifferenceBound(t: real, p: real, r: real, tolerance: real, size: real, tp: real, tr: real, slack: real)
    requires RealAbs(p - r) <= tolerance && size == RealAbs(t)
    requires tp == t * p && tr == t * r && slack == tolerance * size
    ensures RealAbs(tp - tr) <= slack
  {
    var d := p - r;
    assert tp - tr == t * d;
    if t >= 0.0 {
      ProductSign(t, tolerance - d);
      ProductSign(t, tolerance + d);
    } else {
      ProductSign(-t, tolerance - d);
      ProductSign(-t, tolerance + d);
    }
  }

  lemma ProductSign(x: real, y: real)
    requires x >= 0.0 && y >= 0.0
    ensures x * y >= 0.0
  {
  }

  // Converting at a rate off by at most the tolerance.
  lemma ToleranceBound(t: Decimal, p: Decimal, r: Decimal, tolerance: Decimal)
    requires RealAbs(Value(p) - Value(r)) <= Value(tolerance)
    ensures RealAbs(Value(Mul(t, p)) - Value(Mul(t, r))) <= Value(Mul(tolerance, Abs(t)))
  {
    MulMeans(t, p);
    MulMeans(t, r);
    MulMeans(tolerance, Abs(t));
    AbsMeans(t);
    DifferenceBound(Value(t), Value(p), Value(r), Value(tolerance), Value(Abs(t)),
                    Value(Mul(t, p)), Value(Mul(t, r)), Value(Mul(tolerance, Abs(t))));
  }

  // The functional amount is within `half` of the exact conversion, and exact within
  // one currency.
  ghost predicate ConvertsWithin(e: Entry, half: real) {
    && RealAbs(Value(e.functionalAmount) - Value(Mul(e.txAmount, e.exchangeRate))) <= half
    && (e.txCurrency == e.functionalCurrency ==> Value(e.functionalAmount) == Value(e.txAmount))
  }

  ghost function HalfUnit(registry: Registry, code: string): real {
    0.5 * MinorUnit(registry, code)
  }

  lemma ValidEntriesConvert(registry: Registry, entries: seq<Entry>, code: string)
    requires AllValid(registry, entries) && AllIn(entries, code)
    ensures forall e :: e in entries ==> ConvertsWithin(e, HalfUnit(registry, code))
  {
    forall e | e in entries ensures ConvertsWithin(e, HalfUnit(registry, code)) {
      ValidEntryMeans(registry, e);
    }
  }

  // One entry: tolerance times its amount, plus half a minor unit of rounding.
  lemma EntrySlack(b: BuilderState, calls: nat, e: Entry, half: real)
    requires ConvertsWithin(e, half) && (e.txCurrency != e.functionalCurrency ==> PairAgrees(b, calls, e))
    ensures RealAbs(AtProviderRate(b, calls)(e) - FunctionalValue()(e)) <= Slack(b.config.rateTolerance, half)(e)
  {
    if e.txCurrency != e.functionalCurrency {
      ToleranceBound(e.txAmount, AnswerIn(b, calls, e).value, e.exchangeRate, b.config.rateTolerance);
    }
  }

  lemma {:induction false} SlackTotal(entries: seq<Entry>, tolerance: Decimal, half: real)
    ensures Total(entries, Slack(tolerance, half))
         == Value(tolerance) * Total(entries, ForeignMagnitude()) + half * Total(entries, ForeignCount())
  {
    if entries != [] {
      var front, last := entries[..|entries| - 1], entries[|entries| - 1];
      var x, y := ForeignMagnitude()(last), ForeignCount()(last);
      SlackTotal(front, tolerance, half);
      SlackOf(last, tolerance, half);
      SlackStep(Value(tolerance), Total(front, ForeignMagnitude()), x, half, Total(front, ForeignCount()), y,
                Slack(tolerance, half)(last));
    }
  }

  lemma SlackOf(e: Entry, tolerance: Decimal, half: real)
    ensures Slack(tolerance, half)(e) == Value(tolerance) * ForeignMagnitude()(e) + half * ForeignCount()(e)
  {
    MulMeans(tolerance, Abs(e.txAmount));
    AbsMeans(e.txAmount);
  }

  lemma SlackStep(t: real, m: real, x: real, h: real, n: real, y: real, s: real)
    requires s == t * x + h * y
    ensures t * (m + x) + h * (n + y) == t * m + h * n + s
  {
  }

  lemma TotalSlack(b: BuilderState, calls: nat, half: real)
    requires Total(b.entries, FunctionalValue()) == 0.0
    requires forall e :: e in b.entries ==>
               ConvertsWithin(e, half) && (e.txCurrency != e.functionalCurrency ==> PairAgrees(b, calls, e))
    ensures RealAbs(Total(b.entries, AtProviderRate(b, calls))) <= Total(b.entries, Slack(b.config.rateTolerance, half))
  {
    forall e | e in b.entries
      ensures RealAbs(AtProviderRate(b, calls)(e) - FunctionalValue()(e)) <= Slack(b.config.rateTolerance, half)(e)
    {
      EntrySlack(b, calls, e, half);
    }
    TotalBound(b.entries, AtProviderRate(b, calls), FunctionalValue(), Slack(b.config.rateTolerance, half));
  }

  // In an accepted build the provider confirms the rate of every foreign entry.
  lemma AcceptedRatesAgree(registry: Registry, b: BuilderState, ctx: Context, out: Outside)
    requires Accepted(registry, b, ctx, out)
    ensures EntriesAccepted(registry, b)
    ensures forall e :: e in b.entries && e.txCurrency != e.functionalCurrency ==> PairAgrees(b, |out.trace.calls|, e)
  {
    AcceptedMeans(registry, b, ctx, out);
  }

  lemma SlackedBalance(registry: Registry, b: BuilderState, ctx: Context, out: Outside)
    requires Accepted(registry, b, ctx, out)
    ensures RealAbs(Total(b.entries, AtProviderRate(b, |out.trace.calls|)))
         <= Total(b.entries, Slack(b.config.rateTolerance, HalfUnit(registry, b.config.functionalCurrency)))
  {
    AcceptedRatesAgree(registry, b, ctx, out);
    ValidEntriesConvert(registry, b.entries, b.config.functionalCurrency);
    TotalSlack(b, |out.trace.calls|, HalfUnit(registry, b.config.functionalCurrency));
  }

  // Tolerance times the foreign amounts, plus half a minor unit per foreign entry.
  ghost function Allowance(registry: Registry, b: BuilderState): real {
    Value(b.config.rateTolerance) * Total(b.entries, ForeignMagnitude())
    + HalfUnit(registry, b.config.functionalCurrency) * Total(b.entries, ForeignCount())
  }

  lemma AllowanceIsSlack(registry: Registry, b: BuilderState)
    ensures Allowance(registry, b)
         == Total(b.entries, Slack(b.config.rateTolerance, HalfUnit(registry, b.config.functionalCurrency)))
  {
    SlackTotal(b.entries, b.config.rateTolerance, HalfUnit(registry, b.config.functionalCurrency));
  }

  // For every accepted transaction, whatever the provider: it answered for every foreign
  // pair, and the sum of transaction amounts at its rates is within the allowance of zero.
  lemma RevaluationBound(registry: Registry, b: BuilderState, ctx: Context, out: Outside)
    requires Accepted(registry, b, ctx, out)
    ensures forall e :: e in b.entries && e.txCurrency != e.functionalCurrency ==>
              b.provider.Some? && AnswerIn(b, |out.trace.calls|, e).Ok?
    ensures RealAbs(Total(b.entries, AtProviderRate(b, |out.trace.calls|))) <= Allowance(registry, b)
  {
    AcceptedRatesAgree(registry, b, ctx, out);
    SlackedBalance(registry, b, ctx, out);
    AllowanceIsSlack(registry, b);
  }
}
