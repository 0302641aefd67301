// A zero closed date, which the documentation says disables the period check.
module PeriodClosure {
  import opened Wrappers
  import opened Text
  import opened Errors
  import opened Decimals
  import opened Currencies
  import opened Entries
  import opened Moneys
  import opened Rates
  import opened Config
  import opened Builder
  import opened Sums
  import opened BuilderLaws

  // With a zero closed date the period check is disabled exactly for effective dates
  // after the zero instant, and for adjusting events.
  lemma ZeroClosedDate(registry: Registry, b: BuilderState, ctx: Context, out: Outside)
    requires b.config.closedDate == ZERO_TIME
    requires PassesUpTo(registry, b, ctx, out, 10)
    ensures Verdict(registry, b, ctx, out) == Some(Fail(PeriodClosed, OperationOf(b), "effectiveDate"))
       <==> b.effectiveDate < ZERO_TIME && !b.isAdjustingEvent
  {
    assert Failing(registry, b, ctx, out, ORDER[4]).None?;
    if Failing(registry, b, ctx, out, ORDER[10]).Some? {
      FirstFailingDecides(registry, b, ctx, out, 10);
    } else {
      RateFailuresAreIndexed(registry, b, ctx, out);
    }
  }

  // Past the period check, a failure is a rate failure and names an entry.
  lemma RateFailuresAreIndexed(registry: Registry, b: BuilderState, ctx: Context, out: Outside)
    requires PassesUpTo(registry, b, ctx, out, 11)
    ensures Verdict(registry, b, ctx, out).Some? ==> Verdict(registry, b, ctx, out).value.entryIndex >= 0
  {
    RatesDecide(registry, b, ctx, out);
    if Verdict(registry, b, ctx, out).Some? {
      CheckReports(registry, b, ctx, out, RatesOk);
    }
  }

  const DOLLARS: map<string, CurrencyTable.Entry> :=
    map["USD" := CurrencyTable.Entry("USD", "840", "US Dollar", 2, true, false)]

  const DEBIT: Entry :=
    Entry("cash", Decimal(1, 0), "USD", ONE, Decimal(100, -2), "USD", Money(Decimal(1, 0), "USD"), Money(Decimal(100, -2), "USD"))

  // A balanced two-line dollar transaction dated one instant before the zero time.
  function EarlyTransaction(): BuilderState {
    BuilderState("tx", -1, false, [DEBIT, NegEntry(DEBIT)], map[], BUILD, false, None, n => 0, None,
                 LedgerConfig(ZERO_TIME, "USD", ZERO))
  }

  lemma DollarsAreValid()
    ensures ValidRegistry(DOLLARS)
    ensures FindRatable(DOLLARS, "USD") == Ok(DOLLARS["USD"])
  {
    assert UpperCode("USD");
    UpperOfUpper("USD");
  }

  lemma DebitIsBuilt()
    ensures ValidRegistry(DOLLARS)
    ensures NewEntry(DOLLARS, "cash", ONE, "USD", ONE, "USD") == Ok(DEBIT)
  {
    DollarsAreValid();
    OneMeans();
    assert ValidAccountID("cash");
    ConstructionIsTotal(DOLLARS, "cash", ONE, "USD", ONE, "USD");
    assert CoefAt(ONE, -1) == 10 && CoefAt(ONE, -2) == 100;
    UpperOfUpper("USD");
  }

  lemma DebitIsValid()
    ensures ValidRegistry(DOLLARS)
    ensures Validate(DOLLARS, DEBIT).None? && Validate(DOLLARS, NegEntry(DEBIT)).None?
  {
    DebitIsBuilt();
    ConstructedEntriesValidate(DOLLARS, "cash", ONE, "USD", ONE, "USD");
    NewEntryNegates(DOLLARS, "cash", ONE, "USD", ONE, "USD");
    ConstructedEntriesValidate(DOLLARS, "cash", Neg(ONE), "USD", ONE, "USD");
  }

  // The documented rule fails on it: every earlier check passes, the closed date is
  // zero, and the build still reports a closed period.
  lemma ZeroClosedDateCanStillClose()
    ensures ValidRegistry(DOLLARS)
    ensures EarlyTransaction().config.closedDate == ZERO_TIME
    ensures Verdict(DOLLARS, EarlyTransaction(), BACKGROUND, Outside(NOTHING, 0))
         == Some(Fail(PeriodClosed, BUILD, "effectiveDate"))
  {
    DebitIsValid();
    DollarsAreValid();
    var b, out := EarlyTransaction(), Outside(NOTHING, 0);
    assert b.entries[..1] == [DEBIT] && [DEBIT][..0] == [];
    NegMeans(DEBIT.functionalAmount);
    OneMeans();
    TotalConcat([DEBIT], [NegEntry(DEBIT)], FunctionalValue());
    TotalOne(DEBIT, FunctionalValue());
    TotalOne(NegEntry(DEBIT), FunctionalValue());
    assert b.entries == [DEBIT] + [NegEntry(DEBIT)];
    forall i | 0 <= i < 10 ensures Failing(DOLLARS, b, BACKGROUND, out, ORDER[i]).None? {
      CheckMeans(DOLLARS, b, BACKGROUND, out, ORDER[i]);
    }
    ZeroClosedDate(DOLLARS, b, BACKGROUND, out);
  }
}
