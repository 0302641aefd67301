# NomLedger in Dafny

A verified model of NomLedger's validation core: a double-entry engine that accepts or
rejects transactions before anything is stored. Run `dafny verify dfyconfig.toml`.

The project proves what acceptance means. Decimals are exact `coef * 10^exp` pairs and every
bound is on real numbers. The provider, the context and the clock are arbitrary functions of
how often they were consulted, so each statement covers every stateful provider and every
moment of cancellation unless it names a deterministic provider or a live context. Requests and
looks at the context go into one log, in the order they happen.

| file | part |
|---|---|
| `Errors.dfy` | the error tree, `Is` and `As`, rewrapping |
| `Decimals.dfy`, `Rounding.dfy` | decimal primitives and the rounding modes |
| `Text.dfy`, `CurrencyTable.dfy`, `Currencies.dfy`, `Moneys.dfy` | codes, the table generator, the registry, money |
| `Entries.dfy` | line items: construction and re-validation |
| `Rates.dfy`, `Requests.dfy` | the cached rate loop; the pairs a transaction needs, by first use |
| `RateLaws.dfy`, `RateErrors.dfy` | when the rates pass, what a failure reports, which errors it still matches |
| `RateLog.dfy`, `RateCaching.dfy` | the exact log of requests and context looks; what caching may not change |
| `Config.dfy`, `Builder.dfy`, `BuilderLaws.dfy` | configuration, the builder class, what a build decides |
| `Sums.dfy`, `AcceptanceLaws.dfy`, `Revaluation.dfy`, `PeriodClosure.dfy` | laws of accepted transactions |
| `Lifecycle.dfy`, `Ledgers.dfy` | every sequence of builder calls; the ledger path and its parity with the builder |
| `GoldenDiff.dfy` | the line diff of the API golden check |

Code that works by mutation is modelled by classes and loops (`TxBuilder`, `RateCache`, `World`,
the generator's maps, the diff's table) whose methods are proved equal to a function of the old
state; the laws are lemmas about those functions. Map iteration picks an arbitrary remaining key,
so a result proved for the loop holds for every iteration order.

One documented rule is false of the code. A zero closed date does not always disable the period
check (`README.md:228`, `pkg/core/period.go:19-20`): `validatePeriod` compares instants without
testing for zero (`pkg/core/tx.go:449`), so a non-adjusting transaction dated before the zero
instant is rejected. `PeriodClosure.ZeroClosedDateCanStillClose` gives such a transaction and
`PeriodClosure.ZeroClosedDate` the exact condition.

## Model

| member | source | states |
|---|---|---|
| Revaluation.RevaluationBound | pkg/core/rates.go:86-94 | For every accepted transaction and any provider, the sum of transaction amounts at the provider's own rates is within tolerance times the foreign amounts, plus half a functional minor unit per foreign entry, of zero. |
| Revaluation.EntrySlack | pkg/core/entry.go:169-192 | One validated entry revalued at the provider's rate differs from its functional amount by at most tolerance times its amount plus half a minor unit, and not at all within one currency. |
| Revaluation.AcceptedRatesAgree | pkg/core/rates.go:81-94 | In an accepted build the builder's provider answered, for each foreign entry's pair, a positive rate within the configured tolerance of the entry's positive rate. |
| BuilderLaws.BuildDecides | pkg/core/tx.go:230-293 | A build succeeds exactly when every documented check holds, the rate check being a condition on the provider's one answer per pair and on the context's answers; otherwise it reports the first broken check in the fixed order, with that check's code, field, cause and smallest offending entry. |
| BuilderLaws.CheckMeans | pkg/core/tx.go:328-461 | Each single check fails exactly when its condition on dates, keys, entries, exact real sums, provider answers and context looks does not hold. |
| BuilderLaws.CheckReports | pkg/core/tx.go:328-461 | A broken check is reported with its own sentinel, field and cause; entry checks name the first offending entry and its first broken condition; option errors keep their code and cause. |
| BuilderLaws.BuildErrorsSurface | pkg/core/tx.go:230-326 | The error a failed build returns matches exactly the sentinel of the first broken check and what the error behind it matches: an option's, the context's, the configuration's, an entry's, or, under the nodes that wrap them, the provider's and context's errors behind a rate failure. |
| BuilderLaws.OptionsApplyInOrder | pkg/core/tx.go:118-152 | Options all apply, composing to one clock, or stop at the first that fails on what its predecessors chose. |
| BuilderLaws.NewStateIs | pkg/core/tx.go:118-152 | A new builder holds the given fields and the configuration with its currency in capitals; the clock is the one the options compose to or the system's, and the first failing option's error is kept for Build. |
| BuilderLaws.SumMeans | pkg/core/tx.go:429-434 | The running decimal sum is the exact real sum of the functional amounts, whatever the exponents. |
| Builder.TxBuilder.BuildWith | pkg/core/tx.go:230-293 | The imperative pipeline returns the verdict of the ordered checks, defaults only the operation on failure, finalizes on success, and returns the builder's identifier, date, flag, entries and metadata, posted at one clock reading, in a fresh slice and a fresh map. |
| Builder.TxBuilder.Build | pkg/core/tx.go:214-228 | A finalized builder reports that it is and touches nothing; otherwise the pipeline runs under the background context. |
| Builder.TxBuilder.constructor | pkg/core/tx.go:118-152 | Options apply in order until one fails; the failure is kept for Build and the configuration is normalized. |
| Builder.TxBuilder.AddEntry | pkg/core/tx.go:157-163 | Appends one entry and changes nothing else; a no-op once finalized. |
| Builder.TxBuilder.SetAdjustingEvent | pkg/core/tx.go:170-176 | Sets the flag and changes nothing else; a no-op once finalized. |
| Builder.TxBuilder.WithMetadata | pkg/core/tx.go:186-197 | The result is the right-biased merge for every iteration order of the caller's map; nil and finalized are no-ops. |
| Builder.TxBuilder.ValidateMetadataKeys | pkg/core/tx.go:365-377 | Fails exactly when some key is malformed, with the same error whichever key is met first. |
| Builder.TxBuilder.ValidateEntries | pkg/core/tx.go:391-398 | Reports the first invalid entry, rewrapped with its index. |
| Builder.TxBuilder.ValidateCurrencyConsistency | pkg/core/tx.go:414-427 | Reports the first entry in another functional currency. |
| Builder.TxBuilder.ValidateZeroSum | pkg/core/tx.go:429-445 | Fails exactly when the accumulated sum is not zero. |
| Builder.Transaction.Entries | pkg/core/tx.go:58-62 | Returns a fresh slice with the transaction's entries. |
| Builder.Transaction.Metadata | pkg/core/tx.go:68-70 | Returns a fresh map with the transaction's metadata. |
| Builder.CopyMetadata | pkg/core/account.go:204-210 | The copy is a fresh map with equal contents for every iteration order. |
| AcceptanceLaws.AcceptedMeans | pkg/core/tx.go:240-281 | For any provider and context, acceptance is the conditions on the builder's fields and entries, a clean first look, and for each foreign entry an answer of the builder's provider to the pair on the effective date within the configured tolerance, with no look cancelled. |
| AcceptanceLaws.BuildRequestLog | pkg/core/tx.go:240-281 | Over every build the provider is asked for the distinct foreign pairs of a prefix of the entries, each once and by first need: none when an earlier check fails, all on success, and up to the failing entry otherwise, that entry included exactly when its own rate is positive, its look clean and a provider present. |
| AcceptanceLaws.BuildAsksForPairs | pkg/core/rates.go:76-80 | In every build each request goes from the transaction currency to the functional currency of some foreign entry, as of the effective date, at one place in the log only; a successful build has made it for every foreign entry. |
| AcceptanceLaws.BuildIsOrdered | pkg/core/tx.go:240-281 | In every build each request comes right after a clean look at the context and is followed by another look, and a look that reports an error is the last event. |
| AcceptanceLaws.BuildCancellation | pkg/core/tx.go:310-326 | The first cancellation a build observes is its last event: nothing more is asked, the clock is not read, and the failure still matches the context's error. |
| AcceptanceLaws.SteadyAcceptance | pkg/core/tx.go:240-281 | With a deterministic provider and a live context acceptance is a condition on the builder's fields, a condition on each entry alone with the provider's answer for its pair and the configured tolerance, and one exact sum. |
| AcceptanceLaws.AcceptanceIsPermutable | pkg/core/tx.go:391-445 | Acceptance does not change under any permutation of the entries. |
| AcceptanceLaws.AcceptanceConcatenates | pkg/core/tx.go:391-445 | The entries of two accepted transactions under one configuration, provider, date and flag are accepted together. |
| AcceptanceLaws.ReversalIsAccepted | pkg/core/entry.go:66-102 | Negating every transaction amount of an accepted transaction rebuilds every entry with the negated functional amount, and the reversal is accepted with the same provider requests, for any provider and context. |
| AcceptanceLaws.ReverseEntry | pkg/core/entry.go:221-283 | A validated entry can always be rebuilt with its amount negated, and the result validates. |
| PeriodClosure.ZeroClosedDate | pkg/core/tx.go:447-461 | With a zero closed date a build past the earlier checks reports a closed period exactly for non-adjusting dates before the zero instant. |
| PeriodClosure.ZeroClosedDateCanStillClose | pkg/core/period.go:17-24 | A concrete balanced transaction under a zero closed date that is still rejected as closed. |
| Lifecycle.EveryRun | pkg/core/tx.go:91-97 | After any sequence of builder calls: either nothing succeeded and the accumulated state survives every failure, or one build succeeded with the identifier, date, last flag, entries in order, merged metadata and clock reading of what came before it, and nothing changes afterwards. |
| Lifecycle.AtMostOneSuccess | pkg/core/tx.go:210-213 | At most one build of any sequence succeeds, and the clock is read exactly once per success. |
| Ledgers.PathParity | pkg/core/ledger.go:71-85 | The ledger under a live context and a builder fed by any interleaving of mutators agree on verdict, transaction, code, field, index and cause, differing only in the operation name and the posting instant. |
| Ledgers.VerdictRelabels | pkg/core/tx.go:214-293 | Two builders that differ only in the operation name get the same verdict up to that name, whatever their live contexts and provider logs. |
| Ledgers.LedgerKeepsInput | pkg/core/ledger.go:71-85 | A returned transaction has its input's identifier, date, flag, entries and metadata and the reading of the ledger's clock; a failure is reported under the ledger's operation and reads no clock. |
| Ledgers.ClosedBooksStayClosed | pkg/core/period.go:73-81 | A ledger made from a configuration accepts no transaction dated at or before that configuration's closed date, adjusting events excepted. |
| Ledgers.ValidateTransaction | pkg/core/ledger.go:71-85 | Runs the pipeline on a fresh builder; the input is copied, the ledger is not modified, and the transaction's storage is fresh. |
| Ledgers.ValidateTransactionLegacy | pkg/core/ledger.go:91-103 | The same outcome with the background context and no metadata. |
| Ledgers.NewLedgerDecides | pkg/core/ledger.go:31-59 | A ledger is made exactly from a usable configuration, options that all apply and a provider, and holds the given closed date and tolerance, the currency in capitals, that provider and the clock the options compose to. |
| Ledgers.NewLedgerReports | pkg/core/ledger.go:31-59 | Otherwise the configuration, then the first failing option, then the missing provider is reported, with its sentinel, field and cause. |
| Ledgers.LedgersAreOk | pkg/core/ledger.go:115-125 | Every constructed or updated ledger has a valid, normalized configuration; updating succeeds exactly on usable configurations, holds the given closed date and tolerance and the currency in capitals, keeps provider and clock, and reports why it failed. |
| Config.NormalizeIsCanonical | pkg/core/period.go:42-81 | Normalizing keeps closed date and tolerance, puts a known currency in capitals, leaves any other string, is idempotent and changes no verdict; a configuration is valid exactly with a ratable currency and a non-negative tolerance. |
| Config.ConfigReports | pkg/core/period.go:42-70 | An invalid configuration is reported by its currency first, with the lookup's sentinel as cause, then by its tolerance. |
| RateLaws.RatesPassExactly | pkg/core/rates.go:30-95 | For any provider and any context the rate check passes exactly when the one answer for each foreign entry's pair is a positive rate within tolerance of the entry's positive rate and no look of a passing run is cancelled: one look per foreign entry and one more per pair. |
| RateLaws.RatesReport | pkg/core/rates.go:56-140 | A failing run names the first entry that does not pass and its first broken condition: own rate, cancelled look, missing provider, provider or context error around the request, non-positive answer, deviation, each with its sentinel, field and cause. |
| RateCaching.CachedRefinesUncached | pkg/core/rates.go:30-54 | With a deterministic provider and a live context the cached loop gives the same verdict, error and index as asking the provider afresh for every foreign entry. |
| RateCaching.OneAnswerPerPair | pkg/core/rates.go:100-140 | For any provider the verdict is the first failure when every entry of a pair is judged against the one answer given at the pair's first use. |
| RateLog.RunLog | pkg/core/rates.go:44-51 | The exact log of every run: a clean look per passing foreign entry, the request and a second look where its pair is new, and for the failing entry the events up to its first broken condition. |
| RateLog.RequestLog | pkg/core/rates.go:100-111 | Every run asks for the distinct pairs of a prefix of the entries: all on success, else those before the failing entry, and its own exactly when it reached the provider. |
| RateLog.RunAsks | pkg/core/rates.go:100-111 | The requests in the log of a run are the distinct pairs of the entries it asked for, each at one place. |
| RateLog.RunIsOrdered | pkg/core/rates.go:69-71 | In every run each request comes right after a clean look and is followed by a look, and a look that reports an error is the last event. |
| Requests.DistinctRequestsAre | pkg/core/rates.go:108-111 | The distinct requests have no repeats, are exactly the needed ones, and are ordered by first need. |
| RateLog.CancellationStops | pkg/core/rates.go:27-29 | The first cancellation a run observes is its last event: it asks nothing more and fails there with a context error that still matches all it matched. |
| RateErrors.BothErrorsMatch | pkg/core/rates.go:115-136 | The cause of a failed request matches exactly its own nodes, what the provider's error matches and what the context's error matches, also when both failed. |
| RateLaws.CompareRatesMeans | pkg/core/rates.go:86-94 | The comparison passes exactly when the provider rate is positive and within the inclusive tolerance, and names which of the two failed. |
| RateCaching.AcceptedEntryByEntry | pkg/core/rates.go:30-54 | With a deterministic provider the rate check passes exactly when each entry's own rate agrees. |
| Rates.ValidateRates | pkg/core/rates.go:30-54 | The loop over entries with the shared cache is the rate validation function of the outside's state. |
| Rates.ValidateEntryRate | pkg/core/rates.go:56-95 | One entry's check: sign, context, provider, answer, comparison, in that order. |
| Rates.Resolve | pkg/core/rates.go:100-140 | A cached pair costs nothing; a fresh one costs one call and one look at the context, and only a clean answer is cached. |
| Rates.FirstFailureIsFirst | pkg/core/tx.go:391-398 | A fail-fast scan passes exactly when no element fails, and otherwise returns the failure of the least failing index. |
| Entries.NewEntryDecides | pkg/core/entry.go:47-102 | Construction succeeds exactly when the field conditions hold and the converted amount is more than half a functional minor unit from zero. |
| Entries.FieldsReportFirstBroken | pkg/core/entry.go:221-283 | Invalid fields are reported by the first broken condition, with its sentinel and field. |
| Entries.ConstructionIsTotal | pkg/core/entry.go:66-102 | With valid fields only a zero functional amount can fail: the rounding and both money failure branches are unreachable. |
| Entries.ValidateIsRebuild | pkg/core/entry.go:152-214 | Re-validation accepts exactly the values construction builds from the entry's own fields, up to numeric equality. |
| Entries.ConstructedEntriesValidate | pkg/core/entry.go:147-151 | Every constructed entry validates, and rebuilding it returns the same entry. |
| Entries.ValidateReports | pkg/core/entry.go:152-214 | A rejected entry is reported by its first broken field condition, or by the first part that differs from its rebuild, with sentinel and field. |
| Entries.ValidEntryMeans | pkg/core/entry.go:152-195 | A valid entry has a non-zero amount, a positive rate, a functional amount within half a minor unit of the exact conversion, and equal amounts within one currency. |
| Entries.NewEntryNegates | pkg/core/entry.go:66-102 | Negating the amount of an accepted construction is accepted and gives the negated entry digit for digit. |
| Moneys.NewMoneyDecides | pkg/currency/money.go:22-31 | Succeeds exactly for a ratable currency and an exponent no finer than its minor unit, keeps the amount digit for digit under the canonical code, is a whole number of minor units, and names each failure. |
| Moneys.PrecisionIsByExponent | pkg/currency/money.go:27-29 | The test is on the exponent, not the number: in every ratable currency one of two equal amounts is refused and the other accepted. |
| Moneys.MoneyArithmetic | pkg/currency/money.go:22-72 | Addition and subtraction fail exactly on different codes, are exact and undo each other, and keep the code and the currency's precision. |
| Rounding.RoundDecides | pkg/currency/rounding.go:42-68 | Round fails on the currency, then the mode, then inexactness; success is the one multiple the mode defines. |
| Rounding.RoundToMeets | pkg/currency/rounding.go:48-67 | Each mode returns the unique multiple of 10^-places meeting its definition; Unnecessary succeeds exactly on such multiples. |
| Rounding.RoundHalfDownMeets | pkg/currency/rounding.go:70-77 | The shift, truncate and compare-to-half test is nearest with ties toward zero. |
| Rounding.RoundUnnecessaryMeets | pkg/currency/rounding.go:79-85 | Succeeds exactly when the amount already is a multiple, and returns its value. |
| Rounding.RoundsUnique | pkg/currency/rounding.go:21-34 | No mode's definition is met by two whole numbers. |
| Rounding.RoundingIsIdempotent | pkg/currency/rounding.go:42-59 | Rounding twice is rounding once, for the five modes that always round. |
| Rounding.RoundingIsMonotone | pkg/currency/rounding.go:42-59 | Rounding preserves order, for the five modes that always round. |
| Rounding.RoundingMirrors | pkg/currency/rounding.go:42-59 | The half modes commute with negation, and floor and ceiling mirror each other. |
| Rounding.RoundBankNegates | pkg/currency/rounding.go:49-50 | HalfEven rounding of a negated amount is the negated decimal itself. |
| Rounding.RoundingIsBracketed | pkg/currency/rounding.go:48-58 | Every half mode lies between floor and ceiling. |
| Rounding.RoundingErrorBound | pkg/currency/rounding.go:48-54 | A half mode errs by at most half a unit. |
| CurrencyTable.BuildTable | internal/iso4217/gen/main.go:153-171 | Succeeds exactly on acceptable rows and funds, returns the sorted table of what the rows publish, and otherwise names the first failing check and the fund or row at which it failed. |
| CurrencyTable.BuildFundSet | internal/iso4217/gen/main.go:173-185 | Succeeds exactly on well-formed, distinct codes; otherwise names the first bad or repeated one. |
| CurrencyTable.CollectEntries | internal/iso4217/gen/main.go:187-207 | Succeeds exactly when rows are well formed and consistent, with exactly the published entries; otherwise names the first offending row. |
| CurrencyTable.CheckFundsPresent | internal/iso4217/gen/main.go:245-252 | Names the first fund code without an entry. |
| CurrencyTable.SortedEntries | internal/iso4217/gen/main.go:254-263 | For every iteration order of the map, strictly sorted and holding exactly its entries. |
| CurrencyTable.Canonical | internal/iso4217/gen/main.go:153-263 | Verdict and table depend only on which rows and fund codes there are: permuting or repeating rows, permuting funds and map order change nothing. |
| CurrencyTable.RowDecides | internal/iso4217/gen/main.go:209-243 | A row is rejected exactly for its one fault, skipped exactly when sound and without a code, and otherwise publishes the one entry that describes it. |
| CurrencyTable.TableAgreesWithRows | internal/iso4217/gen/main.go:209-304 | Every row with a code has its own data in the table, minor units as published, every entry comes from a row, and fund flags are exactly the listed codes. |
| CurrencyTable.SortedUnique | internal/iso4217/gen/main.go:259-261 | Strictly sorted tables with the same entries are equal. |
| Currencies.Init | pkg/currency/currency.go:31-45 | The map indexes exactly the table, and the sorted copy is the table itself. |
| Currencies.All | pkg/currency/currency.go:76-80 | Returns a fresh copy of the sorted currencies. |
| Currencies.LookupIsScan | pkg/currency/currency.go:63-73 | On every string the registry answers as a linear scan of the table for the uppercase code does. |
| Currencies.LookupIsCanonical | pkg/currency/currency.go:47-61 | Success returns the uppercase form of the input; lookup ignores letter case and is stable on its own result. |
| Currencies.LookupSpells | pkg/currency/currency.go:63-73 | On every string lookup finds the table's currency whose code is the input letter for letter in any case, reports a malformed code exactly for anything but three ASCII letters, and an unknown one otherwise. |
| Currencies.LookupIgnoresCase | pkg/currency/currency.go:68-68 | Inputs that differ only in the case of their letters get one answer, spelled in capitals. |
| Currencies.RatableMeans | pkg/currency/rounding.go:87-97 | A currency is ratable exactly when found and marked so; otherwise the lookup's own reason is passed on. |
| Currencies.GeneratedTablesAreIndexable | internal/iso4217/gen/main.go:153-171 | Every table the generator can produce is one the registry can index. |
| Errors.Transparency | pkg/errors/validation_error.go:59-74 | A validation error matches a target exactly when it is that target or its code or cause matches. |
| Errors.SameErrorIsEquality | pkg/errors/validation_error.go:76-81 | Two errors that match each other are one comparable error, so dropping the cause loses no match. |
| Errors.MatchShrinks | pkg/errors/validation_error.go:57-74 | A match is the error itself or a strictly smaller error below it. |
| Errors.FindsFirstValidation | pkg/core/account.go:166-172 | The failure that rewrapping adopts is that of the first validation error in depth-first order. |
| Errors.RewrapMatches | pkg/core/account.go:166-172 | A rewrapped error matches what the code or cause of the first failure inside it matches, or the whole tree when it holds none. |
| Errors.LayersAreTransparent | pkg/core/tx.go:400-412 | However many transaction-level and entry-level layers rewrap a failure, exactly the same targets match. |
| GoldenDiff.LcsLengths | pkg/core/api_golden_test.go:252-270 | Every cell of the filled table is the recurrence's value for its two suffixes. |
| GoldenDiff.LcsIsLongest | pkg/core/api_golden_test.go:252-270 | That value is the greatest length of a common subsequence: one of that length exists and none is longer. |
| GoldenDiff.RenderGoldenDiff | pkg/core/api_golden_test.go:272-295 | The loop prints exactly the script of the greedy walk. |
| GoldenDiff.ScriptIsExact | pkg/core/api_golden_test.go:272-295 | The script splits both lists in order and changes exactly the two lengths less twice the longest common subsequence. |
| GoldenDiff.ScriptIsMinimal | pkg/core/api_golden_test.go:272-295 | No script between the same lists changes fewer lines. |
| GoldenDiff.WalkRemovesFirst | pkg/core/api_golden_test.go:272-295 | Among the shortest scripts the walk keeps equal first lines and otherwise removes whenever some shortest script starts by removing. |
| GoldenDiff.WalkGoesOn | pkg/core/api_golden_test.go:272-295 | After its first edit the walk is the walk over what is left. |
| GoldenDiff.ApiGoldenDiff | pkg/core/api_golden_test.go:245-250 | The diff is empty exactly on equal lists. |
| Text.CheckBounded | pkg/core/account.go:174-184 | The scan accepts exactly non-empty, bounded, control-free strings. |
| Text.CheckCode | pkg/currency/currency.go:146-156 | The scan accepts exactly three ASCII letters. |
| Text.CheckThreeOf | internal/iso4217/gen/main.go:265-287 | The scan accepts exactly three characters of a range. |
| Text.LessMeans | internal/iso4217/gen/main.go:259-261 | The order of codes: the first differing position decides, and a proper prefix comes first. |

## Left out

- File reading, XML parsing, checksums and Go source rendering in the generator: the model starts from parsed rows and fund codes.
- The 178 rows of the published table: the table and the registry are parameters.
- The decimal library's internals: exponents are unbounded, and rounding primitives are defined by their documented meaning. RoundFloor and RoundCeil promise a value, not an exponent.
- Error message text, time zones and time formatting: UTC is the identity on integer instants, and 0 is the zero instant.
- Pointer identity of errors the pipeline allocates: they all carry one placeholder pointer, and matching is stated for targets other than the error itself.
- Custom Is and As methods, and errors whose comparison panics.
- Strings are one char per byte; letter case is mapped for ASCII only, which is all that valid codes contain.
- A nil metadata map inside a builder and an empty one are one value; a builder's own entries and metadata are sequence and map fields, so slice capacity is not modelled.
- `sort.Slice` is an insertion by code: any correct sort gives the same strictly sorted table.
- Deep contents of metadata values: copies are shallow, and values are opaque tokens.
- Goroutine scheduling: a ledger has no mutable state.
- `Account`, `GetPrecision`, `RoundToPrecision` and `Money.String`: one-branch checks, and formatting by the decimal library.
- The accessors: each only returns a field of a value.
