// The currency registry: an index over the generated table, its case-insensitive
// lookup, and the sorted listing.
module Currencies {
  import opened Wrappers
  import opened Text
  import opened Errors
  import opened CurrencyTable

  // Every key is the canonical code of its currency.
  ghost predicate ValidRegistry(registry: map<string, Entry>) {
    forall code :: code in registry ==> registry[code].code == code && UpperCode(code)
  }

  type Registry = r: map<string, Entry> | ValidRegistry(r) witness map[]

  // A table the generator can produce, as far as the registry relies on it.
  ghost predicate Indexable(table: seq<Entry>) {
    Sorted(table) && forall e :: e in table ==> UpperCode(e.code)
  }

  // The registry holds exactly the entries of the table.
  ghost predicate Indexes(registry: Registry, table: seq<Entry>) {
    forall code, e :: code in registry && registry[code] == e <==> e in table && e.code == code
  }

  lemma GeneratedTablesAreIndexable(rows: seq<Row>, funds: set<string>, table: seq<Entry>)
    requires WellFormed(rows, funds) && IsTable(rows, funds, table)
    ensures Indexable(table)
  {
    TableAgreesWithRows(rows, funds, table);
  }

  // The package initializer: fill the map, copy the entries and sort them by code.
  method Init(table: seq<Entry>) returns (registry: Registry, ordered: seq<Entry>)
    requires Indexable(table)
    ensures Indexes(registry, table)
    ensures ordered == table
  {
    var index: map<string, Entry> := map[];
    ordered := [];
    for i := 0 to |table|
      invariant ValidRegistry(index) && Sorted(ordered)
      invariant forall code, e :: code in index && index[code] == e <==> e in table[..i] && e.code == code
      invariant forall e :: e in ordered <==> e in table[..i]
    {
      assert table[..i + 1] == table[..i] + [table[i]];
      forall e | e in table[..i] ensures e.code != table[i].code { LessIrreflexive(e.code); }
      index := index[table[i].code := table[i]];
      ordered := InsertByCode(table[i], ordered);
    }
    assert table[..|table|] == table;
    SortedUnique(ordered, table);
    registry := index;
  }

  // A defensive copy of every currency, sorted by code.
  method All(ordered: seq<Entry>) returns (all: array<Entry>)
    ensures fresh(all) && all[..] == ordered
  {
    all := new Entry[|ordered|](i requires 0 <= i < |ordered| => ordered[i]);
  }

  // lookup: check the form of the code, then the registry under its uppercase form.
  function Find(registry: Registry, code: string): Result<Entry, Sentinel> {
    if !ValidCode(code) then Err(InvalidCurrencyCode)
    else if Upper(code) in registry then Ok(registry[Upper(code)])
    else Err(UnknownCurrency)
  }

  // Lookup: as Find, with a structured error.
  function Lookup(registry: Registry, code: string): Result<Entry, Failure> {
    match Find(registry, code)
    case Ok(c) => Ok(c)
    case Err(sentinel) => Err(Fail(sentinel, "Lookup", "code"))
  }

  // ratableCurrency: a currency whose minor units are defined.
  function FindRatable(registry: Registry, code: string): Result<Entry, Sentinel> {
    match Find(registry, code)
    case Err(sentinel) => Err(sentinel)
    case Ok(c) => if c.ratable then Ok(c) else Err(CurrencyNotRatable)
  }

  /******* What lookup means *******/

  // The reference: scan the table from the front for a code.
  function Scan(table: seq<Entry>, code: string): Option<Entry> {
    if table == [] then None
    else if table[0].code == code then Some(table[0])
    else Scan(table[1..], code)
  }

  lemma {:induction false} ScanFinds(table: seq<Entry>, code: string)
    requires Sorted(table)
    ensures forall e :: Scan(table, code) == Some(e) <==> e in table && e.code == code
  {
    if table != [] {
      TailEntries(table);
      ScanFinds(table[1..], code);
      forall e | e in table && e.code == table[0].code ensures e == table[0] {
        FirstIsLeast(table, e);
        LessIrreflexive(e.code);
      }
    }
  }

  // On every string the registry answers as a scan of the table does.
  lemma LookupIsScan(registry: Registry, table: seq<Entry>, code: string)
    requires Indexable(table) && Indexes(registry, table)
    ensures Find(registry, code)
         == if !ValidCode(code) then Err(InvalidCurrencyCode)
            else match Scan(table, Upper(code))
                 case None => Err(UnknownCurrency)
                 case Some(e) => Ok(e)
  {
    ScanFinds(table, Upper(code));
    if Upper(code) in registry {
      assert registry[Upper(code)] in table;
      assert Scan(table, Upper(code)) == Some(registry[Upper(code)]);
    }
  }

  // Success returns the uppercase form of the input; lookup ignores letter case and
  // is stable on its own result.
  lemma LookupIsCanonical(registry: Registry, code: string, other: string)
    ensures Find(registry, code).Ok? ==>
              Find(registry, code).value.code == Upper(code)
              && Find(registry, Find(registry, code).value.code) == Find(registry, code)
    ensures Upper(other) == Upper(code) ==> Find(registry, other) == Find(registry, code)
  {
    if ValidCode(code) { UpperOfUpper(Upper(code)); }
    if Upper(other) == Upper(code) {
      assert ValidCode(other) <==> UpperCode(Upper(other));
    }
  }

  // Three ASCII letters, by their code points.
  predicate ThreeLetters(code: string) {
    |code| == 3 && forall i :: 0 <= i < 3 ==> 65 <= code[i] as int <= 90 || 97 <= code[i] as int <= 122
  }

  // Lookup in the table's own terms: the currency whose code spells the input in any
  // case, or the reason there is none.
  lemma LookupSpells(registry: Registry, table: seq<Entry>, code: string)
    requires Indexable(table) && Indexes(registry, table)
    ensures forall e :: Find(registry, code) == Ok(e) <==> e in table && SameSpelling(code, e.code)
    ensures Find(registry, code) == Err(InvalidCurrencyCode) <==> !ThreeLetters(code)
    ensures Find(registry, code) == Err(UnknownCurrency) <==>
              ThreeLetters(code) && forall e :: e in table ==> !SameSpelling(code, e.code)
  {
    assert ValidCode(code) <==> ThreeLetters(code);
    forall e | e in table
      ensures SameSpelling(code, e.code) <==> e.code == Upper(code)
      ensures SameSpelling(code, e.code) ==> ValidCode(code)
    {
      SpellingIsUpper(code, e.code);
      UpperOfUpper(e.code);
    }
    assert forall e :: e in table && e.code == Upper(code) <==> Upper(code) in registry && registry[Upper(code)] == e;
  }

  // Two inputs that spell the same code in any case get the same answer, and a found
  // code spells the input in capitals.
  lemma LookupIgnoresCase(registry: Registry, code: string, other: string)
    ensures SameSpelling(code, other) ==> Find(registry, code) == Find(registry, other)
    ensures Find(registry, code).Ok? ==>
              var found := Find(registry, code).value.code;
              SameSpelling(code, found) && forall c :: c in found ==> 65 <= c as int <= 90
  {
    SpellingIsUpper(code, other);
    LookupIsCanonical(registry, code, other);
    if Find(registry, code).Ok? {
      var found := Find(registry, code).value.code;
      UpperOfUpper(found);
      SpellingIsUpper(code, found);
    }
  }

  // A ratable currency is one that is found and marked ratable; the structured lookup
  // error carries the sentinel of the plain one.
  lemma RatableMeans(registry: Registry, code: string)
    ensures forall e :: FindRatable(registry, code) == Ok(e) <==> Find(registry, code) == Ok(e) && e.ratable
    ensures FindRatable(registry, code) == Err(CurrencyNotRatable) <==>
              Find(registry, code).Ok? && !Find(registry, code).value.ratable
    ensures forall x :: Find(registry, code) == Err(x) ==>
              FindRatable(registry, code) == Err(x)
              && Lookup(registry, code) == Err(Failure(Some(Code(x)), "Lookup", -1, "code", None))
    ensures forall e :: Lookup(registry, code) == Ok(e) <==> Find(registry, code) == Ok(e)
  {
  }
}
