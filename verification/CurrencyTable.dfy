// The ISO 4217 table generator: from published rows and fund codes to the sorted,
// duplicate-free currency table.
module CurrencyTable {
  import opened Wrappers
  import opened Text

  // One row of List One, as parsed.
  datatype Row = Row(country: string, name: string, code: string, numeric: string, minorUnits: string)

  // One currency of the generated table.
  datatype Entry = Entry(
    code: string, numeric: string, name: string, minorUnits: int, ratable: bool, fund: bool)

  datatype RowFault =
    | UnexpectedCurrencyName | UnexpectedCurrencyData | BadCode | MissingName | BadNumeric | BadMinorUnits

  datatype GenError =
    | BadFundCode(index: nat)
    | DuplicateFund(index: nat)
    | RowRejected(index: nat, fault: RowFault)
    | InconsistentRow(index: nat)
    | NoCurrencies
    | FundAbsent(index: nat)

  const NO_CURRENCY_NAME := "No universal currency"

  /******* One row *******/

  // parseMinorUnits: the minor-unit exponent and whether the currency is ratable.
  function ParseMinorUnits(raw: string): Option<(int, bool)> {
    if raw == "N.A." then Some((0, false))
    else if raw == "0" then Some((0, true))
    else if raw == "2" then Some((2, true))
    else if raw == "3" then Some((3, true))
    else if raw == "4" then Some((4, true))
    else None
  }

  // makeEntry: the table entry of a row, or nothing for a row without a currency.
  function MakeEntry(row: Row, funds: set<string>): Result<Option<Entry>, RowFault> {
    if row.code == "" then
      if row.name != NO_CURRENCY_NAME then Err(UnexpectedCurrencyName)
      else if row.numeric != "" || row.minorUnits != "" then Err(UnexpectedCurrencyData)
      else Ok(None)
    else if !UpperCode(row.code) then Err(BadCode)
    else if row.name == "" then Err(MissingName)
    else if !NumericCode(row.numeric) then Err(BadNumeric)
    else
      match ParseMinorUnits(row.minorUnits)
      case None => Err(BadMinorUnits)
      case Some((minor, ratable)) =>
        Ok(Some(Entry(row.code, row.numeric, row.name, minor, ratable, row.code in funds)))
  }

  // The row names a currency and is well formed.
  predicate Publishes(row: Row, funds: set<string>) {
    MakeEntry(row, funds).Ok? && MakeEntry(row, funds).value.Some?
  }

  function EntryOf(row: Row, funds: set<string>): Entry
    requires Publishes(row, funds)
  {
    MakeEntry(row, funds).value.value
  }

  // The entries a list of rows publishes.
  ghost function Published(rows: seq<Row>, funds: set<string>): set<Entry> {
    set row | row in rows && Publishes(row, funds) :: EntryOf(row, funds)
  }

  /******* What a row says *******/

  ghost predicate Capitals(s: string) {
    |s| == 3 && forall i :: 0 <= i < 3 ==> 65 <= s[i] as int <= 90
  }

  ghost predicate Digits(s: string) {
    |s| == 3 && forall i :: 0 <= i < 3 ==> 48 <= s[i] as int <= 57
  }

  // The published minor units and what they say; currencies without any count as zero
  // and are not ratable.
  ghost predicate UnitsSay(raw: string, minorUnits: int, ratable: bool) {
    || (raw == "N.A." && minorUnits == 0 && !ratable)
    || (raw == "0" && minorUnits == 0 && ratable)
    || (raw == "2" && minorUnits == 2 && ratable)
    || (raw == "3" && minorUnits == 3 && ratable)
    || (raw == "4" && minorUnits == 4 && ratable)
  }

  // Why a row is rejected; no two of these hold of one row.
  ghost predicate Faulty(row: Row, fault: RowFault) {
    match fault
    case UnexpectedCurrencyName => row.code == "" && row.name != "No universal currency"
    case UnexpectedCurrencyData =>
      row.code == "" && row.name == "No universal currency" && (row.numeric != "" || row.minorUnits != "")
    case BadCode => row.code != "" && !Capitals(row.code)
    case MissingName => Capitals(row.code) && row.name == ""
    case BadNumeric => Capitals(row.code) && row.name != "" && !Digits(row.numeric)
    case BadMinorUnits =>
      Capitals(row.code) && row.name != "" && Digits(row.numeric) && row.minorUnits !in {"N.A.", "0", "2", "3", "4"}
  }

  // The entry says what the row says, and is a fund exactly when listed.
  ghost predicate Describes(e: Entry, row: Row, funds: set<string>) {
    && e.code == row.code && e.numeric == row.numeric && e.name == row.name
    && UnitsSay(row.minorUnits, e.minorUnits, e.ratable)
    && (e.fund <==> row.code in funds)
  }

  // A row is rejected exactly for its one fault; a sound row without a code is skipped,
  // and any other publishes the one entry that describes it.
  lemma RowDecides(row: Row, funds: set<string>)
    ensures forall fault :: MakeEntry(row, funds) == Err(fault) <==> Faulty(row, fault)
    ensures MakeEntry(row, funds) == Ok(None) ==> row.code == ""
    ensures forall e :: MakeEntry(row, funds) == Ok(Some(e)) <==>
              row.code != "" && Describes(e, row, funds) && forall fault :: !Faulty(row, fault)
  {
    assert UpperCode(row.code) <==> Capitals(row.code);
    assert NumericCode(row.numeric) <==> Digits(row.numeric);
    if MakeEntry(row, funds).Ok? {
      assert forall fault :: !Faulty(row, fault);
    } else {
      assert Faulty(row, MakeEntry(row, funds).error);
    }
  }

  /******* What a table must be *******/

  ghost predicate FundsOk(funds: seq<string>) {
    && (forall i :: 0 <= i < |funds| ==> UpperCode(funds[i]))
    && Distinct(funds)
  }

  ghost predicate Distinct(funds: seq<string>) {
    forall i, j :: 0 <= i < j < |funds| ==> funds[i] != funds[j]
  }

  function FundSet(funds: seq<string>): set<string> {
    set f | f in funds
  }

  ghost predicate WellFormed(rows: seq<Row>, funds: set<string>) {
    forall row :: row in rows ==> MakeEntry(row, funds).Ok?
  }

  // No code has two entries.
  ghost predicate Unambiguous(entries: set<Entry>) {
    forall e, f :: e in entries && f in entries && e.code == f.code ==> e == f
  }

  // Every row is well formed and rows of one code publish one entry.
  ghost predicate RowsOk(rows: seq<Row>, funds: set<string>) {
    WellFormed(rows, funds) && Unambiguous(Published(rows, funds))
  }

  ghost predicate HasCode(entries: set<Entry>, code: string) {
    exists e :: e in entries && e.code == code
  }

  // The inputs buildTable accepts.
  ghost predicate TableOk(rows: seq<Row>, funds: seq<string>) {
    var entries := Published(rows, FundSet(funds));
    && FundsOk(funds)
    && RowsOk(rows, FundSet(funds))
    && entries != {}
    && (forall f :: f in funds ==> HasCode(entries, f))
  }

  ghost predicate Sorted(t: seq<Entry>) {
    forall i, j :: 0 <= i < j < |t| ==> Less(t[i].code, t[j].code)
  }

  // `t` is strictly sorted and holds exactly the entries the rows publish.
  ghost predicate IsTable(rows: seq<Row>, funds: set<string>, t: seq<Entry>) {
    && Sorted(t)
    && (forall e :: e in t <==> e in Published(rows, funds))
  }

  /******* The generator *******/

  method BuildFundSet(funds: seq<string>) returns (r: Result<set<string>, GenError>)
    ensures r.Ok? <==> FundsOk(funds)
    ensures r.Ok? ==> r.value == FundSet(funds)
    ensures r.Err? ==>
      exists i :: 0 <= i < |funds| && FundsOk(funds[..i]) && !FundsOk(funds[..i + 1])
        && r.error == if UpperCode(funds[i]) then DuplicateFund(i) else BadFundCode(i)
  {
    var s: set<string> := {};
    for i := 0 to |funds|
      invariant FundsOk(funds[..i]) && s == FundSet(funds[..i])
    {
      var ok := CheckThreeOf(funds[i], 'A', 'Z');
      assert funds[..i + 1][i] == funds[i];
      if !ok {
        return Err(BadFundCode(i));
      }
      if funds[i] in s {
        var k :| 0 <= k < i && funds[..i][k] == funds[i];
        assert funds[..i + 1][k] == funds[i];
        return Err(DuplicateFund(i));
      }
      s := s + {funds[i]};
    }
    assert funds[..|funds|] == funds;
    return Ok(s);
  }

  // `seen` holds exactly these entries, by code.
  ghost predicate Collected(entries: set<Entry>, seen: map<string, Entry>) {
    && (forall e :: e in entries ==> e.code in seen && seen[e.code] == e)
    && (forall code :: code in seen ==> seen[code].code == code && seen[code] in entries)
  }

  // Publishing one more row adds its entry, if it has one.
  lemma PublishedSnoc(rows: seq<Row>, row: Row, funds: set<string>)
    ensures Published(rows + [row], funds)
         == Published(rows, funds) + (if Publishes(row, funds) then {EntryOf(row, funds)} else {})
    ensures WellFormed(rows + [row], funds) <==> WellFormed(rows, funds) && MakeEntry(row, funds).Ok?
  {
    assert row in rows + [row];
    forall e | e in Published(rows, funds)
      ensures e in Published(rows + [row], funds)
    {
      var r :| r in rows && Publishes(r, funds) && EntryOf(r, funds) == e;
      assert r in rows + [row];
    }
    forall r | r in rows ensures r in rows + [row] { }
  }

  // The error row `i` is rejected with.
  function RowError(row: Row, funds: set<string>, i: nat): GenError {
    var made := MakeEntry(row, funds);
    if made.Err? then RowRejected(i, made.error) else InconsistentRow(i)
  }

  method CollectEntries(rows: seq<Row>, funds: set<string>) returns (r: Result<map<string, Entry>, GenError>)
    ensures r.Ok? <==> RowsOk(rows, funds)
    ensures r.Ok? ==> Collected(Published(rows, funds), r.value)
    ensures r.Err? ==>
      exists i :: 0 <= i < |rows| && RowsOk(rows[..i], funds) && !RowsOk(rows[..i + 1], funds)
        && r.error == RowError(rows[i], funds, i)
  {
    var seen: map<string, Entry> := map[];
    for i := 0 to |rows|
      invariant WellFormed(rows[..i], funds) && Collected(Published(rows[..i], funds), seen)
    {
      var row := rows[i];
      assert rows[..i + 1] == rows[..i] + [row];
      PublishedSnoc(rows[..i], row, funds);
      var got := MakeEntry(row, funds);
      if got.Err? {
        RejectedPrefix(rows, funds, i + 1);
        return Err(RowRejected(i, got.error));
      }
      if got.value.Some? {
        var e := got.value.value;
        if e.code in seen && seen[e.code] != e {
          RejectedPrefix(rows, funds, i + 1);
          return Err(InconsistentRow(i));
        }
        if e.code !in seen {
          seen := seen[e.code := e];
        }
      }
    }
    assert rows[..|rows|] == rows;
    return Ok(seen);
  }

  lemma RejectedPrefix(rows: seq<Row>, funds: set<string>, n: nat)
    requires n <= |rows| && !RowsOk(rows[..n], funds)
    ensures !RowsOk(rows, funds)
  {
    forall row | row in rows[..n] ensures row in rows { }
    assert Published(rows[..n], funds) <= Published(rows, funds);
  }

  function InsertByCode(e: Entry, t: seq<Entry>): (r: seq<Entry>)
    requires Sorted(t) && forall x :: x in t ==> x.code != e.code
    ensures Sorted(r)
    ensures forall x :: x in r <==> x == e || x in t
  {
    if t == [] then [e]
    else if Less(e.code, t[0].code) then InsertFirst(e, t); [e] + t
    else
      LessTotal(e.code, t[0].code);
      var rest := InsertByCode(e, t[1..]);
      assert forall j :: 0 <= j < |rest| ==> rest[j] in rest;
      [t[0]] + rest
  }

  lemma InsertFirst(e: Entry, t: seq<Entry>)
    requires Sorted(t) && t != [] && Less(e.code, t[0].code)
    ensures Sorted([e] + t)
  {
    forall j | 0 < j < |t|
      ensures Less(e.code, t[j].code)
    {
      LessTransitive(e.code, t[0].code, t[j].code);
    }
  }

  // sortedEntries: collect the map in whatever order it iterates, then sort by code.
  method SortedEntries(seen: map<string, Entry>) returns (t: seq<Entry>)
    requires forall code :: code in seen ==> seen[code].code == code
    ensures Sorted(t)
    ensures forall e :: e in t <==> e.code in seen && seen[e.code] == e
  {
    t := [];
    var left := seen.Keys;
    while left != {}
      invariant left <= seen.Keys && Sorted(t)
      invariant forall e :: e in t <==> e.code in seen.Keys - left && seen[e.code] == e
      decreases left
    {
      var code :| code in left;
      t := InsertByCode(seen[code], t);
      left := left - {code};
    }
  }

  method CheckFundsPresent(funds: seq<string>, seen: map<string, Entry>) returns (absent: Option<GenError>)
    ensures absent.None? <==> forall f :: f in funds ==> f in seen
    ensures absent.Some? ==>
      exists i :: 0 <= i < |funds| && absent.value == FundAbsent(i) && funds[i] !in seen
        && forall j :: 0 <= j < i ==> funds[j] in seen
  {
    for i := 0 to |funds|
      invariant forall j :: 0 <= j < i ==> funds[j] in seen
    {
      if funds[i] !in seen {
        return Some(FundAbsent(i));
      }
    }
    return None;
  }

  // The error names the first check that fails and where: funds, rows, emptiness,
  // absent funds.
  ghost predicate Explains(error: GenError, rows: seq<Row>, funds: seq<string>) {
    var listed := FundSet(funds);
    match error
    case BadFundCode(i) => i < |funds| && FundsOk(funds[..i]) && !Capitals(funds[i])
    case DuplicateFund(i) => i < |funds| && FundsOk(funds[..i]) && Capitals(funds[i]) && funds[i] in funds[..i]
    case RowRejected(i, fault) =>
      FundsOk(funds) && i < |rows| && RowsOk(rows[..i], listed) && Faulty(rows[i], fault)
    case InconsistentRow(i) =>
      && FundsOk(funds) && i < |rows| && RowsOk(rows[..i], listed) && rows[i].code != ""
      && exists e :: e in Published(rows[..i], listed) && e.code == rows[i].code && !Describes(e, rows[i], listed)
    case NoCurrencies => FundsOk(funds) && RowsOk(rows, listed) && Published(rows, listed) == {}
    case FundAbsent(i) =>
      && FundsOk(funds) && RowsOk(rows, listed) && Published(rows, listed) != {}
      && i < |funds| && !HasCode(Published(rows, listed), funds[i])
      && forall j :: 0 <= j < i ==> HasCode(Published(rows, listed), funds[j])
  }

  lemma FundErrorExplains(funds: seq<string>, i: nat, rows: seq<Row>)
    requires i < |funds| && FundsOk(funds[..i]) && !FundsOk(funds[..i + 1])
    ensures Explains(if UpperCode(funds[i]) then DuplicateFund(i) else BadFundCode(i), rows, funds)
  {
    assert UpperCode(funds[i]) <==> Capitals(funds[i]);
    assert funds[..i + 1] == funds[..i] + [funds[i]];
    if UpperCode(funds[i]) && funds[i] !in funds[..i] {
      FundsSnoc(funds[..i], funds[i]);
    }
  }

  lemma FundsSnoc(funds: seq<string>, f: string)
    requires FundsOk(funds) && UpperCode(f) && f !in funds
    ensures FundsOk(funds + [f])
  {
    assert forall j :: 0 <= j < |funds| ==> funds[j] in funds;
  }

  lemma RowErrorExplains(rows: seq<Row>, funds: seq<string>, i: nat)
    requires FundsOk(funds) && i < |rows|
    requires RowsOk(rows[..i], FundSet(funds)) && !RowsOk(rows[..i + 1], FundSet(funds))
    ensures Explains(RowError(rows[i], FundSet(funds), i), rows, funds)
  {
    var listed, row := FundSet(funds), rows[i];
    assert rows[..i + 1] == rows[..i] + [row];
    PublishedSnoc(rows[..i], row, listed);
    RowDecides(row, listed);
    if MakeEntry(row, listed).Ok? {
      var published := Published(rows[..i + 1], listed);
      var e, f :| e in published && f in published && e.code == f.code && e != f;
      var old' := if e == EntryOf(row, listed) then f else e;
      assert old' in Published(rows[..i], listed) && old' != EntryOf(row, listed);
      assert MakeEntry(row, listed) != Ok(Some(old'));
    }
  }

  method BuildTable(rows: seq<Row>, funds: seq<string>) returns (r: Result<seq<Entry>, GenError>)
    ensures r.Ok? <==> TableOk(rows, funds)
    ensures r.Ok? ==> IsTable(rows, FundSet(funds), r.value)
    ensures r.Err? ==> Explains(r.error, rows, funds)
  {
    var listed := BuildFundSet(funds);
    if listed.Err? {
      ghost var i :| 0 <= i < |funds| && FundsOk(funds[..i]) && !FundsOk(funds[..i + 1])
                     && listed.error == if UpperCode(funds[i]) then DuplicateFund(i) else BadFundCode(i);
      FundErrorExplains(funds, i, rows);
      return Err(listed.error);
    }
    var collected := CollectEntries(rows, listed.value);
    if collected.Err? {
      ghost var i :| 0 <= i < |rows| && RowsOk(rows[..i], listed.value) && !RowsOk(rows[..i + 1], listed.value)
                     && collected.error == RowError(rows[i], listed.value, i);
      RowErrorExplains(rows, funds, i);
      return Err(collected.error);
    }
    CodesSeen(Published(rows, listed.value), collected.value);
    if |collected.value| == 0 {
      return Err(NoCurrencies);
    }
    var absent := CheckFundsPresent(funds, collected.value);
    if absent.Some? {
      return Err(absent.value);
    }
    var t := SortedEntries(collected.value);
    return Ok(t);
  }

  lemma CodesSeen(entries: set<Entry>, seen: map<string, Entry>)
    requires Collected(entries, seen)
    ensures forall code :: HasCode(entries, code) <==> code in seen
    ensures |seen| == 0 <==> entries == {}
    ensures forall e :: e in entries <==> e.code in seen && seen[e.code] == e
  {
    if entries == {} {
      assert seen.Keys == {};
    }
  }

  /******* What the table says *******/

  // Two strictly sorted tables with the same entries are the same table.
  lemma {:induction false} SortedUnique(s: seq<Entry>, t: seq<Entry>)
    requires Sorted(s) && Sorted(t)
    requires forall e :: e in s <==> e in t
    ensures s == t
  {
    assert |s| > 0 ==> s[0] in t;
    assert |t| > 0 ==> t[0] in s;
    if s != [] {
      FirstIsLeast(s, t[0]);
      FirstIsLeast(t, s[0]);
      if s[0] != t[0] { LessTransitive(s[0].code, t[0].code, s[0].code); LessIrreflexive(s[0].code); }
      TailEntries(s);
      TailEntries(t);
      SortedUnique(s[1..], t[1..]);
      assert s == [s[0]] + s[1..] && t == [t[0]] + t[1..];
    }
  }

  lemma FirstIsLeast(s: seq<Entry>, e: Entry)
    requires Sorted(s) && e in s
    ensures e == s[0] || Less(s[0].code, e.code)
  {
  }

  lemma TailEntries(s: seq<Entry>)
    requires Sorted(s) && s != []
    ensures forall e :: e in s[1..] <==> e in s && e != s[0]
  {
    LessIrreflexive(s[0].code);
    forall e | e in s && e != s[0]
      ensures e in s[1..]
    {
      var i :| 0 <= i < |s| && s[i] == e;
      assert s[1..][i - 1] == e;
    }
  }

  lemma {:induction false} DistinctByCount(funds: seq<string>)
    ensures Distinct(funds) <==> forall f :: multiset(funds)[f] <= 1
  {
    if funds != [] {
      var last := funds[|funds| - 1];
      var front := funds[..|funds| - 1];
      assert funds == front + [last];
      DistinctByCount(front);
      assert Distinct(funds) <==> Distinct(front) && last !in front by {
        if Distinct(front) && last !in front {
          assert forall i :: 0 <= i < |front| ==> front[i] in front;
        }
        if last in front {
          var i :| 0 <= i < |front| && front[i] == last;
          assert funds[i] == funds[|funds| - 1];
        }
      }
      assert last in front <==> last in multiset(front);
      assert multiset(funds)[last] == multiset(front)[last] + 1;
      assert forall f :: multiset(front)[f] <= multiset(funds)[f];
    }
  }

  lemma FundsOkByCount(funds: seq<string>, funds': seq<string>)
    requires multiset(funds) == multiset(funds')
    ensures FundsOk(funds) <==> FundsOk(funds')
    ensures forall f :: f in funds <==> f in funds'
  {
    assert forall f :: f in funds <==> f in multiset(funds);
    assert forall f :: f in funds' <==> f in multiset(funds');
    DistinctByCount(funds);
    DistinctByCount(funds');
    assert (forall i :: 0 <= i < |funds| ==> UpperCode(funds[i])) <==> forall f :: f in funds ==> UpperCode(f);
    assert (forall i :: 0 <= i < |funds'| ==> UpperCode(funds'[i])) <==> forall f :: f in funds' ==> UpperCode(f);
  }

  // The verdict and the table depend on which rows and fund codes there are, not on
  // the order of either, on repeated rows, or on any iteration order of the maps.
  lemma Canonical(
    rows: seq<Row>, rows': seq<Row>, funds: seq<string>, funds': seq<string>, t: seq<Entry>, t': seq<Entry>)
    requires forall row :: row in rows <==> row in rows'
    requires multiset(funds) == multiset(funds')
    ensures TableOk(rows, funds) <==> TableOk(rows', funds')
    ensures IsTable(rows, FundSet(funds), t) && IsTable(rows', FundSet(funds'), t') ==> t == t'
  {
    FundsOkByCount(funds, funds');
    assert FundSet(funds) == FundSet(funds');
    assert Published(rows, FundSet(funds)) == Published(rows', FundSet(funds'));
    assert WellFormed(rows, FundSet(funds)) <==> WellFormed(rows', FundSet(funds'));
    if IsTable(rows, FundSet(funds), t) && IsTable(rows', FundSet(funds'), t') {
      SortedUnique(t, t');
    }
  }

  // Every row with a code has its entry in the table, with the row's own data and
  // the fund flag of its code; every entry comes from a row.
  lemma TableAgreesWithRows(rows: seq<Row>, funds: set<string>, t: seq<Entry>)
    requires WellFormed(rows, funds) && IsTable(rows, funds, t)
    ensures forall row :: row in rows && row.code != "" ==>
              exists e :: e in t && Describes(e, row, funds)
    ensures forall e :: e in t ==>
              (exists row :: row in rows && row.code != "" && Describes(e, row, funds)) && Capitals(e.code)
    ensures forall e :: e in t ==> e.minorUnits in {0, 2, 3, 4} && (!e.ratable ==> e.minorUnits == 0)
  {
    forall row | row in rows && row.code != ""
      ensures exists e :: e in t && Describes(e, row, funds)
    {
      assert EntryOf(row, funds) in Published(rows, funds);
      RowDecides(row, funds);
      assert Describes(EntryOf(row, funds), row, funds);
    }
    forall e | e in t
      ensures (exists row :: row in rows && row.code != "" && Describes(e, row, funds)) && Capitals(e.code)
      ensures e.minorUnits in {0, 2, 3, 4} && (!e.ratable ==> e.minorUnits == 0)
    {
      assert e in Published(rows, funds);
      var row :| row in rows && Publishes(row, funds) && EntryOf(row, funds) == e;
      RowDecides(row, funds);
    }
  }
}
