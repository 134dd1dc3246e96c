/** The lookup-table evaluator of individual/taxcredits/tax_schedule.py.

    A tax table maps the lower bound of each bracket to the formula
    `base + (income - key) * rate`. `_tax_schedule(income, table)` finds the
    largest key strictly below the income (0 when there is none) and applies
    that key's formula; `_oracle` is the marginal accumulator of
    figure/tax_schedule.py, kept as the test oracle.

    The tables are derived from a (schedule, rates) pair by `DeriveTable`,
    which is what the unfinished `_compute_tax_schedule` is meant to return;
    `DerivedTableAgrees` proves that the lookup then computes exactly what
    the accumulator computes, and the two tables of the file are shown to be
    the derived tables of the federal and the Maryland schedules. */
module TaxTable {
  import opened Common
  import opened Sorting
  import opened FigureTaxSchedule

  /** One table entry: the bracket's lower bound, the tax owed at that bound,
      and the marginal rate above it. */
  datatype Bracket = Bracket(key: real, base: real, rate: real)

  /** A dictionary literal, entry by entry in the order written. */
  type Table = seq<Bracket>

  /** The entry's formula `base + (income - key) * rate`. */
  function Formula(b: Bracket, income: real): (tax: real) {
    b.base + (income - b.key) * b.rate
  }

  /** `taxtable2025`: the 2025 single-filer table. */
  const FedTable: Table := [
    Bracket(0.0, 0.0, 0.10),
    Bracket(11925.0, 1192.50, 0.12),
    Bracket(48475.0, 5578.50, 0.22),
    Bracket(103350.0, 17651.00, 0.24),
    Bracket(197300.0, 40199.00, 0.32),
    Bracket(250525.0, 57231.00, 0.35),
    Bracket(626350.0, 188769.75, 0.37)
  ]

  /** `mdtaxtable2025`: the Maryland table (Md. Code, Tax-General section 10-105). */
  const MdTable: Table := [
    Bracket(0.0, 0.0, 0.02),
    Bracket(1000.0, 20.0, 0.03),
    Bracket(2000.0, 50.0, 0.04),
    Bracket(3000.0, 90.0, 0.0475),
    Bracket(100000.0, 4697.50, 0.05),
    Bracket(125000.0, 5947.50, 0.0525),
    Bracket(150000.0, 7260.00, 0.0550),
    Bracket(250000.0, 12760.00, 0.0575)
  ]

  /** The Maryland rates and bracket upper bounds the table encodes. */
  const MdRates: seq<real> := [0.02, 0.03, 0.04, 0.0475, 0.05, 0.0525, 0.055, 0.0575]
  const MdSchedule: seq<real> := [1000.0, 2000.0, 3000.0, 100000.0, 125000.0, 150000.0, 250000.0]

  // ---------------------------------------------------------------------
  // The evaluator

  /** The bracket `_tax_schedule` selects: the running maximum, from 0, of
      the keys strictly below `income`. It is the least upper bound of 0 and
      those keys. */
  function SupremumKey(income: real, table: Table): (k: real)
    ensures 0.0 <= k
    ensures k == 0.0 || exists i :: 0 <= i < |table| && table[i].key == k && k < income
    ensures forall i :: 0 <= i < |table| && table[i].key < income ==> table[i].key <= k
    decreases |table|
  {
    if table == [] then 0.0
    else
      var front := table[..|table| - 1];
      var k0 := SupremumKey(income, front);
      var key := table[|table| - 1].key;
      assert forall i :: 0 <= i < |front| ==> front[i] == table[i];
      if income > key then Max(k0, key) else k0
  }

  /** Dictionary indexing `table[key]`: the entry a dictionary literal keeps
      for `key` is the last one written with it; `None` is a `KeyError`. */
  function Lookup(table: Table, key: real): (r: Option<Bracket>)
    ensures r.None? <==> forall i :: 0 <= i < |table| ==> table[i].key != key
    ensures r.Some? ==> r.value.key == key && r.value in table
    decreases |table|
  {
    if table == [] then None
    else if table[|table| - 1].key == key then Some(table[|table| - 1])
    else
      var front := table[..|table| - 1];
      assert forall i :: 0 <= i < |front| ==> front[i] == table[i];
      Lookup(front, key)
  }

  /** What `_tax_schedule(income, table)` returns or raises. */
  function TableTax(income: real, table: Table): (r: Result<real>)
    ensures r.Err? <==> forall i :: 0 <= i < |table| ==> table[i].key != SupremumKey(income, table)
    ensures r.Err? ==> r.error == MissingBracket
    ensures r.Ok? ==> exists i :: 0 <= i < |table| && table[i].key == SupremumKey(income, table)
                                  && r.value == Formula(table[i], income)
  {
    match Lookup(table, SupremumKey(income, table))
    case None => Err(MissingBracket)
    case Some(b) => Ok(Formula(b, income))
  }

  /** `_tax_schedule`: the supremum loop, then the lookup. */
  method TaxSchedule(income: real, table: Table) returns (r: Result<real>)
    ensures r == TableTax(income, table)
  {
    var bracket := 0.0;
    for j := 0 to |table|
      invariant bracket == SupremumKey(income, table[..j])
    {
      assert table[..j + 1][..j] == table[..j];
      var k := table[j].key;
      if income > k {
        bracket := Max(bracket, k);
      }
    }
    assert table[..|table|] == table;
    match Lookup(table, bracket)
    case None =>
      r := Err(MissingBracket);
    case Some(b) =>
      r := Ok(Formula(b, income));
  }

  /** `figureTax(income, taxtable)`: hands the table to `_tax_schedule`. */
  method FigureTax(income: real, table: Table) returns (r: Result<real>)
    ensures r == TableTax(income, table)
  {
    r := TaxSchedule(income, table);
  }

  /** `_oracle(income, schedule, rates)`: the same accumulator as
      figure/tax_schedule.py, statement for statement. */
  method Oracle(income: real, schedule: seq<real>, rates: seq<real>) returns (r: Result<real>)
    ensures r == MarginalTax(income, schedule, rates)
  {
    r := FigureTaxSchedule.FigureTax(income, schedule, rates);
  }

  // ---------------------------------------------------------------------
  // Lookup facts

  /** The entry at `i` is the one the lookup finds when no later entry has its key. */
  lemma {:induction false} LookupFindsLast(table: Table, i: nat, key: real)
    requires i < |table| && table[i].key == key
    requires forall m :: i < m < |table| ==> table[m].key != key
    ensures Lookup(table, key) == Some(table[i])
    decreases |table|
  {
    if i < |table| - 1 {
      var front := table[..|table| - 1];
      assert front[i] == table[i];
      LookupFindsLast(front, i, key);
    }
  }

  /** An income at or below zero selects the key-0 entry when all keys are
      non-negative: `_tax_schedule` performs no validation. */
  lemma SupremumAtOrBelowZero(income: real, table: Table)
    requires income <= 0.0
    requires forall i :: 0 <= i < |table| ==> 0.0 <= table[i].key
    ensures SupremumKey(income, table) == 0.0
  {
  }

  // ---------------------------------------------------------------------
  // The table a (schedule, rates) pair determines

  /** The rate above the largest bound: the last rate, and none at all when
      there are no bounds, where `figureTax` returns 0. */
  function TopRate(sched: seq<real>, rates: seq<real>): (rate: real)
    requires |sched| <= |rates|
  {
    if sched == [] then 0.0 else Last(rates)
  }

  /** The table `_compute_tax_schedule(schedule, rates)` is meant to build from
      ascending bounds: an entry at 0 and one at each bound, whose base is
      the tax on the full brackets below it and whose rate is the bracket's
      own (the last rate above the largest bound). */
  function DeriveTable(sched: seq<real>, rates: seq<real>): (t: Table)
    requires |sched| <= |rates|
    ensures |t| == |sched| + 1
  {
    seq(|sched| + 1, j requires 0 <= j <= |sched| =>
      Bracket(Lower(sched, j), Cum(Widths(sched), rates, j), RateOf(rates, TopRate(sched, rates), |sched|, j)))
  }

  /** Entry `j` of the derived table. */
  lemma DeriveTableAt(sched: seq<real>, rates: seq<real>, j: nat)
    requires |sched| <= |rates| && j <= |sched|
    ensures DeriveTable(sched, rates)[j].key == Lower(sched, j)
    ensures DeriveTable(sched, rates)[j].base == Cum(Widths(sched), rates, j)
    ensures DeriveTable(sched, rates)[j].rate == RateOf(rates, TopRate(sched, rates), |sched|, j)
  {
  }

  /** Each entry's base is the previous entry's formula at its key: the
      piecewise-linear tax is continuous at every bound. */
  predicate Continuous(t: Table) {
    forall k :: 1 <= k < |t| ==> t[k].base == Formula(t[k - 1], t[k].key)
  }

  lemma DeriveTableContinuous(sched: seq<real>, rates: seq<real>)
    requires |sched| <= |rates|
    ensures Continuous(DeriveTable(sched, rates))
  {
    var t := DeriveTable(sched, rates);
    forall k | 1 <= k < |t|
      ensures t[k].base == Formula(t[k - 1], t[k].key)
    {
      ContinuousAt(sched, rates, k);
    }
  }

  lemma ContinuousAt(sched: seq<real>, rates: seq<real>, k: nat)
    requires |sched| <= |rates| && 1 <= k <= |sched|
    ensures DeriveTable(sched, rates)[k].base
         == Formula(DeriveTable(sched, rates)[k - 1], DeriveTable(sched, rates)[k].key)
  {
    var t := DeriveTable(sched, rates);
    var ws := Widths(sched);
    DeriveTableAt(sched, rates, k);
    DeriveTableAt(sched, rates, k - 1);
    WidthsAt(sched, k - 1);
    assert t[k].key - t[k - 1].key == ws[k - 1];
    assert t[k - 1].rate == rates[k - 1];
    assert t[k].base == t[k - 1].base + ws[k - 1] * rates[k - 1];
  }

  /** Ascending bounds, none below zero, no more of them than rates. */
  predicate ValidBounds(sched: seq<real>, rates: seq<real>) {
    Sorted(sched) && |sched| <= |rates| && (sched != [] ==> 0.0 <= sched[0])
  }

  /** `income` lies in bracket `j`: above the bound below it, at most the bound above it. */
  predicate InBracket(income: real, sched: seq<real>, j: nat) {
    j <= |sched| && (0 < j ==> sched[j - 1] < income) && (j < |sched| ==> income <= sched[j])
  }

  /** The bracket `income` falls in, for ascending bounds: the number of
      bounds strictly below it. */
  function BracketOf(income: real, sched: seq<real>): (j: nat)
    requires Sorted(sched)
    ensures InBracket(income, sched, j)
    decreases |sched|
  {
    if sched == [] then 0
    else if sched[|sched| - 1] < income then |sched|
    else
      assert Sorted(sched[..|sched| - 1]);
      BracketOf(income, sched[..|sched| - 1])
  }

  /** Every key of the derived table is a lower bound, none below zero. */
  lemma DerivedKeys(sched: seq<real>, rates: seq<real>)
    requires ValidBounds(sched, rates)
    ensures forall m :: 0 <= m < |DeriveTable(sched, rates)| ==>
              DeriveTable(sched, rates)[m].key == Lower(sched, m) && 0.0 <= Lower(sched, m)
  {
    var t := DeriveTable(sched, rates);
    forall m | 0 <= m < |t|
      ensures t[m].key == Lower(sched, m) && 0.0 <= Lower(sched, m)
    {
      DeriveTableAt(sched, rates, m);
      if 0 < m {
        assert sched[0] <= sched[m - 1];
      }
    }
  }

  /** A lower bound below an income in bracket `j` is at most bracket `j`'s. */
  lemma LowerBelowIncome(income: real, sched: seq<real>, j: nat, m: nat)
    requires Sorted(sched) && (sched != [] ==> 0.0 <= sched[0]) && InBracket(income, sched, j)
    requires m <= |sched| && Lower(sched, m) < income
    ensures Lower(sched, m) <= Lower(sched, j)
  {
    if 0 < m <= j {
      assert sched[m - 1] <= sched[j - 1];
    } else if m == 0 < j {
      assert sched[0] <= sched[j - 1];
    }
  }

  /** In the derived table, the key selected for an income in bracket `j` is
      that bracket's lower bound. */
  lemma SupremumIsLower(income: real, sched: seq<real>, rates: seq<real>, j: nat)
    requires ValidBounds(sched, rates) && 0.0 <= income && InBracket(income, sched, j)
    ensures SupremumKey(income, DeriveTable(sched, rates)) == Lower(sched, j)
  {
    var t := DeriveTable(sched, rates);
    DerivedKeys(sched, rates);
    // every key below the income is at most the bracket's lower bound
    forall m | 0 <= m < |t| && t[m].key < income
      ensures t[m].key <= Lower(sched, j)
    {
      LowerBelowIncome(income, sched, j, m);
    }
    if 0 < j {
      assert t[j].key == sched[j - 1] < income;
    }
  }

  /** For a positive income in bracket `j`, the derived table's keys after
      entry `j` differ from entry `j`'s key: they are at least the income. */
  lemma LaterKeysDiffer(income: real, sched: seq<real>, rates: seq<real>, j: nat)
    requires ValidBounds(sched, rates) && 0.0 < income && InBracket(income, sched, j)
    ensures forall m :: j < m < |DeriveTable(sched, rates)| ==>
              DeriveTable(sched, rates)[m].key != DeriveTable(sched, rates)[j].key
  {
    var t := DeriveTable(sched, rates);
    forall m | j < m < |t|
      ensures t[m].key != t[j].key
    {
      DeriveTableAt(sched, rates, m);
      DeriveTableAt(sched, rates, j);
      assert sched[j] <= sched[m - 1];
    }
  }

  /** THE TABLE AND THE ACCUMULATOR AGREE: for ascending bounds, none below
      zero, and every income >= 0, looking the income up in the derived table
      gives what the marginal accumulator computes. */
  lemma DerivedTableAgrees(income: real, sched: seq<real>, rates: seq<real>)
    requires ValidBounds(sched, rates)
    requires 0.0 <= income
    ensures TableTax(income, DeriveTable(sched, rates)) == MarginalTax(income, sched, rates)
  {
    if sched == [] {
      EmptyScheduleAgrees(income, rates);
    } else if income == 0.0 {
      ZeroIncomeAgrees(sched, rates);
    } else {
      var j := BracketOf(income, sched);
      var excess, rate := income - Lower(sched, j), RateOf(rates, Last(rates), |sched|, j);
      TableTaxInBracket(income, sched, rates, j, excess, rate);
      MarginalTaxInBracket(income, sched, rates, j, excess, rate);
    }
  }

  /** For bounds in any order, none below zero, the table derived from the
      sorted bounds computes `figureTax`. */
  lemma SortedTableAgrees(income: real, schedule: seq<real>, rates: seq<real>)
    requires |schedule| <= |rates| && 0.0 <= income
    requires forall k :: 0 <= k < |schedule| ==> 0.0 <= schedule[k]
    ensures TableTax(income, DeriveTable(Sort(schedule), rates)) == MarginalTax(income, schedule, rates)
  {
    if schedule != [] {
      HeadNonnegative(Sort(schedule), schedule);
    }
    DerivedTableAgrees(income, Sort(schedule), rates);
    OrderIndependent(income, Sort(schedule), schedule, rates);
  }

  /** No bounds: the one entry taxes nothing, as `figureTax` returns 0. */
  lemma EmptyScheduleAgrees(income: real, rates: seq<real>)
    requires 0.0 <= income
    ensures TableTax(income, DeriveTable([], rates)) == MarginalTax(income, [], rates)
  {
    var t := DeriveTable([], rates);
    DeriveTableAt([], rates, 0);
    assert SupremumKey(income, t) == 0.0;
    LookupFindsLast(t, 0, 0.0);
  }

  /** A zero income selects an entry whose brackets below are all empty. */
  lemma ZeroIncomeAgrees(sched: seq<real>, rates: seq<real>)
    requires ValidBounds(sched, rates)
    ensures TableTax(0.0, DeriveTable(sched, rates)) == MarginalTax(0.0, sched, rates)
  {
    var t := DeriveTable(sched, rates);
    DerivedKeys(sched, rates);
    SupremumAtOrBelowZero(0.0, t);
    assert t[0].key == SupremumKey(0.0, t);
    var i :| 0 <= i < |t| && t[i].key == 0.0 && TableTax(0.0, t).value == Formula(t[i], 0.0);
    DeriveTableAt(sched, rates, i);
    ZeroBracketUntaxed(sched, rates, i);
    ZeroIncomeIsUntaxed(sched, rates);
  }

  /** The brackets below a bound of zero are all empty and collect nothing. */
  lemma ZeroBracketUntaxed(sched: seq<real>, rates: seq<real>, i: nat)
    requires ValidBounds(sched, rates) && i <= |sched| && Lower(sched, i) == 0.0
    ensures Cum(Widths(sched), rates, i) == 0.0
  {
    if 0 < i {
      WidthsPrefixSum(sched, i);
      WidthsNonnegative(sched);
      CumOfEmptyBrackets(Widths(sched), rates, i);
    }
  }

  lemma {:induction false} CumOfEmptyBrackets(ws: seq<real>, rs: seq<real>, i: nat)
    requires i <= |ws| <= |rs| && AllNonnegative(ws) && PrefixSum(ws, i) == 0.0
    ensures Cum(ws, rs, i) == 0.0
    decreases i
  {
    if 0 < i {
      PrefixSumNonnegative(ws, i - 1);
      CumOfEmptyBrackets(ws, rs, i - 1);
    }
  }

  /** In bracket `j` of non-empty bounds, a positive income is taxed by entry `j`'s formula. */
  lemma TableTaxInBracket(income: real, sched: seq<real>, rates: seq<real>, j: nat, excess: real, rate: real)
    requires ValidBounds(sched, rates) && sched != [] && 0.0 < income && InBracket(income, sched, j)
    requires excess == income - Lower(sched, j) && rate == RateOf(rates, Last(rates), |sched|, j)
    ensures TableTax(income, DeriveTable(sched, rates)) == Ok(Cum(Widths(sched), rates, j) + excess * rate)
  {
    var t := DeriveTable(sched, rates);
    SelectsEntry(income, sched, rates, j);
    DeriveTableAt(sched, rates, j);
    TableTaxOfEntry(income, t, t[j], excess, rate);
  }

  /** The tax is the formula of the entry the lookup finds; `excess` is the
      income above the entry's key and `rate` its rate. */
  lemma TableTaxOfEntry(income: real, table: Table, b: Bracket, excess: real, rate: real)
    requires Lookup(table, SupremumKey(income, table)) == Some(b)
    requires excess == income - b.key && rate == b.rate
    ensures TableTax(income, table) == Ok(b.base + excess * rate)
  {
    FormulaAt(b, income, excess, rate);
  }

  lemma FormulaAt(b: Bracket, income: real, excess: real, rate: real)
    requires excess == income - b.key && rate == b.rate
    ensures Formula(b, income) == b.base + excess * rate
  {
  }

  /** In bracket `j`, the supremum key of a positive income is found at entry `j` of the derived table. */
  lemma SelectsEntry(income: real, sched: seq<real>, rates: seq<real>, j: nat)
    requires ValidBounds(sched, rates) && 0.0 < income && InBracket(income, sched, j)
    ensures Lookup(DeriveTable(sched, rates), SupremumKey(income, DeriveTable(sched, rates)))
         == Some(DeriveTable(sched, rates)[j])
  {
    var t := DeriveTable(sched, rates);
    SupremumIsLower(income, sched, rates, j);
    DeriveTableAt(sched, rates, j);
    LaterKeysDiffer(income, sched, rates, j);
    LookupFindsLast(t, j, Lower(sched, j));
  }

  // ---------------------------------------------------------------------
  // The federal table

  lemma FedTableIsDerived()
    ensures FedTable == DeriveTable(Schedule2025, FedRates)
  {
    Schedule2025Cum();
    var d := DeriveTable(Schedule2025, FedRates);
    forall j | 0 <= j < 7 ensures d[j] == FedTable[j] {
      DeriveTableAt(Schedule2025, FedRates, j);
    }
  }

  /** `taxtable2025` computes what the accumulator computes on `schedule2025`
      and `fedRates`, for every income >= 0. */
  lemma FedTableAgrees(income: real)
    requires 0.0 <= income
    ensures TableTax(income, FedTable) == MarginalTax(income, Schedule2025, FedRates)
  {
    FedTableIsDerived();
    DerivedTableAgrees(income, Schedule2025, FedRates);
  }

  lemma FedTableContinuous()
    ensures Continuous(FedTable)
  {
    FedTableIsDerived();
    DeriveTableContinuous(Schedule2025, FedRates);
  }

  /** Below zero the table taxes at 10%: a negative income gives a negative
      tax where the accumulator raises. */
  lemma FedTableNoValidation(income: real)
    requires income <= 0.0
    ensures TableTax(income, FedTable) == Ok(income * 0.10)
    ensures income < 0.0 ==> MarginalTax(income, Schedule2025, FedRates) == Err(NegativeIncome)
  {
    SupremumAtOrBelowZero(income, FedTable);
    LookupFindsLast(FedTable, 0, 0.0);
  }

  /** An income exactly at a bound is taxed by the bracket below it. */
  lemma FedTableAtBound(i: nat)
    requires 1 <= i < |FedTable|
    ensures SupremumKey(FedTable[i].key, FedTable) == FedTable[i - 1].key
  {
    FedTableIsDerived();
    DeriveTableAt(Schedule2025, FedRates, i);
    DeriveTableAt(Schedule2025, FedRates, i - 1);
    SupremumIsLower(FedTable[i].key, Schedule2025, FedRates, i - 1);
  }

  /** The values of the `figureTax` docstring, on the default table. */
  lemma FedTableDocstringValues()
    ensures TableTax(11926.0, FedTable) == Ok(1192.62)
    ensures TableTax(147790.0, FedTable) == Ok(28316.60)
  {
    FedTableAgrees(11926.0);
    Docstring11926();
    FedTableAgrees(147790.0);
    Docstring147790();
  }

  // ---------------------------------------------------------------------
  // The Maryland table

  lemma MdScheduleCum()
    ensures Sorted(MdSchedule)
    ensures Cum(Widths(MdSchedule), MdRates, 1) == 20.0
    ensures Cum(Widths(MdSchedule), MdRates, 2) == 50.0
    ensures Cum(Widths(MdSchedule), MdRates, 3) == 90.0
    ensures Cum(Widths(MdSchedule), MdRates, 4) == 4697.50
    ensures Cum(Widths(MdSchedule), MdRates, 5) == 5947.50
    ensures Cum(Widths(MdSchedule), MdRates, 6) == 7260.00
    ensures Cum(Widths(MdSchedule), MdRates, 7) == 12760.00
  {
    var ws := Widths(MdSchedule);
    forall k | 0 <= k < 7 ensures ws[k] == [1000.0, 1000.0, 1000.0, 97000.0, 25000.0, 25000.0, 100000.0][k] {
      WidthsAt(MdSchedule, k);
    }
    assert Cum(ws, MdRates, 1) == 20.0;
    assert Cum(ws, MdRates, 2) == 50.0;
    assert Cum(ws, MdRates, 3) == 90.0;
    assert Cum(ws, MdRates, 4) == 4697.50;
    assert Cum(ws, MdRates, 5) == 5947.50;
    assert Cum(ws, MdRates, 6) == 7260.00;
  }

  lemma MdTableIsDerived()
    ensures MdTable == DeriveTable(MdSchedule, MdRates)
  {
    MdScheduleCum();
    var d := DeriveTable(MdSchedule, MdRates);
    forall j | 0 <= j < 8 ensures d[j] == MdTable[j] {
      DeriveTableAt(MdSchedule, MdRates, j);
    }
  }

  /** `mdtaxtable2025` computes what the accumulator computes on the Maryland
      bounds and rates, for every income >= 0. */
  lemma MdTableAgrees(income: real)
    requires 0.0 <= income
    ensures TableTax(income, MdTable) == MarginalTax(income, MdSchedule, MdRates)
  {
    MdTableIsDerived();
    MdScheduleCum();
    DerivedTableAgrees(income, MdSchedule, MdRates);
  }

  lemma MdTableContinuous()
    ensures Continuous(MdTable)
  {
    MdTableIsDerived();
    DeriveTableContinuous(MdSchedule, MdRates);
  }
}
