/** The marginal accumulator of figure/tax_schedule.py: `figureTax(income,
    schedule, rates)` sorts the bracket upper bounds, turns them into bracket
    widths, taxes each slice of income at its bracket's rate and taxes what is
    left over at the last rate.

    `Graduated` is the specification of the loop, `MarginalTax` the
    specification of the whole function (errors included), and the method
    `FigureTax` is the loop itself, proved equal to `MarginalTax`. */
module FigureTaxSchedule {
  import opened Common
  import opened Sorting

  /** Upper bounds of the 2025 single-filer brackets (section 3.01 of Rev. Proc. 2024-40). */
  const Schedule2025: seq<real> := [11925.0, 48475.0, 103350.0, 197300.0, 250525.0, 626350.0]

  /** The seven marginal rates of 26 U.S.C. section 1(j). */
  const FedRates: seq<real> := [0.10, 0.12, 0.22, 0.24, 0.32, 0.35, 0.37]

  /** Bracket widths: the first bound, then the differences of consecutive
      bounds (`WidthsAt` states the element-wise form). */
  function Widths(sched: seq<real>): (ws: seq<real>)
    ensures |ws| == |sched|
  {
    WidthsFrom(0.0, sched)
  }

  /** Widths of the brackets bounded by `sched` when the previous bound is `prev`. */
  function WidthsFrom(prev: real, sched: seq<real>): (ws: seq<real>)
    ensures |ws| == |sched|
    decreases |sched|
  {
    if sched == [] then [] else [sched[0] - prev] + WidthsFrom(sched[0], sched[1..])
  }

  /** The width list is `[sched[0]] + [sched[i] - sched[i-1] for i in 1..]`. */
  lemma WidthsAt(sched: seq<real>, i: nat)
    requires i < |sched|
    ensures Widths(sched)[i] == if i == 0 then sched[0] else sched[i] - sched[i - 1]
  {
    WidthsFromAt(0.0, sched, i);
  }

  lemma {:induction false} WidthsFromAt(prev: real, sched: seq<real>, i: nat)
    requires i < |sched|
    ensures WidthsFrom(prev, sched)[i] == if i == 0 then sched[0] - prev else sched[i] - sched[i - 1]
    decreases i
  {
    if i > 0 {
      WidthsFromAt(sched[0], sched[1..], i - 1);
    }
  }

  /** The part of the remaining income that falls in a bracket of width `w`:
      the remaining income clamped to [0, w]. */
  function Slice(remaining: real, w: real): (taxed: real)
    ensures 0.0 <= taxed
    ensures 0.0 <= w ==> taxed <= w
    ensures 0.0 <= remaining ==> taxed <= remaining
    ensures 0.0 <= remaining <= w ==> taxed == remaining
  {
    Max(Min(remaining, w), 0.0)
  }

  /** Tax on `remaining` when the brackets still ahead have widths `ws` and
      rates `rs`, and whatever is left after them is taxed at `top`. */
  function Graduated(remaining: real, ws: seq<real>, rs: seq<real>, top: real): (tax: real)
    requires |ws| <= |rs|
    decreases |ws|
  {
    if ws == [] then remaining * top
    else
      var taxed := Slice(remaining, ws[0]);
      taxed * rs[0] + Graduated(remaining - taxed, ws[1..], rs[1..], top)
  }

  /** Income left over after the brackets of widths `ws` have taken their slices. */
  function Leftover(remaining: real, ws: seq<real>): (left: real)
    decreases |ws|
  {
    if ws == [] then remaining else Leftover(remaining - Slice(remaining, ws[0]), ws[1..])
  }

  function Last(rates: seq<real>): (r: real)
    requires rates != []
  {
    rates[|rates| - 1]
  }

  /** What `figureTax(income, schedule, rates)` returns or raises. */
  function MarginalTax(income: real, schedule: seq<real>, rates: seq<real>): (r: Result<real>)
    ensures r == Err(NegativeIncome) <==> income < 0.0
    ensures r == Err(TooManyBrackets) <==> 0.0 <= income && |schedule| > |rates|
    ensures r.Ok? <==> 0.0 <= income && |schedule| <= |rates|
    ensures 0.0 <= income && schedule == [] ==> r == Ok(0.0)
  {
    if income < 0.0 then Err(NegativeIncome)
    else if |schedule| > |rates| then Err(TooManyBrackets)
    else if schedule == [] then Ok(0.0)
    else Ok(Graduated(income, Widths(Sort(schedule)), rates, Last(rates)))
  }

  /** One turn of the accumulator loop keeps its invariant. */
  lemma StepAt(income: real, ws: seq<real>, rs: seq<real>, top: real, i: nat,
               tax: real, remaining: real, taxed: real, tax': real, remaining': real)
    requires i < |ws| <= |rs|
    requires tax + Graduated(remaining, ws[i..], rs[i..], top) == Graduated(income, ws, rs, top)
    requires Leftover(remaining, ws[i..]) == Leftover(income, ws)
    requires taxed == Slice(remaining, ws[i])
    requires tax' == tax + taxed * rs[i] && remaining' == remaining - taxed
    ensures tax' + Graduated(remaining', ws[i + 1..], rs[i + 1..], top) == Graduated(income, ws, rs, top)
    ensures Leftover(remaining', ws[i + 1..]) == Leftover(income, ws)
  {
    assert ws[i..][1..] == ws[i + 1..];
    assert rs[i..][1..] == rs[i + 1..];
  }

  /** After the last bracket only the top rate remains. */
  lemma AtEnd(income: real, ws: seq<real>, rs: seq<real>, top: real, tax: real, remaining: real)
    requires |ws| <= |rs|
    requires tax + Graduated(remaining, ws[|ws|..], rs[|ws|..], top) == Graduated(income, ws, rs, top)
    requires Leftover(remaining, ws[|ws|..]) == Leftover(income, ws)
    ensures tax + remaining * top == Graduated(income, ws, rs, top)
    ensures remaining == Leftover(income, ws)
  {
    assert ws[|ws|..] == [];
  }

  /** `figureTax`: validation, the sorted copy, the widths, then the
      accumulator loop and the leftover taxed at the last rate. */
  method FigureTax(income: real, schedule: seq<real>, rates: seq<real>) returns (r: Result<real>)
    ensures r == MarginalTax(income, schedule, rates)
  {
    if income < 0.0 {
      return Err(NegativeIncome);
    }
    if |schedule| > |rates| {
      return Err(TooManyBrackets);
    }
    if schedule == [] {
      return Ok(0.0);
    }
    var sched := Sort(schedule);
    var brackets := Widths(sched);
    var top := rates[|rates| - 1];
    var tax, remaining := Accumulate(income, brackets, rates, top);
    r := Ok(tax + remaining * top);
  }

  /** The loop of `figureTax` over `zip(brackets, rates)`: each bracket taxes
      its slice of the remaining income, which shrinks by that slice. What it
      leaves is the income above the last bound. */
  method Accumulate(income: real, brackets: seq<real>, rates: seq<real>, top: real)
    returns (tax: real, remaining: real)
    requires 0.0 <= income && |brackets| <= |rates|
    ensures 0.0 <= remaining == Leftover(income, brackets)
    ensures tax + remaining * top == Graduated(income, brackets, rates, top)
  {
    tax, remaining := 0.0, income;
    assert brackets[0..] == brackets && rates[0..] == rates;
    for i := 0 to |brackets|
      invariant tax + Graduated(remaining, brackets[i..], rates[i..], top) == Graduated(income, brackets, rates, top)
      invariant Leftover(remaining, brackets[i..]) == Leftover(income, brackets)
    {
      ghost var tax0, remaining0 := tax, remaining;
      var taxedIncome := Slice(remaining, brackets[i]);
      tax := tax + taxedIncome * rates[i];
      remaining := remaining - taxedIncome;
      StepAt(income, brackets, rates, top, i, tax0, remaining0, taxedIncome, tax, remaining);
    }
    AtEnd(income, brackets, rates, top, tax, remaining);
    LeftoverNonnegative(income, brackets);
  }

  /** Remaining income never goes negative. */
  lemma {:induction false} LeftoverNonnegative(remaining: real, ws: seq<real>)
    requires 0.0 <= remaining
    ensures 0.0 <= Leftover(remaining, ws)
    decreases |ws|
  {
    if ws != [] {
      assert Slice(remaining, ws[0]) <= remaining;
      LeftoverNonnegative(remaining - Slice(remaining, ws[0]), ws[1..]);
    }
  }

  // ---------------------------------------------------------------------
  // Properties of the specification

  /** Sum of the first `j` widths. */
  function PrefixSum(ws: seq<real>, j: nat): (sum: real)
    requires j <= |ws|
  {
    if j == 0 then 0.0 else PrefixSum(ws, j - 1) + ws[j - 1]
  }

  /** Tax owed on the first `j` brackets when each is filled completely. */
  function Cum(ws: seq<real>, rs: seq<real>, j: nat): (tax: real)
    requires j <= |ws| <= |rs|
  {
    if j == 0 then 0.0 else Cum(ws, rs, j - 1) + ws[j - 1] * rs[j - 1]
  }

  /** Rate of bracket `j` of `n`: its own rate, or `top` for the open bracket. */
  function RateOf(rs: seq<real>, top: real, n: nat, j: nat): (rate: real)
    requires n <= |rs| && j <= n
  {
    if j < n then rs[j] else top
  }

  predicate AllNonnegative(ws: seq<real>) {
    forall k :: 0 <= k < |ws| ==> 0.0 <= ws[k]
  }

  lemma {:induction false} PrefixSumShift(ws: seq<real>, j: nat)
    requires j < |ws|
    ensures PrefixSum(ws, j + 1) == ws[0] + PrefixSum(ws[1..], j)
    decreases j
  {
    if j > 0 {
      PrefixSumShift(ws, j - 1);
      assert ws[1..][j - 1] == ws[j];
    }
  }

  lemma {:induction false} CumShift(ws: seq<real>, rs: seq<real>, j: nat)
    requires j < |ws| <= |rs|
    ensures Cum(ws, rs, j + 1) == ws[0] * rs[0] + Cum(ws[1..], rs[1..], j)
    decreases j
  {
    if j > 0 {
      CumShift(ws, rs, j - 1);
      assert ws[1..][j - 1] == ws[j] && rs[1..][j - 1] == rs[j];
    }
  }

  lemma {:induction false} PrefixSumNonnegative(ws: seq<real>, j: nat)
    requires j <= |ws| && AllNonnegative(ws)
    ensures 0.0 <= PrefixSum(ws, j)
    decreases j
  {
    if j > 0 {
      PrefixSumNonnegative(ws, j - 1);
    }
  }

  /** The widths add up to the bounds: the first `j` widths sum to the `j`-th bound. */
  lemma {:induction false} WidthsPrefixSum(sched: seq<real>, j: nat)
    requires 1 <= j <= |sched|
    ensures PrefixSum(Widths(sched), j) == sched[j - 1]
    decreases j
  {
    WidthsAt(sched, j - 1);
    if j > 1 {
      WidthsPrefixSum(sched, j - 1);
    }
  }

  /** Ascending bounds starting at or above zero give non-negative widths. */
  lemma WidthsNonnegative(sched: seq<real>)
    requires Sorted(sched)
    requires sched != [] ==> 0.0 <= sched[0]
    ensures AllNonnegative(Widths(sched))
  {
    forall k | 0 <= k < |sched| ensures 0.0 <= Widths(sched)[k] {
      WidthsAt(sched, k);
    }
  }

  /** With nothing left to tax, no bracket collects anything. */
  lemma {:induction false} GraduatedAtZero(ws: seq<real>, rs: seq<real>, top: real)
    requires |ws| <= |rs|
    ensures Graduated(0.0, ws, rs, top) == 0.0
    ensures Leftover(0.0, ws) == 0.0
    decreases |ws|
  {
    if ws != [] {
      GraduatedAtZero(ws[1..], rs[1..], top);
    }
  }

  /** `figureTax(0, schedule, rates)` is 0 for every accepted schedule. */
  lemma ZeroIncomeIsUntaxed(schedule: seq<real>, rates: seq<real>)
    requires |schedule| <= |rates|
    ensures MarginalTax(0.0, schedule, rates) == Ok(0.0)
  {
    if schedule != [] {
      GraduatedAtZero(Widths(Sort(schedule)), rates, Last(rates));
    }
  }

  /** The tax does not depend on the order in which the bounds are supplied. */
  lemma OrderIndependent(income: real, s1: seq<real>, s2: seq<real>, rates: seq<real>)
    requires multiset(s1) == multiset(s2)
    ensures MarginalTax(income, s1, rates) == MarginalTax(income, s2, rates)
  {
    SortOrderIndependent(s1, s2);
    assert |s1| == |multiset(s1)| == |s2|;
  }

  /** With non-negative widths, what the brackets leave is the income above their total. */
  lemma {:induction false} LeftoverIsExcess(remaining: real, ws: seq<real>)
    requires 0.0 <= remaining && AllNonnegative(ws)
    ensures Leftover(remaining, ws) == Max(0.0, remaining - PrefixSum(ws, |ws|))
    decreases |ws|
  {
    if ws != [] {
      PrefixSumShift(ws, |ws| - 1);
      assert ws[1..] == ws[1..][..];
      LeftoverIsExcess(remaining - Slice(remaining, ws[0]), ws[1..]);
      PrefixSumNonnegative(ws[1..], |ws| - 1);
    }
  }

  /** After the loop of `figureTax`, the remaining income is the income above the
      largest bound (for non-negative bounds). */
  lemma RemainingIsExcess(income: real, schedule: seq<real>)
    requires 0.0 <= income && schedule != []
    requires forall k :: 0 <= k < |schedule| ==> 0.0 <= schedule[k]
    ensures Leftover(income, Widths(Sort(schedule))) == Max(0.0, income - Largest(schedule))
  {
    ExcessOverLargest(income, Sort(schedule), schedule);
  }

  lemma ExcessOverLargest(income: real, sched: seq<real>, schedule: seq<real>)
    requires 0.0 <= income && schedule != []
    requires forall k :: 0 <= k < |schedule| ==> 0.0 <= schedule[k]
    requires Sorted(sched) && multiset(sched) == multiset(schedule)
    ensures Leftover(income, Widths(sched)) == Max(0.0, income - Largest(schedule))
  {
    SortedLastIsMax(sched, schedule);
    HeadNonnegative(sched, schedule);
    WidthsNonnegative(sched);
    LeftoverIsExcess(income, Widths(sched));
    WidthsPrefixSum(sched, |sched|);
  }

  /** A rearrangement of non-negative bounds starts at or above zero. */
  lemma HeadNonnegative(sched: seq<real>, schedule: seq<real>)
    requires sched != [] && multiset(sched) == multiset(schedule)
    requires forall k :: 0 <= k < |schedule| ==> 0.0 <= schedule[k]
    ensures 0.0 <= sched[0]
  {
    assert sched[0] in multiset(schedule);
    var m :| 0 <= m < |schedule| && schedule[m] == sched[0];
  }

  /** Only the rates of the bounded brackets and the last rate are ever read:
      rates at positions |schedule| .. |rates| - 2 make no difference. */
  lemma OnlyBracketRatesAndLastRateMatter(income: real, schedule: seq<real>, r1: seq<real>, r2: seq<real>)
    requires |schedule| <= |r1| && |schedule| <= |r2| && r1 != [] && r2 != []
    requires r1[..|schedule|] == r2[..|schedule|] && Last(r1) == Last(r2)
    ensures MarginalTax(income, schedule, r1) == MarginalTax(income, schedule, r2)
  {
    if 0.0 <= income && schedule != [] {
      GraduatedReadsPrefix(income, Widths(Sort(schedule)), r1, r2, Last(r1));
    }
  }

  lemma {:induction false} GraduatedReadsPrefix(x: real, ws: seq<real>, r1: seq<real>, r2: seq<real>, top: real)
    requires |ws| <= |r1| && |ws| <= |r2|
    requires r1[..|ws|] == r2[..|ws|]
    ensures Graduated(x, ws, r1, top) == Graduated(x, ws, r2, top)
    decreases |ws|
  {
    if ws != [] {
      assert r1[0] == r1[..|ws|][0] == r2[..|ws|][0] == r2[0];
      assert r1[1..][..|ws| - 1] == r1[1..|ws|] == r2[1..|ws|] == r2[1..][..|ws| - 1];
      GraduatedReadsPrefix(x - Slice(x, ws[0]), ws[1..], r1[1..], r2[1..], top);
    }
  }

  /** A larger remaining income takes a slice at least as large and leaves
      at least as much for the brackets above, whatever the width. */
  lemma SliceMonotone(a: real, b: real, w: real)
    requires a <= b
    ensures Slice(a, w) <= Slice(b, w)
    ensures a - Slice(a, w) <= b - Slice(b, w)
  {
  }

  lemma ScaleMonotone(a: real, b: real, rate: real)
    requires a <= b && 0.0 <= rate
    ensures a * rate <= b * rate
  {
  }

  /** Brackets `ws` with rates `rs` and top rate `top`, no rate negative. */
  predicate NonnegativeRates(ws: seq<real>, rs: seq<real>, top: real) {
    |ws| <= |rs| && 0.0 <= top && AllNonnegative(rs)
  }

  /** With non-negative rates, more income never means less tax. */
  lemma {:induction false} GraduatedMonotone(a: real, b: real, ws: seq<real>, rs: seq<real>, top: real)
    requires a <= b && NonnegativeRates(ws, rs, top)
    ensures Graduated(a, ws, rs, top) <= Graduated(b, ws, rs, top)
    decreases |ws|, 1
  {
    if ws == [] {
      ScaleMonotone(a, b, top);
    } else {
      MonotoneCons(a, b, ws, rs, top);
    }
  }

  /** The inductive step of `GraduatedMonotone`: the first bracket's slices
      keep their order, and so do the incomes they leave for the rest. */
  lemma {:induction false} MonotoneCons(a: real, b: real, ws: seq<real>, rs: seq<real>, top: real)
    requires a <= b && NonnegativeRates(ws, rs, top) && ws != []
    ensures Graduated(a, ws, rs, top) <= Graduated(b, ws, rs, top)
    decreases |ws|, 0
  {
    var sa, sb := Slice(a, ws[0]), Slice(b, ws[0]);
    MonotoneTailArgs(a, b, ws, rs, top);
    GraduatedMonotone(a - sa, b - sb, ws[1..], rs[1..], top);
    MonotoneStep(a, b, ws, rs, top, sa, sb);
  }

  /** The tail of the brackets meets the claim's conditions for what the first bracket leaves. */
  lemma MonotoneTailArgs(a: real, b: real, ws: seq<real>, rs: seq<real>, top: real)
    requires a <= b && NonnegativeRates(ws, rs, top) && ws != []
    ensures 0.0 <= rs[0] && Slice(a, ws[0]) <= Slice(b, ws[0])
    ensures a - Slice(a, ws[0]) <= b - Slice(b, ws[0])
    ensures NonnegativeRates(ws[1..], rs[1..], top)
  {
    SliceMonotone(a, b, ws[0]);
    assert AllNonnegative(rs[1..]);
  }

  /** The first bracket's share grows with the income, and so, by the
      induction hypothesis, does the rest. */
  lemma MonotoneStep(a: real, b: real, ws: seq<real>, rs: seq<real>, top: real, sa: real, sb: real)
    requires 0 < |ws| <= |rs| && 0.0 <= rs[0]
    requires sa == Slice(a, ws[0]) && sb == Slice(b, ws[0]) && sa <= sb
    requires Graduated(a - sa, ws[1..], rs[1..], top) <= Graduated(b - sb, ws[1..], rs[1..], top)
    ensures Graduated(a, ws, rs, top) <= Graduated(b, ws, rs, top)
  {
    GraduatedUnfold(a, ws, rs, top, sa);
    GraduatedUnfold(b, ws, rs, top, sb);
    ScaleMonotone(sa, sb, rs[0]);
  }

  /** `figureTax` is non-decreasing in the income when no rate is negative. */
  lemma MarginalTaxMonotone(a: real, b: real, schedule: seq<real>, rates: seq<real>)
    requires 0.0 <= a <= b && |schedule| <= |rates| && AllNonnegative(rates)
    ensures MarginalTax(a, schedule, rates).Ok? && MarginalTax(b, schedule, rates).Ok?
    ensures MarginalTax(a, schedule, rates).value <= MarginalTax(b, schedule, rates).value
  {
    if schedule != [] {
      assert 0.0 <= Last(rates);
      GraduatedMonotone(a, b, Widths(Sort(schedule)), rates, Last(rates));
    }
  }

  /** One turn of `Graduated`, with the first bracket's slice named `taxed`. */
  lemma GraduatedUnfold(x: real, ws: seq<real>, rs: seq<real>, top: real, taxed: real)
    requires 0 < |ws| <= |rs| && taxed == Slice(x, ws[0])
    ensures Graduated(x, ws, rs, top) == taxed * rs[0] + Graduated(x - taxed, ws[1..], rs[1..], top)
  {
  }

  /** Within a bracket the tax is the tax on the full brackets below plus the
      bracket's rate on the income above its lower bound: `excess` is that
      income and `rate` that rate. */
  lemma {:induction false} GraduatedPiecewise(x: real, ws: seq<real>, rs: seq<real>, top: real, j: nat,
                                              excess: real, rate: real)
    requires InPiece(x, ws, rs, top, j, excess, rate)
    ensures Graduated(x, ws, rs, top) == Cum(ws, rs, j) + excess * rate
    decreases |ws|, 1
  {
    if ws == [] {
      assert excess * rate == x * top;
    } else if j == 0 {
      PiecewiseFirst(x, ws, rs, top, excess, rate);
    } else {
      PiecewiseCons(x, ws, rs, top, j, excess, rate);
    }
  }

  /** The inductive step of `GraduatedPiecewise`: `x` fills the first bracket
      and the rest of it lies in bracket `j - 1` of the tail. */
  lemma {:induction false} PiecewiseCons(x: real, ws: seq<real>, rs: seq<real>, top: real, j: nat,
                                         excess: real, rate: real)
    requires 0 < j && InPiece(x, ws, rs, top, j, excess, rate)
    ensures Graduated(x, ws, rs, top) == Cum(ws, rs, j) + excess * rate
    decreases |ws|, 0
  {
    PiecewiseTailArgs(x, ws, rs, top, j, excess, rate);
    GraduatedPiecewise(x - ws[0], ws[1..], rs[1..], top, j - 1, excess, rate);
    PiecewiseStep(x, ws, rs, top, j, excess, rate);
  }

  /** `x` lies in bracket `j` of widths `ws`, `excess` is the part of `x`
      above the bracket's lower bound and `rate` the bracket's rate. */
  predicate InPiece(x: real, ws: seq<real>, rs: seq<real>, top: real, j: nat, excess: real, rate: real) {
    && |ws| <= |rs| && j <= |ws| && AllNonnegative(ws)
    && PrefixSum(ws, j) <= x
    && (j < |ws| ==> x <= PrefixSum(ws, j + 1))
    && excess == x - PrefixSum(ws, j) && rate == RateOf(rs, top, |ws|, j)
  }

  /** The first bracket: nothing reaches the brackets above it. */
  lemma PiecewiseFirst(x: real, ws: seq<real>, rs: seq<real>, top: real, excess: real, rate: real)
    requires ws != [] && InPiece(x, ws, rs, top, 0, excess, rate)
    ensures Graduated(x, ws, rs, top) == Cum(ws, rs, 0) + excess * rate
  {
    assert 0.0 <= x <= ws[0] && excess == x && rate == rs[0];
    GraduatedUnfold(x, ws, rs, top, x);
    GraduatedAtZero(ws[1..], rs[1..], top);
  }

  /** Past the first bracket, `x` fills it and the rest of `x` falls in bracket `j - 1` of the tail. */
  lemma PiecewiseTailArgs(x: real, ws: seq<real>, rs: seq<real>, top: real, j: nat, excess: real, rate: real)
    requires 0 < j && InPiece(x, ws, rs, top, j, excess, rate)
    ensures 0.0 <= ws[0] <= x
    ensures InPiece(x - ws[0], ws[1..], rs[1..], top, j - 1, excess, rate)
  {
    PrefixSumShift(ws, j - 1);
    assert AllNonnegative(ws[1..]);
    PrefixSumNonnegative(ws[1..], j - 1);
    if j < |ws| {
      PrefixSumShift(ws, j);
    }
  }

  /** One bracket of the piecewise induction, given the claim for the tail. */
  lemma PiecewiseStep(x: real, ws: seq<real>, rs: seq<real>, top: real, j: nat, excess: real, rate: real)
    requires |ws| <= |rs| && 0 < j <= |ws| && 0.0 <= ws[0] <= x
    requires Graduated(x - ws[0], ws[1..], rs[1..], top) == Cum(ws[1..], rs[1..], j - 1) + excess * rate
    ensures Graduated(x, ws, rs, top) == Cum(ws, rs, j) + excess * rate
  {
    GraduatedUnfold(x, ws, rs, top, ws[0]);
    CumShift(ws, rs, j - 1);
  }

  /** Lower bound of bracket `j`: 0 for the first, else the bound below it. */
  function Lower(sched: seq<real>, j: nat): (bound: real)
    requires j <= |sched|
  {
    if j == 0 then 0.0 else sched[j - 1]
  }

  /** For ascending non-negative bounds, the tax in bracket `j` is linear:
      `Cum(j)` plus the bracket's rate on the income above `Lower(j)`; above the
      largest bound that rate is the last rate. */
  lemma MarginalTaxInBracket(income: real, sched: seq<real>, rates: seq<real>, j: nat, excess: real, rate: real)
    requires Sorted(sched) && 1 <= |sched| <= |rates| && 0.0 <= sched[0]
    requires j <= |sched| && 0.0 <= income && Lower(sched, j) <= income
    requires j < |sched| ==> income <= sched[j]
    requires excess == income - Lower(sched, j) && rate == RateOf(rates, Last(rates), |sched|, j)
    ensures MarginalTax(income, sched, rates) == Ok(Cum(Widths(sched), rates, j) + excess * rate)
  {
    BracketBounds(sched, j);
    GraduatedPiecewise(income, Widths(sched), rates, Last(rates), j, excess, rate);
    MarginalTaxOfSorted(income, sched, rates, Cum(Widths(sched), rates, j) + excess * rate);
  }

  /** Bracket `j`'s bounds, read off the widths. */
  lemma BracketBounds(sched: seq<real>, j: nat)
    requires Sorted(sched) && 1 <= |sched| && 0.0 <= sched[0] && j <= |sched|
    ensures AllNonnegative(Widths(sched))
    ensures PrefixSum(Widths(sched), j) == Lower(sched, j)
    ensures j < |sched| ==> PrefixSum(Widths(sched), j + 1) == sched[j]
  {
    WidthsNonnegative(sched);
    if j > 0 {
      WidthsPrefixSum(sched, j);
    }
    if j < |sched| {
      WidthsPrefixSum(sched, j + 1);
    }
  }

  /** On an ascending schedule the sort is the identity, so the tax is the
      graduated sum over the schedule's own widths. */
  lemma MarginalTaxOfSorted(income: real, sched: seq<real>, rates: seq<real>, g: real)
    requires Sorted(sched) && 1 <= |sched| <= |rates| && 0.0 <= income
    requires g == Graduated(income, Widths(sched), rates, Last(rates))
    ensures MarginalTax(income, sched, rates) == Ok(g)
  {
    SortOfSorted(sched);
  }

  // ---------------------------------------------------------------------
  // The 2025 federal schedule and the worked values of the docstring

  lemma Schedule2025Widths()
    ensures Sorted(Schedule2025)
    ensures Widths(Schedule2025) == [11925.0, 36550.0, 54875.0, 93950.0, 53225.0, 375825.0]
  {
    var ws := Widths(Schedule2025);
    forall k | 0 <= k < 6 ensures ws[k] == [11925.0, 36550.0, 54875.0, 93950.0, 53225.0, 375825.0][k] {
      WidthsAt(Schedule2025, k);
    }
  }

  /** Tax on the full brackets of 2025: 0, 1192.50, 5578.50, 17651, 40199, 57231, 188769.75. */
  lemma Schedule2025Cum()
    ensures Cum(Widths(Schedule2025), FedRates, 1) == 1192.50
    ensures Cum(Widths(Schedule2025), FedRates, 2) == 5578.50
    ensures Cum(Widths(Schedule2025), FedRates, 3) == 17651.00
    ensures Cum(Widths(Schedule2025), FedRates, 4) == 40199.00
    ensures Cum(Widths(Schedule2025), FedRates, 5) == 57231.00
    ensures Cum(Widths(Schedule2025), FedRates, 6) == 188769.75
  {
    Schedule2025Widths();
    var ws := Widths(Schedule2025);
    assert Cum(ws, FedRates, 1) == 1192.50;
    assert Cum(ws, FedRates, 2) == 5578.50;
    assert Cum(ws, FedRates, 3) == 17651.00;
    assert Cum(ws, FedRates, 4) == 40199.00;
    assert Cum(ws, FedRates, 5) == 57231.00;
  }

  /** The docstring's empty-schedule, zero-income and error examples. */
  lemma DocstringEdgeCases()
    ensures MarginalTax(0.0, [], FedRates) == Ok(0.0)
    ensures MarginalTax(0.0, [11925.0], FedRates) == Ok(0.0)
    ensures MarginalTax(12345.0, [1.0, 2.0, 3.0, 4.0, 5.0, 6.0, 7.0, 8.0], FedRates) == Err(TooManyBrackets)
    ensures MarginalTax(-1.0, [11925.0], FedRates) == Err(NegativeIncome)
  {
    ZeroIncomeIsUntaxed([11925.0], FedRates);
  }

  /** 11926 lies one dollar into the 12% bracket: 1192.50 + 0.12. */
  lemma Docstring11926()
    ensures MarginalTax(11926.0, Schedule2025, FedRates) == Ok(1192.62)
  {
    Schedule2025Widths();
    Schedule2025Cum();
    MarginalTaxInBracket(11926.0, Schedule2025, FedRates, 1, 1.0, 0.12);
  }

  /** 147790 lies in the 24% bracket: 17651 + 44440 * 0.24. */
  lemma Docstring147790()
    ensures MarginalTax(147790.0, Schedule2025, FedRates) == Ok(28316.60)
  {
    Schedule2025Widths();
    Schedule2025Cum();
    MarginalTaxInBracket(147790.0, Schedule2025, FedRates, 3, 44440.0, 0.24);
  }

  /** The docstring's 2024 bounds. */
  const Schedule2024: seq<real> := [11600.0, 47150.0, 100525.0, 191950.0, 243735.0]

  /** Tax on the first three full 2024 brackets: 1160 + 4266 + 11742.50. */
  lemma Schedule2024Cum()
    ensures Sorted(Schedule2024)
    ensures Cum(Widths(Schedule2024), FedRates, 3) == 17168.50
  {
    var ws := Widths(Schedule2024);
    forall k | 0 <= k < 3 ensures ws[k] == [11600.0, 35550.0, 53375.0][k] {
      WidthsAt(Schedule2024, k);
    }
    assert Cum(ws, FedRates, 3) == 17168.50;
  }

  /** The 2024 bounds taxed with the default seven rates: 139819 lies in
      the 24% bracket, 17168.50 + 39294 * 0.24 = 26599.06. */
  lemma Docstring2024()
    ensures MarginalTax(139819.0, Schedule2024, FedRates) == Ok(26599.06)
  {
    Schedule2024Cum();
    MarginalTaxInBracket(139819.0, Schedule2024, FedRates, 3, 39294.0, 0.24);
  }
}
