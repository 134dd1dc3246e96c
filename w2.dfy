/** The withholding arithmetic of w2.py: truncation to cents, the FICA
    taxes, and the federal, state and local amounts `_wage_and_wh` puts on a
    form W-2 for a given wage. The random wage is a parameter here. */
module W2 {
  import opened Common
  import opened FigureTaxSchedule
  import opened TaxTable

  /** `_trunc`'s default number of places: cents. */
  const Cents: nat := 2

  function Pow10(p: nat): (r: nat)
    ensures 1 <= r
  {
    if p == 0 then 1 else 10 * Pow10(p - 1)
  }

  /** `10 ** places` as a real factor. */
  function Factor(places: nat): (f: real)
    ensures 1.0 <= f
  {
    Pow10(places) as real
  }

  /** `_trunc(figure, places)`: `floor(figure * 10^places) / 10^places`,
      the largest multiple of `10^-places` not above `figure`. */
  function Trunc(figure: real, places: nat): (r: real)
    ensures r <= figure < r + 1.0 / Factor(places)
    ensures r * Factor(places) == (figure * Factor(places)).Floor as real
  {
    var n := (figure * Factor(places)).Floor;
    DivideBack(n, Factor(places), figure, n as real / Factor(places));
    n as real / Factor(places)
  }

  /** `r = n / f` is at most `x`, `x` is below `r + 1 / f`, and `r * f` is
      whole, when `n <= x * f < n + 1`. */
  lemma DivideBack(n: int, f: real, x: real, r: real)
    requires 0.0 < f && n as real <= x * f < n as real + 1.0
    requires r == n as real / f
    ensures r <= x < r + 1.0 / f
    ensures r * f == n as real
  {
    assert r * f == n as real;
    assert (x - r) * f == x * f - n as real;
  }

  lemma WholeFloor(n: int, y: real)
    requires y == n as real
    ensures y.Floor as real == y
  {
  }

  /** Truncating twice is truncating once. */
  lemma TruncIdempotent(figure: real, places: nat)
    ensures Trunc(Trunc(figure, places), places) == Trunc(figure, places)
  {
    WholeFloor((figure * Factor(places)).Floor, Trunc(figure, places) * Factor(places));
    Cancel(Trunc(Trunc(figure, places), places), Trunc(figure, places), Factor(places));
  }

  lemma Cancel(a: real, b: real, f: real)
    requires 0.0 < f && a * f == b * f
    ensures a == b
  {
  }

  /** `floor` rounds toward minus infinity: a negative figure loses a cent
      where rounding toward zero would not. */
  lemma TruncNegative()
    ensures Trunc(-1.234, Cents) == -1.24
    ensures Trunc(1.234, Cents) == 1.23
  {
    assert Factor(Cents) == 100.0;
    assert (-1.234 * 100.0).Floor == -124;
    assert (1.234 * 100.0).Floor == 123;
  }

  // ---------------------------------------------------------------------
  // FICA

  /** The 2025 Social Security wage base, 26 U.S.C. section 3121(a)(1). */
  const WageBase: real := 176100.0

  /** The additional Medicare tax threshold of 26 U.S.C. section 3101(b)(2). */
  const MedicareThreshold: real := 200000.0

  /** Social Security tax: 6.2% of the wages up to the wage base. */
  function SocialSecurityTax(wages: real): (tax: real) {
    Min(wages, WageBase) * 0.0620
  }

  /** Medicare tax: 1.45% of all wages plus 0.9% of the wages above the threshold. */
  function MedicareTax(wages: real): (tax: real) {
    wages * 0.0145 + Max(wages - MedicareThreshold, 0.0) * 0.009
  }

  /** `_fica(wages)`: the pair (Social Security, Medicare). */
  function Fica(wages: real): (r: (real, real))
    ensures 0.0 <= wages ==> 0.0 <= r.0 <= 10918.20 && 0.0 <= r.1
    ensures r.0 <= wages * 0.0620
    ensures 0.0 <= wages ==> wages * 0.0145 <= r.1
  {
    (SocialSecurityTax(wages), MedicareTax(wages))
  }

  /** Below the wage base every dollar is taxed; the tax never exceeds 10918.20. */
  lemma SocialSecurityBounds(wages: real)
    ensures wages <= WageBase ==> SocialSecurityTax(wages) == wages * 0.0620
    ensures wages >= WageBase ==> SocialSecurityTax(wages) == 10918.20
    ensures SocialSecurityTax(wages) <= 10918.20
  {
  }

  /** The 0.9% term vanishes at or below the threshold. */
  lemma MedicareBelowThreshold(wages: real)
    ensures wages <= MedicareThreshold ==> MedicareTax(wages) == wages * 0.0145
    ensures wages > MedicareThreshold ==> MedicareTax(wages) == wages * 0.0235 - 1800.0
  {
  }

  /** Both taxes are non-negative and non-decreasing in the wages. */
  lemma FicaMonotone(a: real, b: real)
    requires 0.0 <= a <= b
    ensures 0.0 <= Fica(a).0 <= Fica(b).0
    ensures 0.0 <= Fica(a).1 <= Fica(b).1
  {
  }

  // ---------------------------------------------------------------------
  // The amounts on the form

  /** The keys of `mdtaxtable2025`, which w2.py passes as a bracket schedule. */
  function Keys(table: Table): (ks: seq<real>)
  {
    seq(|table|, i requires 0 <= i < |table| => table[i].key)
  }

  /** Box 17 as w2.py computes it: `figure.tax_schedule.figureTax(wages,
      mdtaxtable2025)` with the default seven federal rates, truncated. */
  function StateTaxAsWritten(wages: real): (r: Result<real>) {
    match MarginalTax(wages, Keys(MdTable), FedRates)
    case Err(e) => Err(e)
    case Ok(t) => Ok(Trunc(t, Cents))
  }

  /** The eight keys exceed the seven rates: the call always raises. */
  lemma StateTaxAlwaysFails(wages: real)
    ensures StateTaxAsWritten(wages).Err?
    ensures 0.0 <= wages ==> StateTaxAsWritten(wages) == Err(TooManyBrackets)
  {
  }

  /** Box 17 as intended: the Maryland table evaluated at the wages. */
  function StateTax(wages: real): (r: Result<real>) {
    match TableTax(wages, MdTable)
    case Err(e) => Err(e)
    case Ok(t) => Ok(Trunc(t, Cents))
  }

  /** The intended state tax is the Maryland graduated tax, truncated to cents. */
  lemma StateTaxMatchesSchedule(wages: real)
    requires 0.0 <= wages
    ensures MarginalTax(wages, MdSchedule, MdRates).Ok?
    ensures StateTax(wages) == Ok(Trunc(MarginalTax(wages, MdSchedule, MdRates).value, Cents))
  {
    MdTableAgrees(wages);
    MdScheduleCum();
  }

  /** The withholding boxes of the form. */
  datatype Withholding = Withholding(
    wages: real,     // boxes 1, 3, 5, 16 and 18
    federal: real,   // box 2
    social: real,    // box 4
    medicare: real,  // box 6
    state: real,     // box 17
    local: real      // box 19
  )

  /** `_wage_and_wh` for a given wage, as written: the federal tax raises
      for a negative wage, and the state tax always raises. */
  function WageAndWithholdingAsWritten(wages: real): (r: Result<Withholding>) {
    match MarginalTax(wages, Schedule2025, FedRates)
    case Err(e) => Err(e)
    case Ok(fed) =>
      match StateTaxAsWritten(wages)
      case Err(e) => Err(e)
      case Ok(state) =>
        var (ss, med) := Fica(wages);
        Ok(Withholding(wages, Trunc(fed, Cents), Trunc(ss, Cents), Trunc(med, Cents), state, Trunc(wages * 0.0320, Cents)))
  }

  /** No wage produces a form. */
  lemma WageAndWithholdingAlwaysFails(wages: real)
    ensures WageAndWithholdingAsWritten(wages).Err?
  {
    StateTaxAlwaysFails(wages);
  }

  /** `_wage_and_wh` with the state tax read from the Maryland table. */
  function WageAndWithholding(wages: real): (r: Result<Withholding>) {
    match MarginalTax(wages, Schedule2025, FedRates)
    case Err(e) => Err(e)
    case Ok(fed) =>
      match StateTax(wages)
      case Err(e) => Err(e)
      case Ok(state) =>
        var (ss, med) := Fica(wages);
        Ok(Withholding(wages, Trunc(fed, Cents), Trunc(ss, Cents), Trunc(med, Cents), state, Trunc(wages * 0.0320, Cents)))
  }

  /** Every non-negative wage gets a form, each amount being its tax
      truncated to cents; a negative wage raises. */
  lemma WageAndWithholdingSpec(wages: real)
    ensures WageAndWithholding(wages).Err? <==> wages < 0.0
    ensures 0.0 <= wages ==>
      var w := WageAndWithholding(wages).value;
      && w.wages == wages
      && w.federal == Trunc(MarginalTax(wages, Schedule2025, FedRates).value, Cents)
      && w.social == Trunc(SocialSecurityTax(wages), Cents)
      && w.medicare == Trunc(MedicareTax(wages), Cents)
      && w.state == Trunc(MarginalTax(wages, MdSchedule, MdRates).value, Cents)
      && w.local == Trunc(wages * 0.0320, Cents)
  {
    if 0.0 <= wages {
      StateTaxMatchesSchedule(wages);
    }
  }
}
