/** The four arithmetic formulas of the instalment engine (class `Instalment`).
    Doubles are modelled by exact `real`s; `Math.Pow` with an integer exponent
    by `Pow`, `Math.Ceiling` by `Ceiling`. */
module InstalmentFormulas {

  /** `b` raised to the natural power `n`. */
  function Pow(b: real, n: nat): (p: real)
    ensures b > 0.0 ==> p > 0.0
  {
    if n == 0 then 1.0 else b * Pow(b, n - 1)
  }

  lemma {:induction false} PowAtLeastOne(b: real, n: nat)
    requires b >= 1.0
    ensures Pow(b, n) >= 1.0
  {
    if n > 0 {
      PowAtLeastOne(b, n - 1);
      assert b * Pow(b, n - 1) >= Pow(b, n - 1);
    }
  }

  /** A base above one raised to a positive power stays above one. */
  lemma {:induction false} PowAboveOne(b: real, n: nat)
    requires b > 1.0 && n >= 1
    ensures Pow(b, n) > 1.0
  {
    PowAtLeastOne(b, n - 1);
    assert b * Pow(b, n - 1) >= b * 1.0;
  }

  /** Bernoulli-style bound: (1+s)^n - 1 <= n * s * (1+s)^n for s > 0. */
  lemma {:induction false} PowGrowthAtMost(b: real, n: nat)
    requires b > 1.0
    ensures Pow(b, n) - 1.0 <= (n as real) * (b - 1.0) * Pow(b, n)
  {
    if n > 0 {
      PowGrowthAtMost(b, n - 1);
      PowAtLeastOne(b, n - 1);
      GrowthStep(b, Pow(b, n - 1), (n - 1) as real);
    }
  }

  /** The same bound is strict once n >= 1. */
  lemma PowGrowthBound(b: real, n: nat)
    requires b > 1.0 && n >= 1
    ensures Pow(b, n) - 1.0 < (n as real) * (b - 1.0) * Pow(b, n)
  {
    PowGrowthAtMost(b, n - 1);
    PowAtLeastOne(b, n - 1);
    GrowthStep(b, Pow(b, n - 1), (n - 1) as real);
  }

  /** One induction step of the growth bound, over plain reals. */
  lemma GrowthStep(b: real, p: real, m: real)
    requires b > 1.0 && p >= 1.0 && m >= 0.0
    requires p - 1.0 <= m * (b - 1.0) * p
    ensures b * p - 1.0 < (m + 1.0) * (b - 1.0) * (b * p)
  {
    var d, q := b - 1.0, b * p;
    MulMono(b, p - 1.0, m * d * p);
    assert b * (p - 1.0) == q - b;
    assert b * (m * d * p) == m * d * q;
    assert q > 1.0 by { MulStrict(p, 1.0, b); }
    MulStrict(d, 1.0, q);
    assert (m + 1.0) * d * q == m * d * q + d * q;
    calc {
      q - 1.0;
    ==
      (q - b) + d;
    <=
      m * d * q + d;
    <
      m * d * q + d * q;
    ==
      (m + 1.0) * d * q;
    }
  }

  lemma MulStrict(a: real, x: real, y: real)
    requires a > 0.0 && x < y
    ensures a * x < a * y
  {
  }

  lemma MulMono(a: real, x: real, y: real)
    requires a >= 0.0 && x <= y
    ensures a * x <= a * y
  {
  }

  /** Ceiling of a real (`Math.Ceiling`). */
  function Ceiling(x: real): (c: int)
    ensures x <= c as real < x + 1.0
  {
    -((-x).Floor)
  }

  /** Truncation toward zero, as the C# cast `(int)x` does for an in-range double. */
  function TruncateToInt(x: real): (n: int)
    ensures x >= 0.0 ==> 0 <= n && n as real <= x < n as real + 1.0
    ensures x < 0.0 ==> n <= 0 && x <= n as real && n as real < x + 1.0
  {
    if x >= 0.0 then x.Floor else -((-x).Floor)
  }

  /** True when `x` has no fractional part. */
  predicate IsWhole(x: real)
  {
    x.Floor as real == x
  }

  lemma FloorOfWhole(n: int)
    ensures IsWhole(n as real)
  {
  }

  /** `RoundingNumber`: `Math.Ceiling((number / 100) * 100)`. The division and
      the multiplication cancel, so the result is the plain ceiling of the
      number: the least whole number not below it. */
  function RoundingNumber(number: real): (r: real)
    ensures IsWhole(r)
    ensures number <= r < number + 1.0
  {
    Ceiling((number / 100.0) * 100.0) as real
  }

  /** A whole number is its own rounding. */
  lemma RoundingNumberFixesWhole(x: real)
    requires IsWhole(x)
    ensures RoundingNumber(x) == x
  {
    var r := RoundingNumber(x);
    assert r.Floor as real == r;
    assert x.Floor as real == x;
    assert x.Floor <= r.Floor < x.Floor + 1;
  }

  /** Rounding twice gives the same as rounding once. */
  lemma RoundingNumberIdempotent(x: real)
    ensures RoundingNumber(RoundingNumber(x)) == RoundingNumber(x)
  {
    RoundingNumberFixesWhole(RoundingNumber(x));
  }

  /** The ceiling never reorders two numbers. */
  lemma CeilingMonotone(x: real, y: real)
    requires x <= y
    ensures Ceiling(x) <= Ceiling(y)
  {
    var cx, cy := Ceiling(x), Ceiling(y);
    assert (cx - 1) as real < cy as real;
  }

  /** Rounding never reorders two numbers. */
  lemma RoundingNumberMonotone(x: real, y: real)
    requires x <= y
    ensures RoundingNumber(x) <= RoundingNumber(y)
  {
    assert (x / 100.0) * 100.0 == x && (y / 100.0) * 100.0 == y;
    CeilingMonotone((x / 100.0) * 100.0, (y / 100.0) * 100.0);
  }

  /** Days in the accrual month: the engine always uses 30. */
  const AccrualDaysPerMonth: real := 30.0
  /** Days in the accrual year. */
  const DaysPerYear: real := 365.0

  /** `CalculateLoanShare`: profit accrued over one spacing of
      `durationOfLoanPaymentMonth` 30-day months on the amount not yet paid
      back, at `profitRate` percent a year of 365 days. */
  function CalculateLoanShare(wholeAmount: real, profitRate: int, durationOfLoanPaymentMonth: int,
                              orginalLoanPaymentTillNow: real): (share: real)
    ensures profitRate == 0 || durationOfLoanPaymentMonth == 0 || orginalLoanPaymentTillNow == wholeAmount
            ==> share == 0.0
    ensures profitRate > 0 && durationOfLoanPaymentMonth > 0
            ==> (share > 0.0 <==> orginalLoanPaymentTillNow < wholeAmount)
  {
    var j := (profitRate as real) / 100.0;
    (j * AccrualDaysPerMonth * (durationOfLoanPaymentMonth as real) * (wholeAmount - orginalLoanPaymentTillNow)) / DaysPerYear
  }

  /** Paying back more lowers the profit of the next instalment by a fixed
      fraction of the extra amount paid. */
  lemma LoanShareDifference(wholeAmount: real, profitRate: int, duration: int, paid: real, morePaid: real)
    ensures CalculateLoanShare(wholeAmount, profitRate, duration, paid)
            - CalculateLoanShare(wholeAmount, profitRate, duration, morePaid)
            == (profitRate as real) * 30.0 * (duration as real) * (morePaid - paid) / 36500.0
  {
  }

  /** With a positive rate and spacing, the profit share strictly falls as the
      amount paid so far grows. */
  lemma LoanShareStrictlyDecreasing(wholeAmount: real, profitRate: int, duration: int, paid: real, morePaid: real)
    requires profitRate > 0 && duration > 0 && paid < morePaid
    ensures CalculateLoanShare(wholeAmount, profitRate, duration, morePaid)
            < CalculateLoanShare(wholeAmount, profitRate, duration, paid)
  {
    LoanShareDifference(wholeAmount, profitRate, duration, paid, morePaid);
    assert (profitRate as real) * 30.0 * (duration as real) > 0.0;
    assert (profitRate as real) * 30.0 * (duration as real) * (morePaid - paid) > 0.0;
  }

  /** `CalculateRemainLoan`: the nominal balance left after instalment
      `loanNumber` of `countOfLoan` level instalments of `eachLoanAmount`. */
  function CalculateRemainLoan(countOfLoan: int, eachLoanAmount: real, loanNumber: int): (remain: real)
    ensures remain == eachLoanAmount * ((countOfLoan - loanNumber) as real)
    ensures loanNumber == countOfLoan ==> remain == 0.0
  {
    (eachLoanAmount * countOfLoan as real) - (eachLoanAmount * loanNumber as real)
  }

  /** Each instalment takes exactly one amount off the remaining balance. */
  lemma RemainLoanStep(countOfLoan: int, eachLoanAmount: real, loanNumber: int)
    ensures CalculateRemainLoan(countOfLoan, eachLoanAmount, loanNumber)
            == CalculateRemainLoan(countOfLoan, eachLoanAmount, loanNumber + 1) + eachLoanAmount
  {
  }

  /** With a non-negative amount the remaining balance never grows with the
      instalment number. */
  lemma RemainLoanNonIncreasing(countOfLoan: int, eachLoanAmount: real, k: int, later: int)
    requires eachLoanAmount >= 0.0 && k <= later
    ensures CalculateRemainLoan(countOfLoan, eachLoanAmount, later) <= CalculateRemainLoan(countOfLoan, eachLoanAmount, k)
  {
    assert eachLoanAmount * ((later - k) as real) >= 0.0;
  }

  /** Periods per year, `365 / countOfLoan` in integer division. */
  function PeriodsPerYear(countOfLoan: int): (per: int)
    requires 1 <= countOfLoan <= 365
    ensures 1 <= per <= 365 && per * countOfLoan <= 365 < (per + 1) * countOfLoan
  {
    365 / countOfLoan
  }

  /** The rate of one period, `profitRate / (per * 100)`. */
  function PeriodRate(profitRate: real, countOfLoan: int): (s: real)
    requires 1 <= countOfLoan <= 365
    ensures profitRate > 0.0 ==> s > 0.0
    ensures s * ((PeriodsPerYear(countOfLoan) * 100) as real) == profitRate
  {
    profitRate / ((PeriodsPerYear(countOfLoan) * 100) as real)
  }

  /** `CalculateFacilityAmount`: the level instalment of the annuity formula,
      s * (whole * v / (v - 1)) with v = (1 + s)^countOfLoan. The spacing
      argument is accepted and not used. There is no zero-rate branch: the
      formula divides by v - 1, so the rate must be positive. */
  function CalculateFacilityAmount(wholeAmount: real, profitRate: real, countOfLoan: int,
                                   durationOfLoanPayment: int): (eachLoanAmount: real)
    requires 1 <= countOfLoan <= 365 && profitRate > 0.0
    ensures SolvesAnnuity(eachLoanAmount, wholeAmount, PeriodRate(profitRate, countOfLoan),
                          Pow(1.0 + PeriodRate(profitRate, countOfLoan), countOfLoan))
    ensures wholeAmount > 0.0 ==> eachLoanAmount * (countOfLoan as real) > wholeAmount
    ensures wholeAmount == 0.0 ==> eachLoanAmount == 0.0
  {
    var s := PeriodRate(profitRate, countOfLoan);
    var v := Pow(1.0 + s, countOfLoan);
    PowAboveOne(1.0 + s, countOfLoan);
    PowGrowthBound(1.0 + s, countOfLoan);
    var f := wholeAmount * v;
    var h := v - 1.0;
    var eachLoanAmount := s * (f / h);
    AnnuityFacts(wholeAmount, s, v, countOfLoan as real, eachLoanAmount);
    eachLoanAmount
  }

  /** The annuity equation: `amount` paid at the end of each of n periods at
      period rate s retires `wholeAmount`, where v = (1 + s)^n. */
  predicate SolvesAnnuity(amount: real, wholeAmount: real, s: real, v: real)
  {
    amount * (v - 1.0) == s * wholeAmount * v
  }

  /** The annuity amount s * (whole * v / (v - 1)) over plain reals: it solves
      the annuity equation, and it exceeds an even split of the principal
      over `n` periods when v - 1 < n * s * v. */
  lemma AnnuityFacts(wholeAmount: real, s: real, v: real, n: real, a: real)
    requires s > 0.0 && v > 1.0 && n > 0.0
    requires v - 1.0 < n * ((1.0 + s) - 1.0) * v
    requires a == s * (wholeAmount * v / (v - 1.0))
    ensures SolvesAnnuity(a, wholeAmount, s, v)
    ensures wholeAmount > 0.0 ==> a * n > wholeAmount
    ensures wholeAmount == 0.0 ==> a == 0.0
  {
    var h := v - 1.0;
    var q := wholeAmount / h;
    assert q * h == wholeAmount;
    assert s * (wholeAmount * v / h) == s * v * q;
    if wholeAmount > 0.0 {
      assert q > 0.0;
      assert v - 1.0 < n * s * v;
      MulStrict(q, h, n * s * v);
    }
  }

  /** The balance of a loan of `principal` after `k` periods at period rate `s`
      when `payment` is paid at the end of each period. */
  function Balance(principal: real, s: real, payment: real, k: nat): (balance: real)
  {
    if k == 0 then principal else Balance(principal, s, payment, k - 1) * (1.0 + s) - payment
  }

  lemma {:induction false} BalanceClosedForm(principal: real, s: real, payment: real, k: nat)
    ensures Balance(principal, s, payment, k) * s
            == principal * s * Pow(1.0 + s, k) - payment * (Pow(1.0 + s, k) - 1.0)
  {
    if k == 0 {
      BalanceStart(principal, s, payment, Balance(principal, s, payment, 0), Pow(1.0 + s, 0));
    } else {
      BalanceClosedForm(principal, s, payment, k - 1);
      BalanceStep(principal, s, payment, Balance(principal, s, payment, k - 1), Pow(1.0 + s, k - 1),
                  Balance(principal, s, payment, k), Pow(1.0 + s, k));
    }
  }

  /** The base case of `BalanceClosedForm`, over plain reals. */
  lemma BalanceStart(principal: real, s: real, payment: real, start: real, p: real)
    requires start == principal && p == 1.0
    ensures start * s == principal * s * p - payment * (p - 1.0)
  {
  }

  /** One induction step of `BalanceClosedForm`, over plain reals. */
  lemma BalanceStep(principal: real, s: real, payment: real, prev: real, p: real, next: real, nextP: real)
    requires prev * s == principal * s * p - payment * (p - 1.0)
    requires next == prev * (1.0 + s) - payment && nextP == (1.0 + s) * p
    ensures next * s == principal * s * nextP - payment * (nextP - 1.0)
  {
    calc {
      next * s;
      (prev * (1.0 + s) - payment) * s;
      (1.0 + s) * (prev * s) - payment * s;
      (1.0 + s) * (principal * s * p - payment * (p - 1.0)) - payment * s;
      principal * s * ((1.0 + s) * p) - payment * ((1.0 + s) * p - 1.0);
      principal * s * nextP - payment * (nextP - 1.0);
    }
  }

  /** The level instalment retires the principal exactly: paying it at the end
      of each of the `countOfLoan` periods, with profit compounding at the
      period rate, leaves a balance of zero. */
  lemma FacilityAmountRetiresPrincipal(wholeAmount: real, profitRate: real, countOfLoan: int, durationOfLoanPayment: int)
    requires 1 <= countOfLoan <= 365 && profitRate > 0.0
    ensures Balance(wholeAmount, PeriodRate(profitRate, countOfLoan),
                    CalculateFacilityAmount(wholeAmount, profitRate, countOfLoan, durationOfLoanPayment), countOfLoan) == 0.0
  {
    var s := PeriodRate(profitRate, countOfLoan);
    var a := CalculateFacilityAmount(wholeAmount, profitRate, countOfLoan, durationOfLoanPayment);
    BalanceClosedForm(wholeAmount, s, a, countOfLoan);
    var b := Balance(wholeAmount, s, a, countOfLoan);
    assert b * s == 0.0;
  }
}
