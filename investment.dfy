/** The ETF investment projector (app.js:817-921): a closed-form future value,
    the derived figures shown beside it, and the month-by-month recurrence that
    fills the yearly table and the chart.  Amounts and rates are exact reals. */
module Investment {
  import opened Numbers

  /** `Math.pow(x, n)` for a whole exponent. */
  function Pow(x: real, n: nat): real
  {
    if n == 0 then 1.0 else x * Pow(x, n - 1)
  }

  lemma {:induction false} PowAtLeastOne(x: real, n: nat)
    requires x >= 1.0
    ensures Pow(x, n) >= 1.0
    ensures x > 1.0 && n > 0 ==> Pow(x, n) > 1.0
  {
    if n > 0 {
      PowAtLeastOne(x, n - 1);
      assert x * Pow(x, n - 1) >= Pow(x, n - 1);
    }
  }

  lemma {:induction false} PowNonZero(x: real, n: nat)
    requires x != 0.0
    ensures Pow(x, n) != 0.0
  {
    if n > 0 {
      PowNonZero(x, n - 1);
    }
  }

  /** The balance after `n` months of the loop, starting from `initial`: each
      month is the loop body `balance = balance * (1 + monthlyReturn) + monthly`. */
  function Simulate(initial: real, monthlyReturn: real, monthly: real, n: nat): real
  {
    if n == 0 then initial else Simulate(initial, monthlyReturn, monthly, n - 1) * (1.0 + monthlyReturn) + monthly
  }

  /** Running `a` months and then `c` more is running `a + c` months: the
      yearly rows continue one recurrence rather than restarting it. */
  lemma {:induction false} SimulateSplit(initial: real, r: real, m: real, a: nat, c: nat)
    ensures Simulate(Simulate(initial, r, m, a), r, m, c) == Simulate(initial, r, m, a + c)
  {
    if c > 0 {
      SimulateSplit(initial, r, m, a, c - 1);
    }
  }

  /** One month of the induction behind `SimulateTimesRate`, on plain reals:
      `s` and `p` are the balance and the power before the month, `next` and
      `q` after it. */
  lemma StepTimesRate(r: real, s: real, m: real, a: real, p: real, next: real, q: real)
    requires r * s == a * p - m
    requires next == s * (1.0 + r) + m && q == (1.0 + r) * p
    ensures r * next == a * q - m
  {
    calc {
      r * next;
      (1.0 + r) * (r * s) + r * m;
      (1.0 + r) * (a * p - m) + r * m;
      a * q - m;
    }
  }

  /** Ordinary annuity, division-free: `r * balance = (r * initial + m) * (1 + r)^n - m`. */
  lemma {:induction false} SimulateTimesRate(initial: real, r: real, m: real, n: nat)
    ensures r * Simulate(initial, r, m, n) == (r * initial + m) * Pow(1.0 + r, n) - m
    decreases n
  {
    if n > 0 {
      SimulateTimesRate(initial, r, m, n - 1);
      TimesRateNext(initial, r, m, n);
    }
  }

  /** The induction step of `SimulateTimesRate`. */
  lemma TimesRateNext(initial: real, r: real, m: real, n: nat)
    requires n > 0
    requires r * Simulate(initial, r, m, n - 1) == (r * initial + m) * Pow(1.0 + r, n - 1) - m
    ensures r * Simulate(initial, r, m, n) == (r * initial + m) * Pow(1.0 + r, n) - m
  {
    StepTimesRate(r, Simulate(initial, r, m, n - 1), m, r * initial + m, Pow(1.0 + r, n - 1),
                  Simulate(initial, r, m, n), Pow(1.0 + r, n));
  }

  /** Dividing both sides of `r * x == r * y` by a non-zero `r`. */
  lemma Cancel(r: real, x: real, y: real)
    requires r != 0.0 && r * x == r * y
    ensures x == y
  {
    assert x == (r * x) / r;
  }

  /** Solving `r * s == (r * initial + m) * p - m` for `s`, on plain reals. */
  lemma SolveForBalance(r: real, s: real, initial: real, m: real, p: real)
    requires r != 0.0 && r * s == (r * initial + m) * p - m
    ensures s == initial * p + m * ((p - 1.0) / r)
  {
    var k := (p - 1.0) / r;
    assert k * r == p - 1.0;
    assert r * (initial * p + m * k) == r * (initial * p) + m * (k * r);
    assert r * s == r * (initial * p) + m * (p - 1.0);
    Cancel(r, s, initial * p + m * k);
  }

  /** For a non-zero rate the loop's balance is the lump sum compounded plus
      the ordinary-annuity value of the contributions. */
  lemma AnnuityClosedForm(initial: real, r: real, m: real, n: nat)
    requires r != 0.0
    ensures Simulate(initial, r, m, n) == initial * Pow(1.0 + r, n) + m * ((Pow(1.0 + r, n) - 1.0) / r)
  {
    SimulateTimesRate(initial, r, m, n);
    SolveForBalance(r, Simulate(initial, r, m, n), initial, m, Pow(1.0 + r, n));
  }

  /** With a zero rate the loop only adds the contributions. */
  lemma {:induction false} SimulateZeroRate(initial: real, m: real, n: nat)
    ensures Simulate(initial, 0.0, m, n) == initial + m * n as real
  {
    if n > 0 {
      SimulateZeroRate(initial, m, n - 1);
    }
  }

  /** The starting capital and the contributions grow independently. */
  lemma {:induction false} SimulateSeparates(initial: real, r: real, m: real, n: nat)
    ensures Simulate(initial, r, m, n) == initial * Pow(1.0 + r, n) + Simulate(0.0, r, m, n)
    decreases n
  {
    if n > 0 {
      SimulateSeparates(initial, r, m, n - 1);
      SeparatesNext(initial, r, m, n);
    }
  }

  /** The induction step of `SimulateSeparates`. */
  lemma SeparatesNext(initial: real, r: real, m: real, n: nat)
    requires n > 0
    requires Simulate(initial, r, m, n - 1) == initial * Pow(1.0 + r, n - 1) + Simulate(0.0, r, m, n - 1)
    ensures Simulate(initial, r, m, n) == initial * Pow(1.0 + r, n) + Simulate(0.0, r, m, n)
  {
    SeparatesStep(Simulate(initial, r, m, n - 1), initial, Pow(1.0 + r, n - 1), Simulate(0.0, r, m, n - 1), r, m,
                  Simulate(initial, r, m, n), Pow(1.0 + r, n), Simulate(0.0, r, m, n));
  }

  /** One month of `SimulateSeparates`, on plain reals: `s`, `p` and `z`
      before the month, `next`, `q` and `w` after it. */
  lemma SeparatesStep(s: real, initial: real, p: real, z: real, r: real, m: real, next: real, q: real, w: real)
    requires s == initial * p + z
    requires next == s * (1.0 + r) + m && q == (1.0 + r) * p && w == z * (1.0 + r) + m
    ensures next == initial * q + w
  {
  }

  /** The future value as app.js:833-841 computes it: the lump sum compounds,
      and for a positive rate the contributions use the annuity factor
      multiplied by `(1 + r)` (payments at the start of each month), otherwise
      the plain sum `monthly * months`. */
  function ClosedFormValue(initial: real, monthly: real, r: real, months: nat): real
  {
    var fvInitial := initial * Pow(1.0 + r, months);
    var fvMonthly := if r > 0.0 then monthly * ((Pow(1.0 + r, months) - 1.0) / r) * (1.0 + r)
                     else monthly * months as real;
    fvInitial + fvMonthly
  }

  /** For a positive rate the closed form exceeds the loop's balance by
      exactly `monthly * ((1 + r)^n - 1)`, which is positive whenever there
      are contributions and at least one month. */
  lemma ClosedFormOvershootsLoop(initial: real, monthly: real, r: real, n: nat)
    requires r > 0.0
    ensures ClosedFormValue(initial, monthly, r, n) - Simulate(initial, r, monthly, n) ==
            monthly * (Pow(1.0 + r, n) - 1.0)
    ensures monthly > 0.0 && n > 0 ==> ClosedFormValue(initial, monthly, r, n) > Simulate(initial, r, monthly, n)
  {
    var p := Pow(1.0 + r, n);
    var k := (p - 1.0) / r;
    assert k * r == p - 1.0;
    AnnuityClosedForm(initial, r, monthly, n);
    calc {
      ClosedFormValue(initial, monthly, r, n) - Simulate(initial, r, monthly, n);
      (initial * p + monthly * k * (1.0 + r)) - (initial * p + monthly * k);
      monthly * (k * r);
      monthly * (p - 1.0);
    }
    PowAtLeastOne(1.0 + r, n);
    if monthly > 0.0 && n > 0 {
      assert p - 1.0 > 0.0;
      assert monthly * (p - 1.0) > 0.0;
    }
  }

  lemma {:induction false} PowOne(n: nat)
    ensures Pow(1.0, n) == 1.0
  {
    if n > 0 {
      PowOne(n - 1);
    }
  }

  /** At a zero rate the closed form and the loop agree: both give the
      starting capital plus the contributions. */
  lemma ClosedFormAgreesAtZeroRate(initial: real, monthly: real, n: nat)
    ensures ClosedFormValue(initial, monthly, 0.0, n) == Simulate(initial, 0.0, monthly, n) == initial + monthly * n as real
  {
    PowOne(n);
    SimulateZeroRate(initial, monthly, n);
  }

  /** The contributions alone, for a rate in [-1, 0): the balance after two
      or more months is strictly below the sum of the contributions. */
  lemma {:induction false} ShrinkingContributions(r: real, m: real, n: nat)
    requires -1.0 <= r < 0.0 && m > 0.0 && n >= 1
    ensures 0.0 < Simulate(0.0, r, m, n) <= m * n as real
    ensures n >= 2 ==> Simulate(0.0, r, m, n) < m * n as real
  {
    if n == 1 {
      assert Simulate(0.0, r, m, 1) == 0.0 * (1.0 + r) + m;
    } else {
      ShrinkingContributions(r, m, n - 1);
      var s := Simulate(0.0, r, m, n - 1);
      assert Simulate(0.0, r, m, n) == s * (1.0 + r) + m;
      ShrinkStep(s, r, m, (n - 1) as real);
      assert m * n as real == m * (n - 1) as real + m;
    }
  }

  /** One month of `ShrinkingContributions`, on plain reals. */
  lemma ShrinkStep(s: real, r: real, m: real, k: real)
    requires -1.0 <= r < 0.0 && m > 0.0 && 0.0 < s <= m * k
    ensures 0.0 < s * (1.0 + r) + m < m * k + m
  {
    assert s * (1.0 + r) == s + s * r;
    assert s * r < 0.0;
    assert s * (1.0 + r) >= 0.0;
  }

  /** For a negative rate the closed form falls back to `monthly * months`,
      while the loop lets the contributions shrink: from two months on the
      closed form is strictly larger. */
  lemma ClosedFormOvershootsLoopWhenNegative(initial: real, monthly: real, r: real, n: nat)
    requires -1.0 <= r < 0.0 && monthly > 0.0 && n >= 2
    ensures ClosedFormValue(initial, monthly, r, n) > Simulate(initial, r, monthly, n)
  {
    SimulateSeparates(initial, r, monthly, n);
    ShrinkingContributions(r, monthly, n);
  }

  /** The closed form of the loop itself (payments at the end of each month),
      for every rate; the corrected projection below uses this value. */
  function LoopClosedForm(initial: real, monthly: real, r: real, months: nat): (v: real)
    ensures v == Simulate(initial, r, monthly, months)
  {
    if r != 0.0 then
      AnnuityClosedForm(initial, r, monthly, months);
      initial * Pow(1.0 + r, months) + monthly * ((Pow(1.0 + r, months) - 1.0) / r)
    else
      SimulateZeroRate(initial, monthly, months);
      initial + monthly * months as real
  }

  /** The figures shown by the submit handler of app.js:817-865. */
  datatype Projection = Projection(
    finalValue: real,
    totalInvested: real,
    totalProfit: real,
    roi: Number,
    realValue: real,
    realProfit: real)

  /** The figures app.js:842-848 derives from a final value: the profit, the
      ROI as a percentage of what was invested, and both deflated by
      `inflation` per year over `years` years. */
  function Figures(finalValue: real, totalInvested: real, inflation: real, years: nat): (p: Projection)
    requires 1.0 + inflation != 0.0
    ensures p.finalValue == finalValue && p.totalInvested == totalInvested
    ensures p.totalProfit == finalValue - totalInvested
    ensures p.roi == Percent(p.totalProfit, totalInvested)
    ensures p.realValue == Deflate(finalValue, inflation, years)
    ensures p.realProfit == p.realValue - totalInvested
  {
    var realValue := Deflate(finalValue, inflation, years);
    Projection(finalValue, totalInvested, finalValue - totalInvested,
               Percent(finalValue - totalInvested, totalInvested), realValue, realValue - totalInvested)
  }

  /** The submit handler as written, for `years` years of monthly
      contributions at an annual return `annualReturn` (a fraction: 0.08 for
      8 %), deflated by `inflation` per year: its final value is the closed
      form of app.js:833-842 (see `ProjectOvershootsTable`). */
  function Project(initial: nat, monthly: nat, annualReturn: real, years: nat, inflation: real): (p: Projection)
    requires 1.0 + inflation != 0.0
    ensures p.finalValue == ClosedFormValue(initial as real, monthly as real, annualReturn / 12.0, 12 * years)
    ensures p.totalInvested == (initial + monthly * 12 * years) as real
    ensures p.totalProfit == p.finalValue - p.totalInvested
    ensures p.roi == Percent(p.totalProfit, p.totalInvested)
    ensures p.realValue == Deflate(p.finalValue, inflation, years)
    ensures p.realProfit == p.realValue - p.totalInvested
  {
    Figures(ClosedFormValue(initial as real, monthly as real, annualReturn / 12.0, 12 * years),
            (initial + monthly * 12 * years) as real, inflation, years)
  }

  /** The corrected handler: the same figures from the final value the
      yearly table and the chart reach, the loop's balance after
      `12 * years` months. */
  function CorrectedProject(initial: nat, monthly: nat, annualReturn: real, years: nat, inflation: real): (p: Projection)
    requires 1.0 + inflation != 0.0
    ensures p.finalValue == Simulate(initial as real, annualReturn / 12.0, monthly as real, 12 * years)
    ensures p.totalInvested == (initial + monthly * 12 * years) as real
    ensures p.totalProfit == p.finalValue - p.totalInvested
    ensures p.roi == Percent(p.totalProfit, p.totalInvested)
    ensures p.realValue == Deflate(p.finalValue, inflation, years)
    ensures p.realProfit == p.realValue - p.totalInvested
  {
    Figures(LoopClosedForm(initial as real, monthly as real, annualReturn / 12.0, 12 * years),
            (initial + monthly * 12 * years) as real, inflation, years)
  }

  /** What paying each contribution one month earlier adds over `n` months:
      `monthly * ((1 + r)^n - 1)`. */
  function EarlyPaymentGap(monthly: real, r: real, n: nat): real
  {
    monthly * (Pow(1.0 + r, n) - 1.0)
  }

  /** `ClosedFormOvershootsLoop`'s gap, named. */
  lemma ClosedFormGap(initial: real, monthly: real, r: real, n: nat)
    requires r > 0.0
    ensures ClosedFormValue(initial, monthly, r, n) - Simulate(initial, r, monthly, n) == EarlyPaymentGap(monthly, r, n)
  {
    ClosedFormOvershootsLoop(initial, monthly, r, n);
  }

  /** For a positive return the handler's final value exceeds the corrected
      one, which is the last row of the yearly table, by exactly
      `monthly * ((1 + r)^months - 1)`; strictly with contributions and at
      least one year. */
  lemma ProjectOvershootsTable(initial: nat, monthly: nat, annualReturn: real, years: nat, inflation: real)
    requires 1.0 + inflation != 0.0 && annualReturn > 0.0
    ensures Project(initial, monthly, annualReturn, years, inflation).finalValue -
            CorrectedProject(initial, monthly, annualReturn, years, inflation).finalValue ==
            EarlyPaymentGap(monthly as real, annualReturn / 12.0, 12 * years)
    ensures monthly > 0 && years > 0 ==>
              Project(initial, monthly, annualReturn, years, inflation).finalValue >
              CorrectedProject(initial, monthly, annualReturn, years, inflation).finalValue
  {
    ClosedFormGap(initial as real, monthly as real, annualReturn / 12.0, 12 * years);
    if monthly > 0 && years > 0 {
      ClosedFormOvershootsLoop(initial as real, monthly as real, annualReturn / 12.0, 12 * years);
    }
  }

  /** For a negative return down to -1200 % a year, the handler's linear
      fallback also exceeds the corrected final value once there are
      contributions and at least one year. */
  lemma ProjectOvershootsTableWhenNegative(initial: nat, monthly: nat, annualReturn: real, years: nat, inflation: real)
    requires 1.0 + inflation != 0.0 && -12.0 <= annualReturn < 0.0 && monthly > 0 && years > 0
    ensures Project(initial, monthly, annualReturn, years, inflation).finalValue >
            CorrectedProject(initial, monthly, annualReturn, years, inflation).finalValue
  {
    ClosedFormOvershootsLoopWhenNegative(initial as real, monthly as real, annualReturn / 12.0, 12 * years);
  }

  /** The ROI times what was invested is 100 times the profit; it is NaN
      exactly when nothing was invested, since nothing then grows.  Both the
      handler as written and the corrected one. */
  lemma ProjectReturnOnInvestment(initial: nat, monthly: nat, annualReturn: real, years: nat, inflation: real)
    requires 1.0 + inflation != 0.0
    ensures var p := Project(initial, monthly, annualReturn, years, inflation);
            p.totalInvested > 0.0 ==> p.roi.Finite? && p.roi.value * p.totalInvested == 100.0 * p.totalProfit
    ensures var p := Project(initial, monthly, annualReturn, years, inflation);
            p.roi == NaN <==> p.totalInvested == 0.0
    ensures var p := CorrectedProject(initial, monthly, annualReturn, years, inflation);
            p.totalInvested > 0.0 ==> p.roi.Finite? && p.roi.value * p.totalInvested == 100.0 * p.totalProfit
    ensures var p := CorrectedProject(initial, monthly, annualReturn, years, inflation);
            p.roi == NaN <==> p.totalInvested == 0.0
  {
    var p := Project(initial, monthly, annualReturn, years, inflation);
    var q := CorrectedProject(initial, monthly, annualReturn, years, inflation);
    assert p.totalInvested == 0.0 ==> p.totalProfit == 0.0 by {
      NoContributionsWhenNothingInvested(initial, monthly, years);
      ClosedFormNothingInvested(initial as real, monthly as real, annualReturn / 12.0, 12 * years);
    }
    assert q.totalInvested == 0.0 ==> q.totalProfit == 0.0 by {
      NoContributionsWhenNothingInvested(initial, monthly, years);
      NothingInvestedNothingGained(initial as real, monthly as real, annualReturn / 12.0, 12 * years);
    }
  }

  /** With no capital and no contributions (or no months) the closed form is 0. */
  lemma ClosedFormNothingInvested(initial: real, monthly: real, r: real, n: nat)
    ensures initial == 0.0 && (monthly == 0.0 || n == 0) ==> ClosedFormValue(initial, monthly, r, n) == 0.0
  {
    if n == 0 {
      assert Pow(1.0 + r, n) == 1.0;
    }
  }

  lemma NoContributionsWhenNothingInvested(initial: nat, monthly: nat, years: nat)
    ensures initial + monthly * 12 * years == 0 ==> initial == 0 && (monthly == 0 || 12 * years == 0)
  {
    if monthly > 0 && years > 0 {
      assert monthly * 12 * years >= 12 * years;
    }
  }

  /** With a zero return the projection shows no profit: the final value is
      exactly what was put in. */
  lemma ZeroReturnNoProfit(initial: nat, monthly: nat, years: nat, inflation: real)
    requires 1.0 + inflation != 0.0
    ensures Project(initial, monthly, 0.0, years, inflation).finalValue ==
            Project(initial, monthly, 0.0, years, inflation).totalInvested
    ensures Project(initial, monthly, 0.0, years, inflation).totalProfit == 0.0
  {
    ClosedFormAgreesAtZeroRate(initial as real, monthly as real, 12 * years);
    assert monthly * 12 * years == monthly * (12 * years);
    assert (initial + monthly * (12 * years)) as real == initial as real + monthly as real * (12 * years) as real;
  }

  /** `(part / whole) * 100`. */
  function Percent(part: real, whole: real): (q: Number)
    ensures whole != 0.0 ==> q.Finite? && q.value * whole == 100.0 * part
    ensures whole == 0.0 && part > 0.0 ==> q == PosInfinity
    ensures whole == 0.0 && part < 0.0 ==> q == NegInfinity
    ensures whole == 0.0 && part == 0.0 ==> q == NaN
  {
    var d := Divide(part, whole);
    if whole != 0.0 then
      assert d.value * whole == part;
      assert d.value * 100.0 * whole == 100.0 * (d.value * whole);
      Scale(d, 100.0)
    else
      Scale(d, 100.0)
  }

  /** `value / (1 + inflation)^years`: the value in today's money. */
  function Deflate(value: real, inflation: real, years: nat): (v: real)
    requires 1.0 + inflation != 0.0
    ensures v * Pow(1.0 + inflation, years) == value
  {
    PowNonZero(1.0 + inflation, years);
    value / Pow(1.0 + inflation, years)
  }

  /** With no capital and no contributions (or no months) the balance is 0. */
  lemma NothingInvestedNothingGained(initial: real, monthly: real, r: real, n: nat)
    ensures initial == 0.0 && (monthly == 0.0 || n == 0) ==> Simulate(initial, r, monthly, n) == 0.0
  {
    SimulateSeparates(initial, r, monthly, n);
    if n > 0 && monthly == 0.0 {
      SimulateZeroContributions(r, n);
    }
  }

  lemma {:induction false} SimulateZeroContributions(r: real, n: nat)
    ensures Simulate(0.0, r, 0.0, n) == 0.0
  {
    if n > 0 {
      SimulateZeroContributions(r, n - 1);
    }
  }

  /** The inner `for (month = 1; month <= 12; month++)` loop shared by
      app.js:878-880 and app.js:915-917: twelve steps of the recurrence. */
  method GrowOneYear(balance: real, monthlyReturn: real, monthly: real) returns (grown: real)
    ensures grown == Simulate(balance, monthlyReturn, monthly, 12)
  {
    grown := balance;
    var month := 1;
    while month <= 12
      invariant 1 <= month <= 13
      invariant grown == Simulate(balance, monthlyReturn, monthly, month - 1)
    {
      grown := grown * (1.0 + monthlyReturn) + monthly;
      month := month + 1;
    }
  }

  /** One row of the yearly table (app.js:882-890). */
  datatype YearRow = YearRow(year: nat, totalInvested: real, balance: real, profit: real)

  /** `generateYearlyBreakdown` (app.js:869-896): twelve loop steps per year,
      one row per year, never restarting the balance. */
  method YearlyBreakdown(initial: real, monthly: real, monthlyReturn: real, years: nat) returns (rows: seq<YearRow>)
    ensures |rows| == years
    ensures forall y :: 0 <= y < years ==>
              rows[y].year == y + 1 &&
              rows[y].totalInvested == initial + monthly * 12.0 * (y + 1) as real &&
              rows[y].balance == Simulate(initial, monthlyReturn, monthly, 12 * (y + 1)) &&
              rows[y].profit == rows[y].balance - rows[y].totalInvested
  {
    rows := [];
    var balance := initial;
    var year := 1;
    while year <= years
      invariant 1 <= year <= years + 1
      invariant |rows| == year - 1
      invariant balance == Simulate(initial, monthlyReturn, monthly, 12 * (year - 1))
      invariant forall y :: 0 <= y < year - 1 ==>
                  rows[y].year == y + 1 &&
                  rows[y].totalInvested == initial + monthly * 12.0 * (y + 1) as real &&
                  rows[y].balance == Simulate(initial, monthlyReturn, monthly, 12 * (y + 1)) &&
                  rows[y].profit == rows[y].balance - rows[y].totalInvested
    {
      balance := GrowOneYear(balance, monthlyReturn, monthly);
      SimulateSplit(initial, monthlyReturn, monthly, 12 * (year - 1), 12);
      var totalInvested := initial + (monthly * 12.0 * year as real);
      var profit := balance - totalInvested;
      rows := rows + [YearRow(year, totalInvested, balance, profit)];
      year := year + 1;
    }
  }

  /** `updateInvestmentChart` (app.js:898-921): the points for year 0
      (the starting capital) through `years`, on the same recurrence. */
  method ChartSeries(initial: real, monthly: real, monthlyReturn: real, years: nat)
    returns (investedData: seq<real>, valueData: seq<real>)
    ensures |investedData| == |valueData| == years + 1
    ensures forall y :: 0 <= y <= years ==>
              investedData[y] == initial + monthly * 12.0 * y as real &&
              valueData[y] == Simulate(initial, monthlyReturn, monthly, 12 * y)
  {
    investedData, valueData := [], [];
    var balance := initial;
    var year := 0;
    while year <= years
      invariant 0 <= year <= years + 1
      invariant |investedData| == |valueData| == year
      invariant year > 0 ==> balance == Simulate(initial, monthlyReturn, monthly, 12 * (year - 1))
      invariant year == 0 ==> balance == initial
      invariant forall y :: 0 <= y < year ==>
                  investedData[y] == initial + monthly * 12.0 * y as real &&
                  valueData[y] == Simulate(initial, monthlyReturn, monthly, 12 * y)
    {
      if year == 0 {
        investedData, valueData := investedData + [initial], valueData + [initial];
      } else {
        balance := GrowOneYear(balance, monthlyReturn, monthly);
        SimulateSplit(initial, monthlyReturn, monthly, 12 * (year - 1), 12);
        investedData := investedData + [initial + (monthly * 12.0 * year as real)];
        valueData := valueData + [balance];
      }
      year := year + 1;
    }
  }
}
