/** The emergency-fund calculator of the form handler in app.js:763-815:
    months of cover by household status, the target, the shortage, the
    progress percentage and two monthly saving rates. */
module EmergencyFund {
  import opened Numbers

  /** The `switch (status)` of app.js:773-786. */
  function MonthsOfCover(status: string): (months: nat)
    ensures status == "single" ==> months == 6
    ensures status == "married" ==> months == 9
    ensures status == "family" ==> months == 12
    ensures status != "married" && status != "family" ==> months == 6
  {
    match status
    case "single" => 6
    case "married" => 9
    case "family" => 12
    case _ => 6
  }

  /** `Math.min(100, (currentSavings / target) * 100)` (app.js:790). */
  function ProgressPercent(currentSavings: nat, target: nat): (p: Number)
    ensures target > 0 ==> p.Finite? && 0.0 <= p.value <= 100.0
    ensures target > 0 ==> (p.value == 100.0 <==> currentSavings >= target)
    ensures target > 0 && currentSavings < target ==>
              p.value * target as real == 100.0 * currentSavings as real
    ensures target == 0 && currentSavings > 0 ==> p == Finite(100.0)
    ensures target == 0 && currentSavings == 0 ==> p == NaN
  {
    RatioBelowOne(currentSavings as real, target as real);
    Min(100.0, Scale(Divide(currentSavings as real, target as real), 100.0))
  }

  lemma RatioBelowOne(c: real, t: real)
    ensures t > 0.0 ==> (c / t * 100.0 < 100.0 <==> c < t)
  {
    if t <= 0.0 {
    } else if c < t {
      assert c / t * t == c;
      assert c / t < 1.0;
    } else {
      assert c / t * t == c;
      assert c / t >= 1.0;
    }
  }

  datatype Plan = Plan(target: nat, shortage: nat, percentage: Number, save12: real, save24: real)

  /** The calculation after the form is read: the target covers the chosen
      number of months, the shortage is what is still missing (never
      negative), and saving `save12` for twelve months or `save24` for
      twenty-four months closes it exactly. */
  function EmergencyPlan(monthlyExpense: nat, status: string, currentSavings: nat): (p: Plan)
    ensures p.target == monthlyExpense * MonthsOfCover(status)
    ensures p.shortage == 0 <==> currentSavings >= p.target
    ensures currentSavings < p.target ==> currentSavings + p.shortage == p.target
    ensures p.percentage == ProgressPercent(currentSavings, p.target)
    ensures 12.0 * p.save12 == p.shortage as real && 24.0 * p.save24 == p.shortage as real
  {
    var months := MonthsOfCover(status);
    var target := monthlyExpense * months;
    var shortage := if target - currentSavings > 0 then target - currentSavings else 0;
    Plan(target, shortage, ProgressPercent(currentSavings, target), shortage as real / 12.0, shortage as real / 24.0)
  }

  /** Whenever there is a target, the bar is full exactly when nothing is missing. */
  lemma FullExactlyWhenNoShortage(monthlyExpense: nat, status: string, currentSavings: nat)
    requires monthlyExpense > 0
    ensures var p := EmergencyPlan(monthlyExpense, status, currentSavings);
            p.percentage == Finite(100.0) <==> p.shortage == 0
  {
    var p := EmergencyPlan(monthlyExpense, status, currentSavings);
    assert p.target > 0;
  }

  /** More savings never lower the progress nor raise the shortage. */
  lemma MoreSavingsHelp(monthlyExpense: nat, status: string, s1: nat, s2: nat)
    requires s1 <= s2 && monthlyExpense > 0
    ensures EmergencyPlan(monthlyExpense, status, s2).shortage <= EmergencyPlan(monthlyExpense, status, s1).shortage
    ensures EmergencyPlan(monthlyExpense, status, s1).percentage.value <= EmergencyPlan(monthlyExpense, status, s2).percentage.value
  {
    var target := monthlyExpense * MonthsOfCover(status);
    assert target > 0;
    var q1, q2 := s1 as real / target as real, s2 as real / target as real;
    assert q1 <= q2;
  }

  /** A single household spending 5,000,000 a month with 10,000,000 saved. */
  lemma SingleHouseholdExample()
    ensures EmergencyPlan(5000000, "single", 10000000) ==
            Plan(30000000, 20000000, Finite(100.0 / 3.0), 20000000.0 / 12.0, 20000000.0 / 24.0)
  {
  }
}
