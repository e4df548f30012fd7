/** The dashboard figures computed from the ledger: the weekly income and
    expense cards and the all-time balance (app.js:603-629), the five most
    recent entries (app.js:631-633) and the Monday..Sunday bar series of the
    current week (app.js:683-705). */
module Dashboard {
  import opened Seqs
  import opened Calendar
  import opened Transactions

  function IsKind(kind: string): Transaction -> bool
  {
    (t: Transaction) => t.kind == kind
  }

  /** The income side (`true`) or the side of everything else (`false`). */
  function Side(income: bool): Transaction -> bool
  {
    (t: Transaction) => (t.kind == "income") == income
  }

  /** `.reduce((sum, t) => sum + t.amount, 0)`. */
  function SumAmounts(ts: seq<Transaction>): nat
  {
    if ts == [] then 0 else SumAmounts(ts[..|ts| - 1]) + ts[|ts| - 1].amount
  }

  lemma {:induction false} SumAmountsAppend(a: seq<Transaction>, b: seq<Transaction>)
    ensures SumAmounts(a + b) == SumAmounts(a) + SumAmounts(b)
    decreases |b|
  {
    if b == [] {
      assert a + b == a;
    } else {
      SumAmountsAppend(a, b[..|b| - 1]);
      assert (a + b)[..|a + b| - 1] == a + b[..|b| - 1];
    }
  }

  /** The sum over the entries typed exactly "income". */
  function IncomeTotal(ts: seq<Transaction>): nat
  {
    SumAmounts(Filter(ts, Side(true)))
  }

  /** The sum over the entries typed exactly "expense". */
  function ExpenseTotal(ts: seq<Transaction>): nat
  {
    SumAmounts(Filter(ts, IsKind("expense")))
  }

  /** The sum over every entry not typed "income". */
  function NonIncomeTotal(ts: seq<Transaction>): nat
  {
    SumAmounts(Filter(ts, Side(false)))
  }

  /** The balance card (app.js:614-616): income adds, anything else subtracts. */
  function Balance(ts: seq<Transaction>): int
  {
    if ts == [] then 0
    else
      var b := Balance(ts[..|ts| - 1]);
      var t := ts[|ts| - 1];
      if t.kind == "income" then b + t.amount else b - t.amount
  }

  lemma FilterSingle(t: Transaction, p: Transaction -> bool)
    ensures Filter([t], p) == if p(t) then [t] else []
  {
    assert [t][1..] == [];
  }

  /** The balance is all income minus everything that is not income. */
  lemma {:induction false} BalanceSplit(ts: seq<Transaction>)
    ensures Balance(ts) == IncomeTotal(ts) - NonIncomeTotal(ts)
    decreases |ts|
  {
    if ts != [] {
      var front, t := ts[..|ts| - 1], ts[|ts| - 1];
      assert ts == front + [t];
      BalanceSplit(front);
      FilterAppend(front, [t], Side(true));
      FilterAppend(front, [t], Side(false));
      FilterSingle(t, Side(true));
      FilterSingle(t, Side(false));
      SumAmountsAppend(Filter(front, Side(true)), Filter([t], Side(true)));
      SumAmountsAppend(Filter(front, Side(false)), Filter([t], Side(false)));
    }
  }

  /** Entries typed neither "income" nor "expense" reach the balance and the
      expense bars but not the expense card. */
  lemma {:induction false} ExpenseWithinNonIncome(ts: seq<Transaction>)
    ensures ExpenseTotal(ts) <= NonIncomeTotal(ts)
    ensures (forall i :: 0 <= i < |ts| ==> ts[i].kind == "income" || ts[i].kind == "expense") ==>
              ExpenseTotal(ts) == NonIncomeTotal(ts)
  {
    if ts != [] {
      var t, rest := ts[0], ts[1..];
      assert ts == [t] + rest;
      SumFilterCons(t, rest, IsKind("expense"));
      SumFilterCons(t, rest, Side(false));
      ExpenseWithinNonIncome(rest);
      if forall i :: 0 <= i < |ts| ==> ts[i].kind == "income" || ts[i].kind == "expense" {
        assert forall i :: 0 <= i < |rest| ==> rest[i].kind == "income" || rest[i].kind == "expense" by {
          forall i | 0 <= i < |rest| ensures rest[i].kind == "income" || rest[i].kind == "expense" {
            assert rest[i] == ts[i + 1];
          }
        }
      }
    }
  }

  /** The sum over a filtered list with one more entry in front. */
  lemma SumFilterCons(t: Transaction, rest: seq<Transaction>, p: Transaction -> bool)
    ensures SumAmounts(Filter([t] + rest, p)) == (if p(t) then t.amount else 0) + SumAmounts(Filter(rest, p))
  {
    FilterCons(t, rest, p);
    if p(t) {
      SumAmountsAppend([t], Filter(rest, p));
      assert SumAmounts([t]) == t.amount by {
        assert [t][..0] == [];
      }
    } else {
      assert [] + Filter(rest, p) == Filter(rest, p);
    }
  }

  /** With only "income" and "expense" entries, the balance is income minus expense. */
  lemma BalanceOfTypedLedger(ts: seq<Transaction>)
    requires forall i :: 0 <= i < |ts| ==> ts[i].kind == "income" || ts[i].kind == "expense"
    ensures Balance(ts) == IncomeTotal(ts) - ExpenseTotal(ts)
  {
    BalanceSplit(ts);
    ExpenseWithinNonIncome(ts);
  }

  lemma {:induction false} BalanceAppend(a: seq<Transaction>, b: seq<Transaction>)
    ensures Balance(a + b) == Balance(a) + Balance(b)
    decreases |b|
  {
    if b == [] {
      assert a + b == a;
    } else {
      BalanceAppend(a, b[..|b| - 1]);
      assert (a + b)[..|a + b| - 1] == a + b[..|b| - 1];
    }
  }

  /** The balance depends only on which entries are present, not on their order. */
  lemma {:induction false} BalancePermutation(a: seq<Transaction>, b: seq<Transaction>)
    requires multiset(a) == multiset(b)
    ensures Balance(a) == Balance(b)
    decreases |a|
  {
    if a == [] {
      assert |b| == |multiset(b)| == 0;
    } else {
      var front, x := a[..|a| - 1], a[|a| - 1];
      assert x in multiset(b) by {
        assert x in a;
      }
      var j :| 0 <= j < |b| && b[j] == x;
      var rest := b[..j] + b[j + 1..];
      assert Balance(a) == Balance(front) + Balance([x]) by {
        assert a == front + [x];
        BalanceAppend(front, [x]);
      }
      assert Balance(b) == Balance(rest) + Balance([x]) by {
        RemoveOneAmount(b[..j], x, b[j + 1..]);
        assert b == b[..j] + [x] + b[j + 1..];
      }
      assert multiset(front) == multiset(rest) by {
        RemoveOneCopy(b, j);
        assert a == front + [x];
        assert multiset(front) == multiset(a) - multiset{x};
      }
      BalancePermutation(front, rest);
    }
  }

  /** Taking out the entry at `j` removes exactly one copy of it... */
  lemma RemoveOneCopy(b: seq<Transaction>, j: nat)
    requires j < |b|
    ensures multiset(b[..j] + b[j + 1..]) == multiset(b) - multiset{b[j]}
  {
    var left, x, right := b[..j], b[j], b[j + 1..];
    assert b == left + [x] + right;
    assert multiset(b) == multiset(left + [x]) + multiset(right);
  }

  /** ...and exactly its contribution to the balance. */
  lemma RemoveOneAmount(left: seq<Transaction>, x: Transaction, right: seq<Transaction>)
    ensures Balance(left + [x] + right) == Balance(left + right) + Balance([x])
  {
    BalanceAppend(left + [x], right);
    BalanceAppend(left, [x]);
    BalanceAppend(left, right);
  }

  // ---------------------------------------------------------------------------
  // The recent list: `[...transactions].sort((a, b) => new Date(b.date) - new Date(a.date)).slice(0, 5)`

  predicate SortedByDateDesc(s: seq<Transaction>)
  {
    forall i, j :: 0 <= i < j < |s| ==> s[i].date >= s[j].date
  }

  lemma LaterHeadSorted(h: Transaction, s: seq<Transaction>)
    requires SortedByDateDesc(s)
    requires forall y :: y in s ==> y.date <= h.date
    ensures SortedByDateDesc([h] + s)
  {
    forall i, j | 0 <= i < j < |[h] + s| ensures ([h] + s)[i].date >= ([h] + s)[j].date {
      if i > 0 {
        assert ([h] + s)[i] == s[i - 1];
      }
      assert ([h] + s)[j] == s[j - 1];
    }
  }

  /** Puts `x` before the first entry that is not later than it. */
  function InsertByDate(x: Transaction, s: seq<Transaction>): (r: seq<Transaction>)
    ensures multiset(r) == multiset(s) + multiset{x}
    ensures |r| == |s| + 1
  {
    if s == [] || s[0].date <= x.date then [x] + s
    else
      assert s == [s[0]] + s[1..];
      [s[0]] + InsertByDate(x, s[1..])
  }

  /** Inserting into a latest-first list keeps it latest first. */
  lemma {:induction false} InsertKeepsSorted(x: Transaction, s: seq<Transaction>)
    requires SortedByDateDesc(s)
    ensures SortedByDateDesc(InsertByDate(x, s))
  {
    if s == [] || s[0].date <= x.date {
      forall y | y in s ensures y.date <= x.date {
        var k :| 0 <= k < |s| && s[k] == y;
        assert s[0].date >= s[k].date;
      }
      LaterHeadSorted(x, s);
    } else {
      var rest := InsertByDate(x, s[1..]);
      InsertKeepsSorted(x, s[1..]);
      InsertBelowHead(x, s, rest);
      LaterHeadSorted(s[0], rest);
    }
  }

  /** Every entry of the insertion into the tail is dated no later than the head. */
  lemma InsertBelowHead(x: Transaction, s: seq<Transaction>, rest: seq<Transaction>)
    requires SortedByDateDesc(s) && s != [] && x.date < s[0].date
    requires multiset(rest) == multiset(s[1..]) + multiset{x}
    ensures forall y :: y in rest ==> y.date <= s[0].date
  {
    forall y | y in rest ensures y.date <= s[0].date {
      assert y in multiset(rest);
      if y != x {
        assert y in multiset(s[1..]);
        var k :| 0 <= k < |s[1..]| && s[1..][k] == y;
        assert s[k + 1] == y;
      }
    }
  }

  /** A stable sort by date, latest first (an insertion sort; a stable sort's
      result is determined by the comparison, whatever algorithm the engine uses). */
  function SortByDateDesc(ts: seq<Transaction>): (r: seq<Transaction>)
    ensures SortedByDateDesc(r)
    ensures multiset(r) == multiset(ts)
    ensures |r| == |ts|
  {
    if ts == [] then []
    else
      assert ts == [ts[0]] + ts[1..];
      InsertKeepsSorted(ts[0], SortByDateDesc(ts[1..]));
      InsertByDate(ts[0], SortByDateDesc(ts[1..]))
  }

  function DatedOn(d: int): Transaction -> bool
  {
    (t: Transaction) => t.date == d
  }

  lemma {:induction false} InsertStable(x: Transaction, s: seq<Transaction>, d: int)
    ensures Filter(InsertByDate(x, s), DatedOn(d)) == (if x.date == d then [x] else []) + Filter(s, DatedOn(d))
  {
    if s == [] || s[0].date <= x.date {
      FilterCons(x, s, DatedOn(d));
    } else {
      var rest := InsertByDate(x, s[1..]);
      var xs, hs := (if x.date == d then [x] else []), (if s[0].date == d then [s[0]] else []);
      assert Filter(rest, DatedOn(d)) == xs + Filter(s[1..], DatedOn(d)) by {
        InsertStable(x, s[1..], d);
      }
      assert Filter(InsertByDate(x, s), DatedOn(d)) == hs + Filter(rest, DatedOn(d)) by {
        FilterCons(s[0], rest, DatedOn(d));
      }
      assert Filter(s, DatedOn(d)) == hs + Filter(s[1..], DatedOn(d)) by {
        assert s == [s[0]] + s[1..];
        FilterCons(s[0], s[1..], DatedOn(d));
      }
      assert xs == [] || hs == [] by {
        if x.date == d {
          assert s[0].date != d;
        }
      }
      FilterSwap(xs, hs, Filter(s[1..], DatedOn(d)));
    }
  }

  /** At most one of two filtered heads is non-empty, so their order does not matter. */
  lemma FilterSwap(xs: seq<Transaction>, hs: seq<Transaction>, f: seq<Transaction>)
    requires xs == [] || hs == []
    ensures hs + (xs + f) == xs + (hs + f)
  {
    if xs == [] {
      assert xs + f == f;
      assert xs + (hs + f) == hs + f;
    } else {
      assert hs + (xs + f) == xs + f;
      assert hs + f == f;
    }
  }

  /** Stability: entries with equal dates keep their ledger order. */
  lemma {:induction false} SortStable(ts: seq<Transaction>, d: int)
    ensures Filter(SortByDateDesc(ts), DatedOn(d)) == Filter(ts, DatedOn(d))
  {
    if ts != [] {
      SortStable(ts[1..], d);
      InsertStable(ts[0], SortByDateDesc(ts[1..]), d);
    }
  }

  /** The first `n` entries of `ts` sorted latest first hold every copy of
      every entry of `ts` that is later than one of them. */
  lemma SortedPrefixIsLatest(ts: seq<Transaction>, s: seq<Transaction>, n: nat)
    requires SortedByDateDesc(s) && multiset(s) == multiset(ts) && n <= |s|
    ensures forall t: Transaction, i :: 0 <= i < n && t.date > s[..n][i].date ==> multiset(s[..n])[t] == multiset(ts)[t]
  {
    forall t: Transaction, i | 0 <= i < n && t.date > s[..n][i].date ensures multiset(s[..n])[t] == multiset(ts)[t] {
      assert s == s[..n] + s[n..];
      assert s[..n][i] == s[i];
      forall k | 0 <= k < |s[n..]| ensures s[n..][k] != t {
        assert s[n..][k] == s[n + k];
        assert s[i].date >= s[n + k].date;
      }
      assert t !in multiset(s[n..]);
    }
  }

  lemma SortedPrefix(ts: seq<Transaction>, s: seq<Transaction>, n: nat)
    requires SortedByDateDesc(s) && multiset(s) == multiset(ts) && n <= |s|
    ensures SortedByDateDesc(s[..n])
    ensures multiset(s[..n]) <= multiset(ts)
  {
    assert s == s[..n] + s[n..];
  }

  /** `renderRecentTransactions`' list: at most five entries of the ledger,
      latest first, and every copy of an entry later than one shown is shown.  Among
      entries of one date, those shown are the first of that date in ledger
      order, in that order (the stable sort, then the slice). */
  function RecentTransactions(ts: seq<Transaction>): (r: seq<Transaction>)
    ensures |r| == if |ts| < 5 then |ts| else 5
    ensures SortedByDateDesc(r)
    ensures multiset(r) <= multiset(ts)
    ensures forall t: Transaction, i :: 0 <= i < |r| && t.date > r[i].date ==> multiset(r)[t] == multiset(ts)[t]
    ensures forall d :: Filter(r, DatedOn(d)) <= Filter(ts, DatedOn(d))
  {
    var s := SortByDateDesc(ts);
    var n := if |s| < 5 then |s| else 5;
    assert SortedByDateDesc(s[..n]) && multiset(s[..n]) <= multiset(ts) by {
      SortedPrefix(ts, s, n);
    }
    assert forall t: Transaction, i :: 0 <= i < n && t.date > s[..n][i].date ==> multiset(s[..n])[t] == multiset(ts)[t] by {
      SortedPrefixIsLatest(ts, s, n);
    }
    assert forall d :: Filter(s[..n], DatedOn(d)) <= Filter(ts, DatedOn(d)) by {
      forall d ensures Filter(s[..n], DatedOn(d)) <= Filter(ts, DatedOn(d)) {
        PrefixOfSortedDate(ts, n, d);
      }
    }
    s[..n]
  }

  /** A prefix of the sorted ledger holds, for each date, a prefix of that
      date's entries in ledger order. */
  lemma PrefixOfSortedDate(ts: seq<Transaction>, n: nat, d: int)
    requires n <= |ts|
    ensures Filter(SortByDateDesc(ts)[..n], DatedOn(d)) <= Filter(ts, DatedOn(d))
  {
    var s := SortByDateDesc(ts);
    SortStable(ts, d);
    FilterSplit(s, n, DatedOn(d));
    PrefixOfAppend(Filter(s[..n], DatedOn(d)), Filter(s[n..], DatedOn(d)));
  }

  // ---------------------------------------------------------------------------
  // The weekly bars (app.js:683-705)

  /** `date.getDay() - 1`, with Sunday moved to 6: Monday 0 .. Sunday 6. */
  function DayIndex(date: int): (i: int)
    ensures 0 <= i < 7
    ensures GetDay(date) == (i + 1) % 7
  {
    var i := GetDay(date) - 1;
    if i < 0 then 6 else i
  }

  /** Within any Monday-start week the bar index is the number of days since Monday. */
  lemma DayIndexInWeek(offset: int, today: int, date: int)
    requires Contains(GetWeekRange(offset, today), date)
    ensures DayIndex(date) == date - GetWeekRange(offset, today).start
  {
    var s := GetWeekRange(offset, today).start;
    var k := date - s;
    assert (date + 4) % 7 == ((s + 4) + k) % 7;
  }

  /** The seven bars after adding the entries of `ts` in order: the income
      bars when `income`, the expense bars (every non-income entry) otherwise. */
  function DayTotals(ts: seq<Transaction>, income: bool): (b: seq<int>)
    ensures |b| == 7
  {
    if ts == [] then [0, 0, 0, 0, 0, 0, 0]
    else
      var b := DayTotals(ts[..|ts| - 1], income);
      var t := ts[|ts| - 1];
      var i := DayIndex(t.date);
      if (t.kind == "income") == income then b[i := b[i] + t.amount] else b
  }

  function InBucket(j: int, income: bool): Transaction -> bool
  {
    (t: Transaction) => DayIndex(t.date) == j && (t.kind == "income") == income
  }

  /** Each bar holds the amounts of exactly the entries of its weekday and side. */
  lemma {:induction false} DayTotalsAt(ts: seq<Transaction>, income: bool, j: int)
    requires 0 <= j < 7
    ensures DayTotals(ts, income)[j] == SumAmounts(Filter(ts, InBucket(j, income)))
    decreases |ts|
  {
    if ts != [] {
      var front, t := ts[..|ts| - 1], ts[|ts| - 1];
      var added := if InBucket(j, income)(t) then t.amount else 0;
      assert ts == front + [t];
      assert DayTotals(ts, income)[j] == DayTotals(front, income)[j] + added by {
        DayTotalsSnoc(front, t, income);
      }
      assert SumAmounts(Filter(ts, InBucket(j, income))) == SumAmounts(Filter(front, InBucket(j, income))) + added by {
        SumFilterSnoc(front, t, InBucket(j, income));
      }
      DayTotalsAt(front, income, j);
    }
  }

  /** The income bars add up to the income total; the expense bars to the
      total of every entry that is not income. */
  lemma {:induction false} DayTotalsSum(ts: seq<Transaction>, income: bool)
    ensures Total(DayTotals(ts, income)) == SumAmounts(Filter(ts, Side(income)))
    decreases |ts|
  {
    if ts == [] {
      assert Total([0, 0, 0, 0, 0, 0, 0]) == 0;
    } else {
      var front, t := ts[..|ts| - 1], ts[|ts| - 1];
      var b, f := DayTotals(front, income), Filter(front, Side(income));
      var added := if (t.kind == "income") == income then t.amount else 0;
      assert ts == front + [t];
      assert Total(DayTotals(ts, income)) == Total(b) + added by {
        DayTotalsSnoc(front, t, income);
        if (t.kind == "income") == income {
          TotalUpdate(b, DayIndex(t.date), t.amount);
        }
      }
      assert SumAmounts(Filter(ts, Side(income))) == SumAmounts(f) + added by {
        SumFilterSnoc(front, t, Side(income));
      }
      DayTotalsSum(front, income);
    }
  }

  /** The sum over the entries passing `p` grows by the amount of a passing last entry. */
  lemma SumFilterSnoc(front: seq<Transaction>, t: Transaction, p: Transaction -> bool)
    ensures SumAmounts(Filter(front + [t], p)) == SumAmounts(Filter(front, p)) + (if p(t) then t.amount else 0)
  {
    FilterAppend(front, [t], p);
    FilterSingle(t, p);
    SumAmountsAppend(Filter(front, p), Filter([t], p));
    assert SumAmounts([t]) == t.amount by {
      assert [t][..0] == [];
    }
  }

  /** Adding one more entry touches at most the bar of its weekday on its
      side.  This unfolds `DayTotals` once; the statement that no other bar
      changes is what `AddToBars` uses to show its in-place update right. */
  lemma DayTotalsSnoc(ts: seq<Transaction>, t: Transaction, income: bool)
    ensures DayTotals(ts + [t], income) ==
              var b, i := DayTotals(ts, income), DayIndex(t.date);
              if (t.kind == "income") == income then b[i := b[i] + t.amount] else b
  {
    assert (ts + [t])[..|ts + [t]| - 1] == ts;
  }

  /** `updateWeeklyChart`'s loop (app.js:690-705): two arrays of seven
      zeros, and each entry adds its amount to the bar of its weekday, on the
      income side when typed "income" and on the expense side otherwise. */
  method AddUpByWeekday(week: seq<Transaction>) returns (income: seq<int>, expense: seq<int>)
    ensures income == DayTotals(week, true)
    ensures expense == DayTotals(week, false)
  {
    var incomeData := new int[7](_ => 0);
    var expenseData := new int[7](_ => 0);
    var i := 0;
    while i < |week|
      invariant 0 <= i <= |week|
      invariant incomeData[..] == DayTotals(week[..i], true)
      invariant expenseData[..] == DayTotals(week[..i], false)
    {
      AddToBars(incomeData, expenseData, week[i], week[..i]);
      assert week[..i + 1] == week[..i] + [week[i]];
      i := i + 1;
    }
    assert week[..i] == week;
    income, expense := incomeData[..], expenseData[..];
  }

  /** The body of the `forEach` (app.js:696-704) for one entry `t`, after the
      entries `before` have been added. */
  method AddToBars(incomeData: array<int>, expenseData: array<int>, t: Transaction, ghost before: seq<Transaction>)
    requires incomeData != expenseData
    requires incomeData[..] == DayTotals(before, true) && expenseData[..] == DayTotals(before, false)
    modifies incomeData, expenseData
    ensures incomeData[..] == DayTotals(before + [t], true)
    ensures expenseData[..] == DayTotals(before + [t], false)
  {
    var dayIndex := GetDay(t.date) - 1;
    if dayIndex < 0 {
      dayIndex := 6;
    }
    assert dayIndex == DayIndex(t.date);
    ghost var bi, be := incomeData[..], expenseData[..];
    DayTotalsSnoc(before, t, true);
    DayTotalsSnoc(before, t, false);
    if t.kind == "income" {
      incomeData[dayIndex] := incomeData[dayIndex] + t.amount;
      assert incomeData[..] == bi[dayIndex := bi[dayIndex] + t.amount];
      assert expenseData[..] == be;
    } else {
      expenseData[dayIndex] := expenseData[dayIndex] + t.amount;
      assert expenseData[..] == be[dayIndex := be[dayIndex] + t.amount];
      assert incomeData[..] == bi;
    }
  }

  /** The bar series of `updateWeeklyChart` on day `today`: the bars of the
      current week, the income bars adding up to the income card's total and
      the expense bars to the total of every non-income entry. */
  method WeeklySeries(ts: seq<Transaction>, today: int) returns (income: seq<int>, expense: seq<int>)
    ensures income == DayTotals(WeekTransactions(ts, 0, today), true)
    ensures expense == DayTotals(WeekTransactions(ts, 0, today), false)
    ensures Total(income) == IncomeTotal(WeekTransactions(ts, 0, today))
    ensures Total(expense) == NonIncomeTotal(WeekTransactions(ts, 0, today))
  {
    var week := WeekTransactions(ts, 0, today);
    income, expense := AddUpByWeekday(week);
    DayTotalsSum(week, true);
    DayTotalsSum(week, false);
  }

  /** The three cards of `updateDashboard`. */
  datatype Cards = Cards(weekIncome: nat, weekExpense: nat, balance: int)

  /** `updateDashboard` on day `today`: the income card sums this week's
      entries typed exactly "income" and matches the sum of the income bars;
      the expense card sums this week's entries typed exactly "expense" and
      never exceeds the sum of the expense bars; the balance is all income
      minus everything else. */
  function UpdateDashboard(ts: seq<Transaction>, today: int): (c: Cards)
    ensures c.weekIncome == IncomeTotal(WeekTransactions(ts, 0, today))
    ensures c.weekExpense == ExpenseTotal(WeekTransactions(ts, 0, today))
    ensures c.weekIncome == Total(DayTotals(WeekTransactions(ts, 0, today), true))
    ensures c.weekExpense <= Total(DayTotals(WeekTransactions(ts, 0, today), false))
    ensures c.balance == IncomeTotal(ts) - NonIncomeTotal(ts)
  {
    var week := WeekTransactions(ts, 0, today);
    DayTotalsSum(week, true);
    DayTotalsSum(week, false);
    ExpenseWithinNonIncome(week);
    BalanceSplit(ts);
    Cards(IncomeTotal(week), ExpenseTotal(week), Balance(ts))
  }
}
