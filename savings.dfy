/** The savings summary: totals over a date window, needs and wants by
    super-category, guarded ratios against a rule triple, gaps, pass/fail
    status texts and monthly averages. */
module Savings {
  import opened Wrappers
  import opened Categorize
  import opened Filtering
  import Dates

  /** The single rule triple: desired ratios relative to total credit. */
  datatype Rules = Rules(savings: real, needs: real, wants: real)

  datatype Error =
    | EmptyDataset        // max()/min() of the dates of an empty table
    | ZeroLengthWindow    // the monthly averages divide by a day count of 0
    | StrptimeOnTimestamp // strptime given a date value instead of a string

  datatype Dimension = Dimension(amount: int, threshold: real, percentage: real,
                                 gap: real, status: string, averagePerMonth: real)

  datatype Summary = Summary(totalCredit: int, totalDebit: int,
                             averageCreditPerMonth: real, averageDebitPerMonth: real,
                             savings: Dimension, needs: Dimension, wants: Dimension)

  const SavingsAbove: string := "Great! Your Savings are Above Threshold"
  const SavingsBelow: string := "Uh-ho! Your Savings Got Below the threshold"
  const ExpenseBelow: string := "Great! Your Expense is Below the Threshold"
  const ExpenseAbove: string := "Uh-ho! Your Expense is above the Threshold"

  // ---- Sums ----

  /** The sum of the AMOUNT column. */
  function Total(s: seq<Record>): int {
    if s == [] then 0 else s[0].row.amount + Total(s[1..])
  }

  predicate IsCredit(r: Record) { r.row.txType == Credit }
  predicate IsDebit(r: Record) { r.row.txType == Debit }
  predicate IsNeeds(r: Record) { r.superCategory == Needs }
  predicate IsWants(r: Record) { r.superCategory == Wants }
  predicate IsOtherDebit(r: Record) { IsDebit(r) && r.superCategory == Other }

  /** The amount of every record, counted when it satisfies p and as 0
      otherwise: a reference for "select, then sum". */
  function SumIf(s: seq<Record>, p: Record -> bool): int {
    if s == [] then 0 else (if p(s[0]) then s[0].row.amount else 0) + SumIf(s[1..], p)
  }

  /** Summing the selected rows is summing the amounts that satisfy p. */
  lemma {:induction false} TotalWhere(s: seq<Record>, p: Record -> bool)
    ensures Total(Where(s, p)) == SumIf(s, p)
    decreases |s|
  {
    if s != [] {
      TotalWhere(s[1..], p);
      if p(s[0]) {
        assert Where(s, p)[1..] == Where(s[1..], p);
      }
    }
  }

  function CreditTotal(s: seq<Record>): (n: int)
    ensures n == SumIf(s, IsCredit)
  {
    TotalWhere(s, IsCredit);
    Total(Where(s, IsCredit))
  }

  function DebitTotal(s: seq<Record>): (n: int)
    ensures n == SumIf(s, IsDebit)
  {
    TotalWhere(s, IsDebit);
    Total(Where(s, IsDebit))
  }

  function NeedsTotal(s: seq<Record>): (n: int)
    ensures n == SumIf(s, IsNeeds)
  {
    TotalWhere(s, IsNeeds);
    Total(Where(s, IsNeeds))
  }

  function WantsTotal(s: seq<Record>): (n: int)
    ensures n == SumIf(s, IsWants)
  {
    TotalWhere(s, IsWants);
    Total(Where(s, IsWants))
  }

  function OtherDebitTotal(s: seq<Record>): (n: int)
    ensures n == SumIf(s, IsOtherDebit)
  {
    TotalWhere(s, IsOtherDebit);
    Total(Where(s, IsOtherDebit))
  }

  /** Every debit of a labelled table is counted once: as a need, as a want
      or as an unlisted (Other) debit. */
  lemma {:induction false} DebitSplit(s: seq<Record>)
    requires IsLabelled(s)
    ensures NeedsTotal(s) + WantsTotal(s) + OtherDebitTotal(s) == DebitTotal(s)
    decreases |s|
  {
    if s != [] {
      assert IsLabelled(s[1..]) by {
        forall i | 0 <= i < |s[1..]|
          ensures s[1..][i].superCategory == Classify(s[1..][i].row.txType, s[1..][i].row.category)
        {
          assert s[1..][i] == s[i + 1];
        }
      }
      DebitSplit(s[1..]);
      assert s[0].superCategory == Classify(s[0].row.txType, s[0].row.category);
    }
  }

  /** The needs and wants sums do not filter on Debit, but in a labelled
      table they equal the sums over its debits. */
  lemma NeedsAndWantsAreDebits(s: seq<Record>)
    requires IsLabelled(s)
    ensures NeedsTotal(s) == Total(Where(Where(s, IsDebit), IsNeeds))
    ensures WantsTotal(s) == Total(Where(Where(s, IsDebit), IsWants))
  {
    forall x | x in s
      ensures IsNeeds(x) == And(IsDebit, IsNeeds)(x) && IsWants(x) == And(IsDebit, IsWants)(x)
    {
      var i :| 0 <= i < |s| && s[i] == x;
    }
    WhereFusion(s, IsDebit, IsNeeds);
    WhereExt(s, IsNeeds, And(IsDebit, IsNeeds));
    WhereFusion(s, IsDebit, IsWants);
    WhereExt(s, IsWants, And(IsDebit, IsWants));
  }

  // ---- The analysis window ----

  function MaxDate(s: seq<Record>): (d: int)
    requires s != []
    ensures forall x :: x in s ==> x.row.date <= d
    ensures exists x :: x in s && x.row.date == d
  {
    if |s| == 1 then s[0].row.date
    else
      var rest := MaxDate(s[1..]);
      if s[0].row.date >= rest then s[0].row.date else rest
  }

  function MinDate(s: seq<Record>): (d: int)
    requires s != []
    ensures forall x :: x in s ==> d <= x.row.date
    ensures exists x :: x in s && x.row.date == d
  {
    if |s| == 1 then s[0].row.date
    else
      var rest := MinDate(s[1..]);
      if s[0].row.date <= rest then s[0].row.date else rest
  }

  /** The (start, end) window: the given bounds when both are present;
      otherwise start is the latest and end the earliest date of the
      filtered records, and there is none to take for an empty table. */
  function Window(filtered: seq<Record>, start: Option<int>, end: Option<int>): (r: Result<(int, int), Error>)
    ensures start.Some? && end.Some? ==> r == Ok((start.value, end.value))
    ensures !(start.Some? && end.Some?) ==> (r.Err? <==> filtered == [])
    ensures r.Err? ==> r.error == EmptyDataset
    ensures !(start.Some? && end.Some?) && r.Ok? ==>
      (forall x :: x in filtered ==> r.value.1 <= x.row.date <= r.value.0)
      && (exists x :: x in filtered && x.row.date == r.value.0)
      && (exists x :: x in filtered && x.row.date == r.value.1)
  {
    if start.Some? && end.Some? then Ok((start.value, end.value))
    else if filtered == [] then Err(EmptyDataset)
    else Ok((MaxDate(filtered), MinDate(filtered)))
  }

  /** no_of_days: the whole days from start to end. */
  function Days(window: (int, int)): int {
    window.1 - window.0
  }

  /** For windows given as calendar dates, the day count is the whole-day
      difference of the two dates. */
  lemma DaysAreDaysBetween(start: Dates.Date, end: Dates.Date)
    requires Dates.IsValid(start) && Dates.IsValid(end)
    ensures Days((Dates.Ordinal(start), Dates.Ordinal(end))) == Dates.DaysBetween(start, end)
    ensures Dates.Before(start, end) ==> Days((Dates.Ordinal(start), Dates.Ordinal(end))) > 0
  {
  }

  /** The default window runs backwards: its day count is never positive,
      and it is 0 exactly when every record falls on the same day. */
  lemma DefaultWindowNonPositive(filtered: seq<Record>, start: Option<int>, end: Option<int>)
    requires start.None? || end.None?
    requires filtered != []
    ensures Window(filtered, start, end).Ok?
    ensures Days(Window(filtered, start, end).value) <= 0
    ensures Days(Window(filtered, start, end).value) == 0 <==>
      forall x, y :: x in filtered && y in filtered ==> x.row.date == y.row.date
  {
    var w := Window(filtered, start, end).value;
    var hi :| hi in filtered && hi.row.date == w.0;
    var lo :| lo in filtered && lo.row.date == w.1;
  }

  /** Explicit bounds in order give a non-negative day count. */
  lemma ExplicitWindowNonNegative(filtered: seq<Record>, start: int, end: int)
    requires start <= end
    ensures Window(filtered, Some(start), Some(end)) == Ok((start, end))
    ensures Days(Window(filtered, Some(start), Some(end)).value) >= 0
  {
  }

  // ---- Ratios, status and averages ----

  /** A ratio to total credit, 0 when there is no positive credit. */
  function Rate(amount: int, totalCredit: int): (r: real)
    ensures totalCredit > 0 ==> r * totalCredit as real == amount as real
    ensures totalCredit <= 0 ==> r == 0.0
  {
    if totalCredit > 0 then amount as real / totalCredit as real else 0.0
  }

  /** (amount / days) * 30; there is no value for a day count of 0. */
  function MonthlyAverage(amount: int, days: int): (r: real)
    requires days != 0
    ensures r * days as real == 30.0 * amount as real
  {
    (amount as real / days as real) * 30.0
  }

  function SavingsStatus(rate: real, rule: real): (s: string)
    ensures s == SavingsAbove <==> rate >= rule
    ensures s == SavingsBelow <==> rate < rule
  {
    if rate >= rule then SavingsAbove else SavingsBelow
  }

  function ExpenseStatus(rate: real, rule: real): (s: string)
    ensures s == ExpenseBelow <==> rate <= rule
    ensures s == ExpenseAbove <==> rate > rule
  {
    if rate <= rule then ExpenseBelow else ExpenseAbove
  }

  /** What a dimension of a summary promises about its numbers. */
  predicate Measures(d: Dimension, totalCredit: int, rule: real, days: int) {
    && d.threshold == rule
    && (totalCredit > 0 ==> d.percentage * totalCredit as real == d.amount as real)
    && (totalCredit <= 0 ==> d.percentage == 0.0)
    && d.gap + d.percentage == rule
    && d.averagePerMonth * days as real == 30.0 * d.amount as real
  }

  /** One dimension of the summary: its amount, the rule, the guarded ratio,
      the gap rule - ratio, and the monthly average. */
  function Assess(amount: int, totalCredit: int, rule: real, status: string, days: int): (d: Dimension)
    requires days != 0
    ensures d.amount == amount && d.status == status
    ensures Measures(d, totalCredit, rule, days)
  {
    var rate := Rate(amount, totalCredit);
    Dimension(amount, rule, rate, rule - rate, status, MonthlyAverage(amount, days))
  }

  /** The computation after the window is fixed (the body of get_savings
      after it has the day count): an error for a zero-day window, the
      summary otherwise. */
  function Summarize(filtered: seq<Record>, days: int, rules: Rules): (r: Result<Summary, Error>)
    ensures r.Err? <==> days == 0
    ensures r.Err? ==> r.error == ZeroLengthWindow
    ensures r.Ok? ==> var v := r.value;
      && v.totalCredit == CreditTotal(filtered)
      && v.totalDebit == DebitTotal(filtered)
      && v.savings.amount == v.totalCredit - v.totalDebit
      && v.needs.amount == NeedsTotal(filtered)
      && v.wants.amount == WantsTotal(filtered)
      && v.averageCreditPerMonth * days as real == 30.0 * v.totalCredit as real
      && v.averageDebitPerMonth * days as real == 30.0 * v.totalDebit as real
      && Measures(v.savings, v.totalCredit, rules.savings, days)
      && Measures(v.needs, v.totalCredit, rules.needs, days)
      && Measures(v.wants, v.totalCredit, rules.wants, days)
      && (v.savings.status == SavingsAbove <==> v.savings.percentage >= rules.savings)
      && (v.savings.status == SavingsBelow <==> v.savings.percentage < rules.savings)
      && (v.needs.status == ExpenseBelow <==> v.needs.percentage <= rules.needs)
      && (v.needs.status == ExpenseAbove <==> v.needs.percentage > rules.needs)
      && (v.wants.status == ExpenseBelow <==> v.wants.percentage <= rules.wants)
      && (v.wants.status == ExpenseAbove <==> v.wants.percentage > rules.wants)
  {
    if days == 0 then Err(ZeroLengthWindow)
    else
      var credit := CreditTotal(filtered);
      var debit := DebitTotal(filtered);
      var savings := credit - debit;
      var needs := NeedsTotal(filtered);
      var wants := WantsTotal(filtered);
      var savingsRate := Rate(savings, credit);
      var needsRate := Rate(needs, credit);
      var wantsRate := Rate(wants, credit);
      Ok(Summary(credit, debit, MonthlyAverage(credit, days), MonthlyAverage(debit, days),
                 Assess(savings, credit, rules.savings, SavingsStatus(savingsRate, rules.savings), days),
                 Assess(needs, credit, rules.needs, ExpenseStatus(needsRate, rules.needs), days),
                 Assess(wants, credit, rules.wants, ExpenseStatus(wantsRate, rules.wants), days)))
  }

  /** get_savings on date values: filter by the window when both bounds are
      given, resolve the window, then summarize. */
  function GetSavings(table: seq<Record>, start: Option<int>, end: Option<int>, rules: Rules): (r: Result<Summary, Error>)
    ensures (start.None? || end.None?) ==> (r == Err(EmptyDataset) <==> table == [])
    ensures start.Some? && end.Some? ==> (r.Err? <==> start.value == end.value)
    ensures (start.None? || end.None?) && table != [] ==> (r.Err? <==> MaxDate(table) == MinDate(table))
    ensures r.Err? ==>
      r.error == (if (start.None? || end.None?) && table == [] then EmptyDataset else ZeroLengthWindow)
    ensures r.Ok? ==>
      r == Summarize(Select(table, Criteria(start, end, None, None)),
                     Days(Window(Select(table, Criteria(start, end, None, None)), start, end).value), rules)
  {
    ByDateIsSelect(table, start, end);
    var filtered := ByDate(table, start, end);
    match Window(filtered, start, end)
    case Err(e) => Err(e)
    case Ok(w) => Summarize(filtered, Days(w), rules)
  }

  /** The date step of the chain is the date-only selection. */
  lemma ByDateIsSelect(table: seq<Record>, start: Option<int>, end: Option<int>)
    ensures ByDate(table, start, end) == Select(table, Criteria(start, end, None, None))
  {
    var c := Criteria(start, end, None, None);
    if start.Some? && end.Some? {
      WhereExt(table, r => InRange(start.value, end.value, r), MatchFn(c));
    } else {
      WhereAll(table, MatchFn(c));
    }
  }

  /** In a labelled table, needs, wants and the unlisted debits of the
      window add up to its total debit. */
  lemma SummaryDebitSplit(table: seq<Record>, start: Option<int>, end: Option<int>, rules: Rules)
    requires IsLabelled(table)
    requires GetSavings(table, start, end, rules).Ok?
    ensures var v := GetSavings(table, start, end, rules).value;
      v.needs.amount + v.wants.amount + OtherDebitTotal(Select(table, Criteria(start, end, None, None)))
        == v.totalDebit
  {
    WhereKeepsLabels(table, MatchFn(Criteria(start, end, None, None)));
    DebitSplit(Select(table, Criteria(start, end, None, None)));
  }

  /** With a bound missing and two records on different days, the summary is
      computed, over the backwards window, with a negative day count. */
  lemma DefaultWindowComputes(table: seq<Record>, start: Option<int>, end: Option<int>, rules: Rules, i: int, j: int)
    requires start.None? || end.None?
    requires 0 <= i < |table| && 0 <= j < |table| && table[i].row.date != table[j].row.date
    ensures GetSavings(table, start, end, rules).Ok?
    ensures Days(Window(table, start, end).value) < 0
  {
    NoDateSelectIsIdentity(table, start, end);
    DefaultWindowNonPositive(table, start, end);
    assert table[i] in table && table[j] in table;
  }

  lemma NoDateSelectIsIdentity(table: seq<Record>, start: Option<int>, end: Option<int>)
    requires start.None? || end.None?
    ensures Select(table, Criteria(start, end, None, None)) == table
  {
    WhereAll(table, MatchFn(Criteria(start, end, None, None)));
  }

  // ---- get_savings as written ----

  /** get_savings as the source has it: when a bound is missing it takes
      max()/min() of the dates (which fails on an empty table) and then hands
      those date values to strptime, which accepts only strings. */
  function SavingsAsWritten(table: seq<Record>, start: Option<int>, end: Option<int>, rules: Rules): (r: Result<Summary, Error>)
    ensures start.Some? && end.Some? ==> r == GetSavings(table, start, end, rules)
    ensures !(start.Some? && end.Some?) ==> r.Err?
  {
    if start.Some? && end.Some? then GetSavings(table, start, end, rules)
    else if table == [] then Err(EmptyDataset)
    else Err(StrptimeOnTimestamp)
  }

  // ---- A worked example ----

  /** The ordinal of day d of January 2024. */
  function Jan2024(d: int): int
    requires 1 <= d <= 31
  {
    Dates.Ordinal(Dates.Date(2024, 1, d))
  }

  /** January 2024 starts at ordinal 738886. */
  lemma Jan2024Ordinals(d: int)
    requires 1 <= d <= 31
    ensures Jan2024(d) == 738885 + d
  {
    Dates.DaysBeforeYearClosed(2024);
  }

  /** Credit 1000 on 2024-01-05, Groceries 200 on 2024-01-10 and Eating Out
      100 on 2024-01-15, labelled. */
  function ExampleTable(): seq<Record> {
    [ Record(Row(738890, Credit, "Salary", 1000), Classify(Credit, "Salary")),
      Record(Row(738895, Debit, "Groceries", 200), Classify(Debit, "Groceries")),
      Record(Row(738900, Debit, "Eating Out", 100), Classify(Debit, "Eating Out")) ]
  }

  lemma ExampleTableDates()
    ensures ExampleTable()[0].row.date == Jan2024(5)
    ensures ExampleTable()[1].row.date == Jan2024(10)
    ensures ExampleTable()[2].row.date == Jan2024(15)
  {
    Jan2024Ordinals(5);
    Jan2024Ordinals(10);
    Jan2024Ordinals(15);
  }

  const ExampleRules := Rules(0.2, 0.5, 0.3)

  // The example lemmas take the table and the rules as parameters equal to
  // the constants above, so that the solver unfolds the definitions only
  // where a proof step asks for it.

  lemma ExampleSums(t: seq<Record>)
    requires t == ExampleTable()
    ensures CreditTotal(t) == 1000 && DebitTotal(t) == 300
    ensures NeedsTotal(t) == 200 && WantsTotal(t) == 100
  {
    assert Credit != Debit by { assert Credit[0] != Debit[0]; }
    assert Classify(Credit, "Salary") == Income;
    assert "Groceries" == NeedsCategories[4];
    assert Classify(Debit, "Groceries") == Needs;
    assert "Eating Out" == WantsCategories[0];
    assert "Eating Out" !in NeedsCategories;
    assert Classify(Debit, "Eating Out") == Wants;
    var t1, t2 := t[1..], t[2..];
    assert t2[1..] == [];
    assert t1[1..] == t2;
    assert Where(t2, IsCredit) == [] && Where(t2, IsNeeds) == [];
    assert Where(t2, IsDebit) == t2 && Where(t2, IsWants) == t2;
    assert Where(t1, IsCredit) == [] && Where(t1, IsWants) == t2;
    assert Where(t1, IsDebit) == t1 && Where(t1, IsNeeds) == [t1[0]];
    assert Where(t, IsCredit) == [t[0]] && Where(t, IsDebit) == t1;
    assert t[0].row.amount == 1000 && t1[0].row.amount == 200 && t2[0].row.amount == 100;
    assert Total(t2) == 100 + Total(t2[1..]);
    assert Total(t1) == 200 + Total(t2);
    assert Total([t[0]]) == 1000 + Total([t[0]][1..]);
  }

  /** The summary of the example table over a window of `days` days. */
  lemma ExampleSummary(t: seq<Record>, rules: Rules, days: int, creditAverage: real)
    requires t == ExampleTable() && rules == ExampleRules
    requires days != 0 && creditAverage * days as real == 30000.0
    ensures var r := Summarize(t, days, rules);
      && r.Ok?
      && r.value.totalCredit == 1000 && r.value.totalDebit == 300
      && r.value.savings.amount == 700 && r.value.savings.percentage == 0.7
      && r.value.savings.status == SavingsAbove
      && r.value.needs.amount == 200 && r.value.needs.percentage == 0.2
      && r.value.needs.status == ExpenseBelow
      && r.value.wants.amount == 100 && r.value.wants.percentage == 0.1
      && r.value.wants.status == ExpenseBelow
      && r.value.averageCreditPerMonth == creditAverage
  {
    ExampleSums(t);
    var v := Summarize(t, days, rules).value;
    assert v.savings.percentage * 1000.0 == 700.0;
    assert v.needs.percentage * 1000.0 == 200.0;
    assert v.wants.percentage * 1000.0 == 100.0;
    RealQuotient(v.averageCreditPerMonth, creditAverage, days as real);
  }

  lemma RealQuotient(a: real, b: real, d: real)
    requires d != 0.0 && a * d == b * d
    ensures a == b
  {
    assert (a - b) * d == 0.0;
  }

  /** The window used below is 2024-01-01 .. 2024-01-31. */
  lemma ExampleWindowDates()
    ensures Jan2024(1) == 738886 && Jan2024(31) == 738916
  {
    Jan2024Ordinals(1);
    Jan2024Ordinals(31);
  }

  lemma ExampleJanuaryIsSummary(t: seq<Record>, rules: Rules)
    requires t == ExampleTable()
    ensures GetSavings(t, Some(738886), Some(738916), rules) == Summarize(t, 30, rules)
  {
    var c := Criteria(Some(738886), Some(738916), None, None);
    forall x | x in t
      ensures MatchFn(c)(x)
    {
    }
    WhereAll(t, MatchFn(c));
  }

  /** January 2024 with an explicit window 2024-01-01 .. 2024-01-31: every
      check passes, and the monthly average of credit is 1000 / 30 * 30,
      since (end - start).days is 30 for that window. */
  lemma ExampleJanuary(t: seq<Record>, rules: Rules)
    requires t == ExampleTable() && rules == ExampleRules
    ensures
      var r := GetSavings(t, Some(738886), Some(738916), rules);
      && r.Ok?
      && r.value.totalCredit == 1000 && r.value.totalDebit == 300
      && r.value.savings.amount == 700 && r.value.savings.percentage == 0.7
      && r.value.savings.status == SavingsAbove
      && r.value.needs.amount == 200 && r.value.needs.percentage == 0.2
      && r.value.needs.status == ExpenseBelow
      && r.value.wants.amount == 100 && r.value.wants.percentage == 0.1
      && r.value.wants.status == ExpenseBelow
      && r.value.averageCreditPerMonth == 1000.0
  {
    ExampleJanuaryIsSummary(t, rules);
    ExampleSummary(t, rules, 30, 1000.0);
  }

  /** Without bounds the window runs from 2024-01-15 back to 2024-01-05. */
  lemma ExampleDefaultWindow(t: seq<Record>)
    requires t == ExampleTable()
    ensures Window(t, None, None) == Ok((738900, 738890))
  {
    assert MaxDate(t[2..]) == 738900 && MaxDate(t[1..]) == 738900;
    assert MinDate(t[2..]) == 738900 && MinDate(t[1..]) == 738895;
  }

  lemma ExampleNoBoundsIsSummary(t: seq<Record>, rules: Rules)
    requires t == ExampleTable()
    ensures GetSavings(t, None, None, rules) == Summarize(t, -10, rules)
  {
    NoDateSelectIsIdentity(t, None, None);
    ExampleDefaultWindow(t);
  }

  /** The same table without bounds: the source stops at strptime, while the
      window rule on date values gives a day count of -10. */
  lemma ExampleNoBounds(t: seq<Record>, rules: Rules)
    requires t == ExampleTable() && rules == ExampleRules
    ensures SavingsAsWritten(t, None, None, rules) == Err(StrptimeOnTimestamp)
    ensures GetSavings(t, None, None, rules).Ok?
    ensures GetSavings(t, None, None, rules).value.averageCreditPerMonth == -3000.0
  {
    ExampleNoBoundsIsSummary(t, rules);
    ExampleSummary(t, rules, -10, -3000.0);
  }
}
