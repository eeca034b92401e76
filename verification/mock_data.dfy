/** The record types of the data module and its four helpers: the period
    filter, the per-category expense totals, the investment summary and the
    per-stock dividend filter. The source's module-level arrays (`transactions`,
    `categories`, `stocks`, `dividends`) and its `new Date()` become
    parameters. */
module MockData {
  import opened Numbers
  import opened Calendar
  import opened Collections
  import opened Grouping

  datatype TxType = Income | Expense

  /** `amount` is signed: expenses are recorded as negative numbers. */
  datatype Transaction = Transaction(
    id: string, date: Date, description: string, amount: real,
    category: string, kind: TxType, account: string)

  datatype Category = Category(
    id: string, name: string, color: string, icon: string, budget: Option<real>)

  datatype Stock = Stock(
    id: string, ticker: string, companyName: string, quantity: real,
    purchasePrice: real, currentPrice: real, purchaseDate: Date, sector: string)

  datatype DividendKind = CashDividend | Jscp | Bonus

  /** `amount` is paid per share. */
  datatype Dividend = Dividend(
    id: string, stockId: string, ticker: string, amount: real,
    paymentDate: Date, exDividendDate: Date, kind: DividendKind)

  /** One month of the dividend history: `month` is a 'YYYY-MM' string. */
  datatype MonthlyDividend = MonthlyDividend(month: string, amount: real, count: int)

  datatype CategoryExpense = CategoryExpense(
    category: string, amount: real, percentage: int, color: string)

  /** The instants a date filter compares against: `now`, and the local
      calendar's "same day last month" and "same day last year" built from
      it with `new Date(year, month - 1, day)` and `new Date(year - 1, ...)`. */
  datatype Clock = Clock(now: int, monthAgo: int, yearAgo: int)

  const WeekMs: int := 7 * 24 * 60 * 60 * 1000
  const DefaultColor: string := "#DDD"

  // ---------------------------------------------------------------------
  // Period filter

  /** The date test shared by the data module and the categories page: the
      transaction's instant is at or after the cutoff of a recognised period;
      any other period token leaves the test true. */
  predicate InPeriod(t: Transaction, period: string, clock: Clock)
  {
    var at := Timestamp(t.date);
    if period == "week" then at >= clock.now - WeekMs
    else if period == "month" then at >= clock.monthAgo
    else if period == "year" then at >= clock.yearAgo
    else true
  }

  function GetTransactionsByPeriod(txs: seq<Transaction>, period: string, clock: Clock): (r: seq<Transaction>)
    ensures IsSubsequence(r, txs)
    ensures forall t :: multiset(r)[t] == if InPeriod(t, period, clock) then multiset(txs)[t] else 0
  {
    Filter(txs, (t: Transaction) => InPeriod(t, period, clock))
  }

  /** A week keeps exactly the transactions dated no earlier than seven days
      of milliseconds before now; an unrecognised token keeps everything. */
  lemma PeriodCutoffs(txs: seq<Transaction>, period: string, clock: Clock)
    ensures period == "week" ==>
              forall t :: t in GetTransactionsByPeriod(txs, period, clock) <==>
                            t in txs && Timestamp(t.date) >= clock.now - 604800000
    ensures period != "week" && period != "month" && period != "year" ==>
              GetTransactionsByPeriod(txs, period, clock) == txs
  {
    if period != "week" && period != "month" && period != "year" {
      FilterAll(txs, t => InPeriod(t, period, clock));
    }
  }

  lemma {:induction false} FilterAll<T(!new)>(xs: seq<T>, keep: T -> bool)
    requires forall x :: keep(x)
    ensures Filter(xs, keep) == xs
    decreases |xs|
  {
    if |xs| > 0 {
      FilterAll(xs[..|xs| - 1], keep);
      assert xs == xs[..|xs| - 1] + [xs[|xs| - 1]];
    }
  }

  // ---------------------------------------------------------------------
  // Expenses by category

  /** `categories.find(c => c.name === name)?.color || '#DDD'`: the colour of
      the first category with that name, unless there is none or its colour
      is the empty (falsy) string. */
  function ColorOf(cats: seq<Category>, name: string): (r: string)
    ensures (forall i :: 0 <= i < |cats| ==> cats[i].name != name) ==> r == DefaultColor
    ensures forall i :: (0 <= i < |cats| && cats[i].name == name
                         && forall j :: 0 <= j < i ==> cats[j].name != name) ==>
                          r == if cats[i].color != "" then cats[i].color else DefaultColor
  {
    match FindFirst(cats, (c: Category) => c.name == name)
    case Some(c) => if c.color != "" then c.color else DefaultColor
    case None => DefaultColor
  }

  predicate IsExpenseIn(txs: seq<Transaction>, c: string)
  {
    exists i :: 0 <= i < |txs| && txs[i].kind == Expense && txs[i].category == c
  }

  /** The sum of |amount| over the expense transactions of category c. */
  function CategorySpend(txs: seq<Transaction>, c: string): (r: real)
    ensures r >= 0.0
  {
    if |txs| == 0 then 0.0
    else
      var t := txs[|txs| - 1];
      CategorySpend(txs[..|txs| - 1], c) + (if t.kind == Expense && t.category == c then Abs(t.amount) else 0.0)
  }

  /** The sum of |amount| over all expense transactions. */
  function ExpenseTotal(txs: seq<Transaction>): (r: real)
    ensures r >= 0.0
  {
    if |txs| == 0 then 0.0
    else
      var t := txs[|txs| - 1];
      ExpenseTotal(txs[..|txs| - 1]) + (if t.kind == Expense then Abs(t.amount) else 0.0)
  }

  /** The (category, |amount|) pair of each expense, in order. */
  function ExpenseEntries(txs: seq<Transaction>): seq<Entry<string>>
  {
    if |txs| == 0 then []
    else
      var t := txs[|txs| - 1];
      ExpenseEntries(txs[..|txs| - 1]) + (if t.kind == Expense then [Entry(t.category, Abs(t.amount))] else [])
  }

  /** ExpenseEntries(txs) is the entries of the shorter prefix, plus one for
      the last transaction when it is an expense. */
  lemma ExpenseEntriesSnoc(txs: seq<Transaction>)
    requires |txs| > 0
    ensures var e := ExpenseEntries(txs[..|txs| - 1]);
            var t := txs[|txs| - 1];
            if t.kind == Expense then
              ExpenseEntries(txs) == e + [Entry(t.category, Abs(t.amount))]
              && ExpenseEntries(txs)[..|e|] == e
            else ExpenseEntries(txs) == e
  {
    var e := ExpenseEntries(txs[..|txs| - 1]);
    var t := txs[|txs| - 1];
    if t.kind == Expense {
      assert (e + [Entry(t.category, Abs(t.amount))])[..|e|] == e;
    } else {
      assert e + [] == e;
    }
  }

  lemma {:induction false} ExpenseEntriesNonNegative(txs: seq<Transaction>)
    ensures NonNegative(ExpenseEntries(txs))
    decreases |txs|
  {
    if |txs| > 0 {
      ExpenseEntriesNonNegative(txs[..|txs| - 1]);
      ExpenseEntriesSnoc(txs);
    }
  }

  lemma {:induction false} ExpenseEntriesTotal(txs: seq<Transaction>)
    ensures Total(ExpenseEntries(txs)) == ExpenseTotal(txs)
    decreases |txs|
  {
    if |txs| > 0 {
      ExpenseEntriesTotal(txs[..|txs| - 1]);
      ExpenseEntriesSnoc(txs);
    }
  }

  lemma {:induction false} ExpenseEntriesKeySum(txs: seq<Transaction>, c: string)
    ensures KeySum(ExpenseEntries(txs), c) == CategorySpend(txs, c)
    decreases |txs|
  {
    if |txs| > 0 {
      ExpenseEntriesKeySum(txs[..|txs| - 1], c);
      ExpenseEntriesSnoc(txs);
    }
  }

  lemma {:induction false} ExpenseEntriesKeys(txs: seq<Transaction>, c: string)
    ensures c in Keys(ExpenseEntries(txs)) <==> IsExpenseIn(txs, c)
    decreases |txs|
  {
    if |txs| > 0 {
      var init := txs[..|txs| - 1];
      var t := txs[|txs| - 1];
      ExpenseEntriesKeys(init, c);
      ExpenseEntriesSnoc(txs);
      var e := ExpenseEntries(init);
      assert c in Keys(ExpenseEntries(txs)) <==> c in Keys(e) || (t.kind == Expense && t.category == c) by {
        if t.kind == Expense {
          assert Keys(ExpenseEntries(txs)) == Keys(e) + [t.category];
        }
      }
      if IsExpenseIn(txs, c) {
        var i :| 0 <= i < |txs| && txs[i].kind == Expense && txs[i].category == c;
        if i < |init| {
          assert init[i] == txs[i];
        }
      }
      if IsExpenseIn(init, c) {
        var i :| 0 <= i < |init| && init[i].kind == Expense && init[i].category == c;
        assert txs[i] == init[i];
      }
    }
  }

  lemma ExpenseEntriesFacts(txs: seq<Transaction>)
    ensures NonNegative(ExpenseEntries(txs))
    ensures Total(ExpenseEntries(txs)) == ExpenseTotal(txs)
    ensures forall c :: KeySum(ExpenseEntries(txs), c) == CategorySpend(txs, c)
    ensures forall c :: c in Keys(ExpenseEntries(txs)) <==> IsExpenseIn(txs, c)
  {
    ExpenseEntriesNonNegative(txs);
    ExpenseEntriesTotal(txs);
    forall c
      ensures KeySum(ExpenseEntries(txs), c) == CategorySpend(txs, c)
      ensures c in Keys(ExpenseEntries(txs)) <==> IsExpenseIn(txs, c)
    {
      ExpenseEntriesKeySum(txs, c);
      ExpenseEntriesKeys(txs, c);
    }
  }

  function CategoryNames(es: seq<CategoryExpense>): (r: seq<string>)
    ensures |r| == |es|
    ensures forall i :: 0 <= i < |es| ==> r[i] == es[i].category
  {
    seq(|es|, i requires 0 <= i < |es| => es[i].category)
  }

  /** The sum of the amounts of a list of category expenses. */
  function SpendTotal(es: seq<CategoryExpense>): real
  {
    if |es| == 0 then 0.0 else SpendTotal(es[..|es| - 1]) + es[|es| - 1].amount
  }

  function GetExpensesByCategory(txs: seq<Transaction>, cats: seq<Category>): (r: seq<CategoryExpense>)
    ensures Distinct(CategoryNames(r))
    ensures forall c :: c in CategoryNames(r) <==> IsExpenseIn(txs, c)
    ensures CategoryNames(r) == Dedup(Keys(ExpenseEntries(txs)))
    ensures forall i :: 0 <= i < |r| ==>
              && r[i].amount == CategorySpend(txs, r[i].category)
              && r[i].percentage == 0
              && r[i].color == ColorOf(cats, r[i].category)
    ensures SpendTotal(r) == ExpenseTotal(txs)
  {
    var g := GroupSum(ExpenseEntries(txs));
    ExpenseEntriesFacts(txs);
    var r := seq(|g|, i requires 0 <= i < |g| => CategoryExpense(g[i].key, g[i].amount, 0, ColorOf(cats, g[i].key)));
    assert CategoryNames(r) == Keys(g);
    SpendTotalOfGroups(g, r);
    r
  }

  lemma {:induction false} SpendTotalOfGroups(g: seq<Entry<string>>, r: seq<CategoryExpense>)
    requires |r| == |g|
    requires forall i :: 0 <= i < |g| ==> r[i].amount == g[i].amount
    ensures SpendTotal(r) == Total(g)
    decreases |g|
  {
    if |g| > 0 {
      SpendTotalOfGroups(g[..|g| - 1], r[..|r| - 1]);
    }
  }

  // ---------------------------------------------------------------------
  // Investment summary

  function Invested(s: Stock): real { s.quantity * s.purchasePrice }
  function Valued(s: Stock): real { s.quantity * s.currentPrice }
  function Gain(s: Stock): real { Valued(s) - Invested(s) }

  /** Σ quantity × purchasePrice. */
  function TotalInvested(stocks: seq<Stock>): real
  {
    if |stocks| == 0 then 0.0 else TotalInvested(stocks[..|stocks| - 1]) + Invested(stocks[|stocks| - 1])
  }

  /** Σ quantity × currentPrice. */
  function CurrentValue(stocks: seq<Stock>): real
  {
    if |stocks| == 0 then 0.0 else CurrentValue(stocks[..|stocks| - 1]) + Valued(stocks[|stocks| - 1])
  }

  /** Σ of the per-stock gains. */
  function TotalGain(stocks: seq<Stock>): real
  {
    if |stocks| == 0 then 0.0 else TotalGain(stocks[..|stocks| - 1]) + Gain(stocks[|stocks| - 1])
  }

  lemma {:induction false} GainsSumToReturn(stocks: seq<Stock>)
    ensures TotalGain(stocks) == CurrentValue(stocks) - TotalInvested(stocks)
    decreases |stocks|
  {
    if |stocks| > 0 {
      GainsSumToReturn(stocks[..|stocks| - 1]);
    }
  }

  predicate HasStock(stocks: seq<Stock>, id: string)
  {
    exists i :: 0 <= i < |stocks| && stocks[i].id == id
  }

  /** `(stocks.find(s => s.id === id)?.quantity || 0)`. */
  function QuantityHeld(stocks: seq<Stock>, id: string): (q: real)
    ensures !HasStock(stocks, id) ==> q == 0.0
    ensures forall i :: (0 <= i < |stocks| && stocks[i].id == id
                         && forall j :: 0 <= j < i ==> stocks[j].id != id) ==> q == stocks[i].quantity
  {
    match FindFirst(stocks, (s: Stock) => s.id == id)
    case Some(s) => s.quantity
    case None => 0.0
  }

  /** What one dividend pays the portfolio: per-share amount × shares held. */
  function Payout(stocks: seq<Stock>, d: Dividend): real
  {
    d.amount * QuantityHeld(stocks, d.stockId)
  }

  /** Σ of the payouts of the dividends. */
  function DividendIncome(stocks: seq<Stock>, ds: seq<Dividend>): real
  {
    if |ds| == 0 then 0.0
    else DividendIncome(stocks, ds[..|ds| - 1]) + Payout(stocks, ds[|ds| - 1])
  }

  /** Dividends of stocks that are not in the portfolio contribute nothing. */
  lemma {:induction false} UnmatchedDividendsContributeNothing(stocks: seq<Stock>, ds: seq<Dividend>)
    ensures DividendIncome(stocks, ds) == DividendIncome(stocks, Filter(ds, (d: Dividend) => HasStock(stocks, d.stockId)))
    decreases |ds|
  {
    if |ds| > 0 {
      var init := ds[..|ds| - 1];
      var d := ds[|ds| - 1];
      var keep := (x: Dividend) => HasStock(stocks, x.stockId);
      UnmatchedDividendsContributeNothing(stocks, init);
      var f := Filter(init, keep);
      assert ds[..|ds| - 1] == init;
      if keep(d) {
        assert Filter(ds, keep) == f + [d];
        assert (f + [d])[..|f|] == f;
        assert DividendIncome(stocks, f + [d]) == DividendIncome(stocks, f) + Payout(stocks, d);
      } else {
        assert Filter(ds, keep) == f;
        assert Payout(stocks, d) == 0.0;
      }
    }
  }

  datatype InvestmentSummary = InvestmentSummary(
    totalInvested: real, currentValue: real, totalReturn: real,
    totalReturnPercentage: Ratio, totalDividends: real, monthlyDividendYield: Ratio)

  /** getInvestmentSummary as written: both percentages divide without a
      guard, so an empty (or zero-valued) portfolio yields NaN/Infinity. */
  function GetInvestmentSummary(stocks: seq<Stock>, ds: seq<Dividend>): (r: InvestmentSummary)
    ensures r.totalInvested == TotalInvested(stocks)
    ensures r.currentValue == CurrentValue(stocks)
    ensures r.totalReturn == TotalGain(stocks)
    ensures r.totalReturnPercentage.Finite? <==> r.totalInvested != 0.0
    ensures r.totalReturnPercentage.Finite? ==> r.totalReturnPercentage.value * r.totalInvested == r.totalReturn * 100.0
    ensures r.totalInvested == 0.0 ==>
              && (r.totalReturnPercentage.NaN? <==> r.totalReturn == 0.0)
              && (r.totalReturnPercentage.PosInf? <==> r.totalReturn > 0.0)
              && (r.totalReturnPercentage.NegInf? <==> r.totalReturn < 0.0)
    ensures r.totalDividends == DividendIncome(stocks, ds)
    ensures r.monthlyDividendYield.Finite? <==> r.currentValue != 0.0
    ensures r.monthlyDividendYield.Finite? ==> r.monthlyDividendYield.value * r.currentValue * 12.0 == r.totalDividends * 100.0
    ensures r.currentValue == 0.0 ==>
              && (r.monthlyDividendYield.NaN? <==> r.totalDividends == 0.0)
              && (r.monthlyDividendYield.PosInf? <==> r.totalDividends > 0.0)
              && (r.monthlyDividendYield.NegInf? <==> r.totalDividends < 0.0)
  {
    var totalInvested := TotalInvested(stocks);
    var currentValue := CurrentValue(stocks);
    var totalReturn := currentValue - totalInvested;
    var totalDividends := DividendIncome(stocks, ds);
    GainsSumToReturn(stocks);
    var dividendYield := Percent(totalDividends / 12.0, currentValue);
    MonthlyYieldScales(totalDividends, currentValue, dividendYield);
    InvestmentSummary(totalInvested, currentValue, totalReturn, Percent(totalReturn, totalInvested),
                      totalDividends, dividendYield)
  }

  lemma MonthlyYieldScales(total: real, value: real, y: Ratio)
    requires y == Percent(total / 12.0, value)
    ensures y.Finite? ==> y.value * value * 12.0 == total * 100.0
    ensures (total / 12.0 > 0.0 <==> total > 0.0) && (total / 12.0 < 0.0 <==> total < 0.0)
    ensures total / 12.0 == 0.0 <==> total == 0.0
  {
  }

  /** The discrepancy: with no stocks both percentages are 0/0 = NaN. */
  lemma EmptyPortfolioReturnNotFinite(ds: seq<Dividend>)
    ensures GetInvestmentSummary([], ds).totalReturnPercentage == NaN
    ensures GetInvestmentSummary([], ds).monthlyDividendYield == NaN
  {
    NoStocksNoIncome(ds);
  }

  lemma {:induction false} NoStocksNoIncome(ds: seq<Dividend>)
    ensures DividendIncome([], ds) == 0.0
    decreases |ds|
  {
    if |ds| > 0 {
      NoStocksNoIncome(ds[..|ds| - 1]);
    }
  }

  /** The percentage guard the stocks page applies: 0 unless something was
      invested. */
  function GuardedPercentage(part: real, whole: real): (p: real)
    ensures whole <= 0.0 ==> p == 0.0
    ensures whole > 0.0 ==> p * whole == part * 100.0
  {
    if whole > 0.0 then part / whole * 100.0 else 0.0
  }

  datatype GuardedSummary = GuardedSummary(
    totalInvested: real, currentValue: real, totalReturn: real,
    totalReturnPercentage: real, totalDividends: real, monthlyDividendYield: real)

  /** The summary with both divisions guarded: always finite, and equal to
      the unguarded one whenever its denominators are positive. */
  function GetInvestmentSummaryGuarded(stocks: seq<Stock>, ds: seq<Dividend>): (r: GuardedSummary)
    ensures var raw := GetInvestmentSummary(stocks, ds);
            && r.totalInvested == raw.totalInvested
            && r.currentValue == raw.currentValue
            && r.totalReturn == raw.totalReturn
            && r.totalDividends == raw.totalDividends
            && (raw.totalInvested > 0.0 ==> raw.totalReturnPercentage == Finite(r.totalReturnPercentage))
            && (raw.totalInvested <= 0.0 ==> r.totalReturnPercentage == 0.0)
            && (raw.currentValue > 0.0 ==> raw.monthlyDividendYield == Finite(r.monthlyDividendYield))
            && (raw.currentValue <= 0.0 ==> r.monthlyDividendYield == 0.0)
  {
    var totalInvested := TotalInvested(stocks);
    var currentValue := CurrentValue(stocks);
    var totalReturn := currentValue - totalInvested;
    var totalDividends := DividendIncome(stocks, ds);
    GainsSumToReturn(stocks);
    GuardedSummary(
      totalInvested, currentValue, totalReturn,
      GuardedPercentage(totalReturn, totalInvested),
      totalDividends,
      GuardedPercentage(totalDividends / 12.0, currentValue))
  }

  // ---------------------------------------------------------------------
  // Dividends of one stock

  function GetDividendsByStock(ds: seq<Dividend>, stockId: string): (r: seq<Dividend>)
    ensures IsSubsequence(r, ds)
    ensures forall d :: multiset(r)[d] == if d.stockId == stockId then multiset(ds)[d] else 0
    ensures forall i :: 0 <= i < |r| ==> r[i].stockId == stockId
  {
    var r := Filter(ds, (d: Dividend) => d.stockId == stockId);
    assert forall i :: 0 <= i < |r| ==> r[i] in r;
    r
  }
}
