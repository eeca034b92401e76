/** The dividends page: the stock filter, the three summary cards (total,
    current-year total, monthly average), the month grouping behind the
    average, the newest-first history table with its paid/pending badge,
    the stock-name lookup and the add-income form reset. The current year
    and the current instant are parameters. */
module DividendsPage {
  import opened Calendar
  import opened Collections
  import opened Grouping
  import opened Sorting
  import opened MockData

  /** `filteredDividends`: every dividend for 'all', otherwise those of the
      selected stock, in their original order. */
  function FilteredDividends(ds: seq<Dividend>, selected: string): (r: seq<Dividend>)
    ensures selected == "all" ==> r == ds
    ensures selected != "all" ==> IsSubsequence(r, ds)
    ensures selected != "all" ==>
              forall d :: multiset(r)[d] == if d.stockId == selected then multiset(ds)[d] else 0
  {
    if selected == "all" then ds else GetDividendsByStock(ds, selected)
  }

  /** `reduce((sum, dividend) => sum + dividend.amount, 0)`: per-share
      amounts, not multiplied by any quantity. */
  function AmountSum(ds: seq<Dividend>): real
  {
    if |ds| == 0 then 0.0 else AmountSum(ds[..|ds| - 1]) + ds[|ds| - 1].amount
  }

  /** The total card agrees with the data module's dividend income only
      when every dividend's stock is held with exactly one share. */
  lemma {:induction false} TotalMatchesIncomeForSingleShares(stocks: seq<Stock>, ds: seq<Dividend>)
    requires forall i :: 0 <= i < |ds| ==> QuantityHeld(stocks, ds[i].stockId) == 1.0
    ensures AmountSum(ds) == DividendIncome(stocks, ds)
    decreases |ds|
  {
    if |ds| > 0 {
      TotalMatchesIncomeForSingleShares(stocks, ds[..|ds| - 1]);
      assert Payout(stocks, ds[|ds| - 1]) == ds[|ds| - 1].amount;
    }
  }

  /** With two shares held, a 1.00 per-share dividend is 1.00 on this page
      and 2.00 in the data module's summary. */
  lemma TotalIgnoresSharesHeld()
    ensures var s := Stock("s", "T", "", 2.0, 1.0, 1.0, Date(2024, 1, 1), "");
            var d := Dividend("d", "s", "T", 1.0, Date(2024, 1, 1), Date(2024, 1, 1), CashDividend);
            AmountSum([d]) == 1.0 && DividendIncome([s], [d]) == 2.0
  {
    var s := Stock("s", "T", "", 2.0, 1.0, 1.0, Date(2024, 1, 1), "");
    var d := Dividend("d", "s", "T", 1.0, Date(2024, 1, 1), Date(2024, 1, 1), CashDividend);
    assert [s][0].id == d.stockId;
    assert QuantityHeld([s], d.stockId) == 2.0;
    assert [d][..0] == [];
  }

  predicate AllNonNegative(ds: seq<Dividend>)
  {
    forall i :: 0 <= i < |ds| ==> ds[i].amount >= 0.0
  }

  lemma {:induction false} AmountSumNonNegative(ds: seq<Dividend>)
    requires AllNonNegative(ds)
    ensures AmountSum(ds) >= 0.0
    decreases |ds|
  {
    if |ds| > 0 {
      AmountSumNonNegative(ds[..|ds| - 1]);
    }
  }

  /** Splitting a list by any test splits its sum. */
  lemma {:induction false} FilterSplitsSum(ds: seq<Dividend>, keep: Dividend -> bool, drop: Dividend -> bool)
    requires forall d :: drop(d) == !keep(d)
    ensures AmountSum(Filter(ds, keep)) + AmountSum(Filter(ds, drop)) == AmountSum(ds)
    decreases |ds|
  {
    if |ds| > 0 {
      var init := ds[..|ds| - 1];
      var last := ds[|ds| - 1];
      FilterSplitsSum(init, keep, drop);
      var a := Filter(init, keep);
      var b := Filter(init, drop);
      if keep(last) {
        assert Filter(ds, keep) == a + [last];
        assert (a + [last])[..|a|] == a;
        assert Filter(ds, drop) == b;
      } else {
        assert Filter(ds, drop) == b + [last];
        assert (b + [last])[..|b|] == b;
        assert Filter(ds, keep) == a;
      }
    }
  }

  /** The dividends paid in the given calendar year. */
  function InYear(ds: seq<Dividend>, year: int): (r: seq<Dividend>)
    ensures IsSubsequence(r, ds)
    ensures forall d :: multiset(r)[d] == if d.paymentDate.year == year then multiset(ds)[d] else 0
  {
    Filter(ds, (d: Dividend) => d.paymentDate.year == year)
  }

  /** `yearTotal`. */
  function YearTotal(ds: seq<Dividend>, year: int): real
  {
    AmountSum(InYear(ds, year))
  }

  /** The current-year card plus the other years make up the total, so
      with non-negative amounts it never exceeds the total card. */
  lemma YearTotalWithinTotal(ds: seq<Dividend>, year: int)
    ensures YearTotal(ds, year) + AmountSum(Filter(ds, (d: Dividend) => d.paymentDate.year != year)) == AmountSum(ds)
    ensures AllNonNegative(ds) ==> 0.0 <= YearTotal(ds, year) <= AmountSum(ds)
  {
    var keep := (d: Dividend) => d.paymentDate.year == year;
    var drop := (d: Dividend) => d.paymentDate.year != year;
    FilterSplitsSum(ds, keep, drop);
    var others := Filter(ds, drop);
    if AllNonNegative(ds) {
      FilterKeepsNonNegative(ds, keep);
      FilterKeepsNonNegative(ds, drop);
      AmountSumNonNegative(InYear(ds, year));
      AmountSumNonNegative(others);
    }
  }

  lemma FilterKeepsNonNegative(ds: seq<Dividend>, keep: Dividend -> bool)
    requires AllNonNegative(ds)
    ensures AllNonNegative(Filter(ds, keep))
  {
    var r := Filter(ds, keep);
    forall i | 0 <= i < |r|
      ensures r[i].amount >= 0.0
    {
      assert r[i] in r;
      var j :| 0 <= j < |ds| && ds[j] == r[i];
    }
  }

  // ---------------------------------------------------------------------
  // Monthly grouping

  /** The 'YYYY-MM' prefix of the payment date's ISO string. */
  datatype MonthKey = MonthKey(year: int, month: int)

  function KeyOf(d: Dividend): MonthKey
  {
    MonthKey(d.paymentDate.year, d.paymentDate.month)
  }

  function MonthEntries(ds: seq<Dividend>): (r: seq<Entry<MonthKey>>)
    ensures |r| == |ds|
    ensures forall i :: 0 <= i < |ds| ==> r[i] == Entry(KeyOf(ds[i]), ds[i].amount)
  {
    seq(|ds|, i requires 0 <= i < |ds| => Entry(KeyOf(ds[i]), ds[i].amount))
  }

  function InMonth(ds: seq<Dividend>, k: MonthKey): seq<Dividend>
  {
    Filter(ds, (d: Dividend) => KeyOf(d) == k)
  }

  /** `dividendsByMonth`: one entry per month with a payment, in order of
      first appearance, holding that month's sum; the entries add up to the
      total card. */
  function DividendsByMonth(ds: seq<Dividend>): (r: seq<Entry<MonthKey>>)
    ensures Keys(r) == Dedup(MonthKeys(ds))
    ensures Total(r) == AmountSum(ds)
  {
    var es := MonthEntries(ds);
    var r := GroupSum(es);
    assert Keys(es) == MonthKeys(ds);
    MonthEntriesTotal(ds);
    r
  }

  /** The month of every dividend, in list order. */
  function MonthKeys(ds: seq<Dividend>): (r: seq<MonthKey>)
    ensures |r| == |ds|
    ensures forall i :: 0 <= i < |ds| ==> r[i] == KeyOf(ds[i])
  {
    seq(|ds|, i requires 0 <= i < |ds| => KeyOf(ds[i]))
  }

  /** Each month entry holds the sum of exactly the dividends paid in that
      month. */
  lemma MonthEntryIsMonthSum(ds: seq<Dividend>, i: nat)
    requires i < |DividendsByMonth(ds)|
    ensures DividendsByMonth(ds)[i].amount == AmountSum(InMonth(ds, DividendsByMonth(ds)[i].key))
  {
    KeySumIsMonthSum(ds, DividendsByMonth(ds)[i].key);
  }

  lemma {:induction false} MonthEntriesSnoc(ds: seq<Dividend>)
    requires |ds| > 0
    ensures MonthEntries(ds)[..|ds| - 1] == MonthEntries(ds[..|ds| - 1])
  {
  }

  lemma {:induction false} KeySumIsMonthSum(ds: seq<Dividend>, k: MonthKey)
    ensures KeySum(MonthEntries(ds), k) == AmountSum(InMonth(ds, k))
    decreases |ds|
  {
    if |ds| > 0 {
      KeySumIsMonthSum(ds[..|ds| - 1], k);
      KeySumSnoc(ds, k);
      InMonthSnoc(ds, k);
    }
  }

  lemma KeySumSnoc(ds: seq<Dividend>, k: MonthKey)
    requires |ds| > 0
    ensures var last := ds[|ds| - 1];
            KeySum(MonthEntries(ds), k)
              == KeySum(MonthEntries(ds[..|ds| - 1]), k) + (if KeyOf(last) == k then last.amount else 0.0)
  {
    MonthEntriesSnoc(ds);
    var es := MonthEntries(ds);
    assert es[|es| - 1] == Entry(KeyOf(ds[|ds| - 1]), ds[|ds| - 1].amount);
  }

  lemma InMonthSnoc(ds: seq<Dividend>, k: MonthKey)
    requires |ds| > 0
    ensures var last := ds[|ds| - 1];
            AmountSum(InMonth(ds, k))
              == AmountSum(InMonth(ds[..|ds| - 1], k)) + (if KeyOf(last) == k then last.amount else 0.0)
  {
    var last := ds[|ds| - 1];
    var f := InMonth(ds[..|ds| - 1], k);
    if KeyOf(last) == k {
      assert InMonth(ds, k) == f + [last];
      assert (f + [last])[..|f|] == f;
    } else {
      assert InMonth(ds, k) == f;
    }
  }

  lemma {:induction false} MonthEntriesTotal(ds: seq<Dividend>)
    ensures Total(MonthEntries(ds)) == AmountSum(ds)
    decreases |ds|
  {
    if |ds| > 0 {
      MonthEntriesTotal(ds[..|ds| - 1]);
      MonthEntriesSnoc(ds);
    }
  }

  /** `monthlyAverage`: the sum of the month entries over their number, or
      0 when there is no dividend. */
  function MonthlyAverage(ds: seq<Dividend>): (r: real)
    ensures |ds| == 0 ==> r == 0.0
    ensures |ds| > 0 ==> IsMeanOf(r, AmountSum(ds), |DividendsByMonth(ds)|)
  {
    var months := DividendsByMonth(ds);
    SomeMonthWhenNonEmpty(ds);
    Mean(Total(months), |months|)
  }

  /** r is what each of n equal parts of total would be. */
  predicate IsMeanOf(r: real, total: real, n: nat)
  {
    n > 0 && r * n as real == total
  }

  /** A sum over a count, or 0 for no parts. */
  function Mean(total: real, n: nat): (r: real)
    ensures n == 0 ==> r == 0.0
    ensures n > 0 ==> IsMeanOf(r, total, n)
  {
    if n > 0 then total / n as real else 0.0
  }

  lemma SomeMonthWhenNonEmpty(ds: seq<Dividend>)
    ensures |DividendsByMonth(ds)| <= |ds|
    ensures |ds| > 0 ==> |DividendsByMonth(ds)| > 0
  {
    var ks := Keys(DividendsByMonth(ds));
    assert |ks| <= |MonthKeys(ds)|;
    if |ds| > 0 {
      assert MonthKeys(ds)[0] in MonthKeys(ds);
      assert MonthKeys(ds)[0] in ks;
    }
  }

  /** The average over months lies between the average over dividends and
      the total: there are at least one and at most |ds| months. */
  lemma {:induction false} MonthlyAverageBounds(ds: seq<Dividend>)
    requires AllNonNegative(ds) && |ds| > 0
    ensures AmountSum(ds) / |ds| as real <= MonthlyAverage(ds) <= AmountSum(ds)
  {
    var n := |DividendsByMonth(ds)|;
    AmountSumNonNegative(ds);
    SomeMonthWhenNonEmpty(ds);
    AverageOfFewerParts(AmountSum(ds), n, |ds|, MonthlyAverage(ds));
  }

  lemma AverageOfFewerParts(t: real, n: nat, m: nat, a: real)
    requires t >= 0.0 && n <= m && IsMeanOf(a, t, n)
    ensures t / m as real <= a <= t
  {
    assert a == t / n as real;
    assert t / m as real <= t / n as real;
  }

  // ---------------------------------------------------------------------
  // History table

  /** The comparator `b.time - a.time`: a may precede b when it was paid no
      earlier. */
  function NewestFirst(a: Dividend, b: Dividend): bool
  {
    Timestamp(a.paymentDate) >= Timestamp(b.paymentDate)
  }

  lemma NewestFirstIsTotalPreorder()
    ensures TotalPreorder(NewestFirst)
  {
  }

  /** The rows of the history table: the filtered dividends, newest payment
      first, ties in their original order. */
  function SortByPaymentDate(ds: seq<Dividend>): (r: seq<Dividend>)
    ensures multiset(r) == multiset(ds)
    ensures forall i, j :: 0 <= i < j < |r| ==> Timestamp(r[i].paymentDate) >= Timestamp(r[j].paymentDate)
  {
    NewestFirstIsTotalPreorder();
    Sort(ds, NewestFirst)
  }

  /** Re-rendering sorts an already sorted list, which changes nothing. */
  lemma SortByPaymentDateIdempotent(ds: seq<Dividend>)
    ensures SortByPaymentDate(SortByPaymentDate(ds)) == SortByPaymentDate(ds)
  {
    NewestFirstIsTotalPreorder();
    SortIdempotent(ds, NewestFirst);
  }

  /** `isPaid`: the payment date is not after now. */
  predicate IsPaid(d: Dividend, now: int)
  {
    Timestamp(d.paymentDate) <= now
  }

  function StatusBadge(d: Dividend, now: int): (badge: string)
    ensures badge == "Paid" <==> IsPaid(d, now)
    ensures badge == "Pending" <==> !IsPaid(d, now)
  {
    if IsPaid(d, now) then "Paid" else "Pending"
  }

  /** In the table the pending dividends come first and the paid ones form
      a suffix: once a row is paid every later row is paid. */
  lemma PaidRowsFormSuffix(ds: seq<Dividend>, now: int)
    ensures var r := SortByPaymentDate(ds);
            forall i, j :: 0 <= i < j < |r| && IsPaid(r[i], now) ==> IsPaid(r[j], now)
  {
  }

  /** The type badge: only a cash dividend reads 'Dividend'; a JCP and a
      bonus both read 'JCP'. */
  function KindBadge(k: DividendKind): (badge: string)
    ensures badge == "Dividend" <==> k == CashDividend
    ensures badge == "JCP" <==> k != CashDividend
  {
    if k == CashDividend then "Dividend" else "JCP"
  }

  /** `getStockName`: the company of the first stock with that id, or
      'Desconhecido'. */
  function GetStockName(stocks: seq<Stock>, stockId: string): (name: string)
    ensures !HasStock(stocks, stockId) ==> name == "Desconhecido"
    ensures forall i :: (0 <= i < |stocks| && stocks[i].id == stockId
                         && forall j :: 0 <= j < i ==> stocks[j].id != stockId) ==> name == stocks[i].companyName
  {
    match FindFirst(stocks, (s: Stock) => s.id == stockId)
    case Some(s) => s.companyName
    case None => "Desconhecido"
  }

  // ---------------------------------------------------------------------
  // Add-income form

  datatype DividendForm = DividendForm(
    stockId: string, amount: real, paymentDate: string, exDividendDate: string, kind: DividendKind)

  datatype FormState = FormState(form: DividendForm, showAddForm: bool)

  predicate IsBlank(f: DividendForm)
  {
    f.stockId == "" && f.amount == 0.0 && f.paymentDate == "" && f.exDividendDate == "" && f.kind == CashDividend
  }

  /** `handleAddDividend`: the submission is only logged; the form closes
      and returns to its blank initial values. */
  function HandleAddDividend(s: FormState): (t: FormState)
    ensures IsBlank(t.form) && !t.showAddForm
  {
    FormState(DividendForm("", 0.0, "", "", CashDividend), false)
  }

  /** Whatever was typed, submitting leaves the same state: the page's
      initial one, on which submitting again changes nothing. */
  lemma HandleAddDividendForgetsInput(a: FormState, b: FormState)
    ensures HandleAddDividend(a) == HandleAddDividend(b)
    ensures IsBlank(a.form) && !a.showAddForm ==> HandleAddDividend(a) == a
  {
  }
}
