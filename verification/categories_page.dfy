/** The expense-control page: its transaction filter, the per-category
    totals with rounded percentages and a user-chosen sort, the budget card
    shown for each category, and the per-month trend buckets. */
module CategoriesPage {
  import opened Numbers
  import opened Text
  import opened Calendar
  import opened Collections
  import opened Grouping
  import opened Sorting
  import opened MockData

  // ---------------------------------------------------------------------
  // filteredTransactions

  predicate CategoryMatches(t: Transaction, selected: string)
  {
    selected == "all" || t.category == selected
  }

  /** The search term occurs, ignoring case, in the description or in the
      category name. */
  predicate SearchMatches(t: Transaction, term: string)
  {
    Contains(Lower(t.description), Lower(term)) || Contains(Lower(t.category), Lower(term))
  }

  /** The whole filter predicate: date test, category selection, search
      term, and expenses only. */
  predicate Shown(t: Transaction, period: string, selected: string, term: string, clock: Clock)
  {
    InPeriod(t, period, clock) && CategoryMatches(t, selected) && SearchMatches(t, term) && t.kind == Expense
  }

  function FilterTransactions(txs: seq<Transaction>, period: string, selected: string, term: string, clock: Clock)
    : (r: seq<Transaction>)
    ensures IsSubsequence(r, txs)
    ensures forall t :: multiset(r)[t] == if Shown(t, period, selected, term, clock) then multiset(txs)[t] else 0
    ensures forall i :: 0 <= i < |r| ==> r[i].kind == Expense
  {
    var r := Filter(txs, (t: Transaction) => Shown(t, period, selected, term, clock));
    assert forall i :: 0 <= i < |r| ==> r[i] in r;
    r
  }

  /** With no search term, every category selected and an unrecognised
      period, the filter keeps exactly the expenses. */
  lemma UnfilteredKeepsExpenses(txs: seq<Transaction>, period: string, clock: Clock)
    requires period != "week" && period != "month" && period != "year"
    ensures forall t :: t in FilterTransactions(txs, period, "all", "", clock) <==> t in txs && t.kind == Expense
  {
    forall t: Transaction
      ensures SearchMatches(t, "")
    {
      EmptyIsContained(Lower(t.description));
    }
  }

  lemma LowerCharIdempotent(c: char)
    ensures LowerChar(LowerChar(c)) == LowerChar(c)
  {
  }

  lemma LowerIdempotent(s: string)
    ensures Lower(Lower(s)) == Lower(s)
  {
    forall i | 0 <= i < |s|
      ensures Lower(Lower(s))[i] == Lower(s)[i]
    {
      LowerCharIdempotent(s[i]);
    }
  }

  /** The search ignores the case of the term. */
  lemma SearchIgnoresCase(t: Transaction, term: string)
    ensures SearchMatches(t, term) == SearchMatches(t, Lower(term))
  {
    LowerIdempotent(term);
  }

  // ---------------------------------------------------------------------
  // categoryExpenses: percentages

  /** `total > 0 ? Math.round(amount / total * 100) : 0`. */
  function Percentage(amount: real, total: real): (p: int)
    ensures total <= 0.0 ==> p == 0
    ensures total > 0.0 ==> p as real - 0.5 <= amount / total * 100.0 < p as real + 0.5
    ensures 0.0 <= amount <= total ==> 0 <= p <= 100
  {
    if total > 0.0 then
      var x := amount / total * 100.0;
      assert 0.0 <= amount <= total ==> 0.0 <= x <= 100.0;
      Round(x)
    else 0
  }

  function WithPercentages(es: seq<CategoryExpense>, total: real): (r: seq<CategoryExpense>)
    ensures |r| == |es|
    ensures forall i :: 0 <= i < |es| ==>
              r[i] == es[i].(percentage := Percentage(es[i].amount, total))
  {
    seq(|es|, i requires 0 <= i < |es| => es[i].(percentage := Percentage(es[i].amount, total)))
  }

  function PercentageSum(es: seq<CategoryExpense>): int
  {
    if |es| == 0 then 0 else PercentageSum(es[..|es| - 1]) + es[|es| - 1].percentage
  }

  /** The exact shares amount/total×100 of a list sum to SpendTotal/total×100. */
  function ShareSum(es: seq<CategoryExpense>, total: real): real
    requires total > 0.0
  {
    if |es| == 0 then 0.0 else ShareSum(es[..|es| - 1], total) + es[|es| - 1].amount / total * 100.0
  }

  lemma {:induction false} ShareSumIsTotalShare(es: seq<CategoryExpense>, total: real)
    requires total > 0.0
    ensures ShareSum(es, total) == SpendTotal(es) / total * 100.0
    decreases |es|
  {
    if |es| > 0 {
      ShareSumIsTotalShare(es[..|es| - 1], total);
    }
  }

  lemma {:induction false} RoundingError(es: seq<CategoryExpense>, total: real)
    requires total > 0.0
    ensures var n := |es| as real;
            var p := PercentageSum(WithPercentages(es, total)) as real;
            ShareSum(es, total) - n / 2.0 <= p <= ShareSum(es, total) + n / 2.0
    decreases |es|
  {
    if |es| > 0 {
      var init := es[..|es| - 1];
      RoundingError(init, total);
      var w := WithPercentages(es, total);
      assert w[..|w| - 1] == WithPercentages(init, total);
    }
  }

  /** The rounded percentages of the categories sum to 100 up to half a
      point per category. */
  lemma {:induction false} PercentagesSumToHundred(es: seq<CategoryExpense>)
    requires SpendTotal(es) > 0.0
    ensures var n := |es| as real;
            var p := PercentageSum(WithPercentages(es, SpendTotal(es))) as real;
            100.0 - n / 2.0 <= p <= 100.0 + n / 2.0
  {
    var total := SpendTotal(es);
    RoundingError(es, total);
    ShareSumIsTotalShare(es, total);
    SelfShare(total);
  }

  lemma SelfShare(total: real)
    requires total > 0.0
    ensures total / total * 100.0 == 100.0
  {
  }

  // ---------------------------------------------------------------------
  // categoryExpenses: sorting

  datatype SortOrder = Asc | Desc

  /** The comparator of the page's sort as a "may precede" relation: by
      amount, by category name under the string order, or (any other sort
      key) a comparator that always answers 0. */
  function Comparator(sortBy: string, order: SortOrder): (CategoryExpense, CategoryExpense) -> bool
  {
    if sortBy == "amount" then
      if order == Desc then (a: CategoryExpense, b: CategoryExpense) => a.amount >= b.amount
      else (a: CategoryExpense, b: CategoryExpense) => a.amount <= b.amount
    else if sortBy == "category" then
      if order == Desc then (a: CategoryExpense, b: CategoryExpense) => StringLe(b.category, a.category)
      else (a: CategoryExpense, b: CategoryExpense) => StringLe(a.category, b.category)
    else
      (a: CategoryExpense, b: CategoryExpense) => true
  }

  lemma ComparatorIsTotalPreorder(sortBy: string, order: SortOrder)
    ensures TotalPreorder(Comparator(sortBy, order))
  {
    var le := Comparator(sortBy, order);
    if sortBy == "category" {
      forall a: CategoryExpense, b: CategoryExpense
        ensures le(a, b) || le(b, a)
      {
        StringLeTotal(a.category, b.category);
      }
      forall a: CategoryExpense, b: CategoryExpense, c: CategoryExpense | le(a, b) && le(b, c)
        ensures le(a, c)
      {
        if order == Desc {
          StringLeTransitive(c.category, b.category, a.category);
        } else {
          StringLeTransitive(a.category, b.category, c.category);
        }
      }
    }
  }

  function SortExpenses(es: seq<CategoryExpense>, sortBy: string, order: SortOrder): (r: seq<CategoryExpense>)
    ensures multiset(r) == multiset(es)
    ensures sortBy == "amount" && order == Desc ==>
              forall i, j :: 0 <= i < j < |r| ==> r[i].amount >= r[j].amount
    ensures sortBy == "amount" && order == Asc ==>
              forall i, j :: 0 <= i < j < |r| ==> r[i].amount <= r[j].amount
    ensures sortBy == "category" && order == Desc ==>
              forall i, j :: 0 <= i < j < |r| ==> StringLe(r[j].category, r[i].category)
    ensures sortBy == "category" && order == Asc ==>
              forall i, j :: 0 <= i < j < |r| ==> StringLe(r[i].category, r[j].category)
    ensures sortBy != "amount" && sortBy != "category" ==> r == es
  {
    var le := Comparator(sortBy, order);
    ComparatorIsTotalPreorder(sortBy, order);
    var r := Sort(es, le);
    assert SortedBy(r, le);
    assert sortBy != "amount" && sortBy != "category" ==> r == es by {
      if sortBy != "amount" && sortBy != "category" {
        SortOfSorted(es, le);
      }
    }
    r
  }

  /** The exact description of one row of the category table. */
  predicate IsCategoryRow(e: CategoryExpense, filtered: seq<Transaction>, cats: seq<Category>)
  {
    && IsExpenseIn(filtered, e.category)
    && e.amount == CategorySpend(filtered, e.category)
    && e.percentage == Percentage(e.amount, ExpenseTotal(filtered))
    && 0 <= e.percentage <= 100
    && e.color == ColorOf(cats, e.category)
  }

  /** categoryExpenses: the per-category totals of the filtered
      transactions with their rounded share of the total, sorted. */
  function CategoryExpenses(filtered: seq<Transaction>, cats: seq<Category>, sortBy: string, order: SortOrder)
    : (r: seq<CategoryExpense>)
    ensures forall e :: e in r ==> IsCategoryRow(e, filtered, cats)
    ensures forall c :: c in CategoryNames(r) <==> IsExpenseIn(filtered, c)
    ensures Distinct(CategoryNames(r))
    ensures SpendTotal(r) == ExpenseTotal(filtered)
    ensures sortBy == "amount" && order == Desc ==>
              forall i, j :: 0 <= i < j < |r| ==> r[i].amount >= r[j].amount
    ensures sortBy == "amount" && order == Asc ==>
              forall i, j :: 0 <= i < j < |r| ==> r[i].amount <= r[j].amount
    ensures sortBy == "category" && order == Desc ==>
              forall i, j :: 0 <= i < j < |r| ==> StringLe(r[j].category, r[i].category)
    ensures sortBy == "category" && order == Asc ==>
              forall i, j :: 0 <= i < j < |r| ==> StringLe(r[i].category, r[j].category)
  {
    var expenses := GetExpensesByCategory(filtered, cats);
    var total := SpendTotal(expenses);
    var rows := WithPercentages(expenses, total);
    var r := SortExpenses(rows, sortBy, order);
    RowsAreCategoryRows(filtered, cats, expenses, rows);
    assert CategoryNames(rows) == CategoryNames(expenses);
    PermutationKeepsRows(rows, r, filtered, cats);
    r
  }

  lemma RowsAreCategoryRows(filtered: seq<Transaction>, cats: seq<Category>,
                            expenses: seq<CategoryExpense>, rows: seq<CategoryExpense>)
    requires expenses == GetExpensesByCategory(filtered, cats)
    requires rows == WithPercentages(expenses, SpendTotal(expenses))
    ensures forall e :: e in rows ==> IsCategoryRow(e, filtered, cats)
    ensures SpendTotal(rows) == SpendTotal(expenses)
  {
    var total := SpendTotal(expenses);
    forall e | e in rows
      ensures IsCategoryRow(e, filtered, cats)
    {
      var i :| 0 <= i < |rows| && rows[i] == e;
      assert expenses[i].category in CategoryNames(expenses);
      assert 0.0 <= e.amount <= total by {
        SpendTotalBound(expenses, i);
      }
    }
    SpendTotalSameAmounts(rows, expenses);
  }

  lemma {:induction false} SpendTotalBound(es: seq<CategoryExpense>, i: nat)
    requires i < |es|
    requires forall k :: 0 <= k < |es| ==> es[k].amount >= 0.0
    ensures es[i].amount <= SpendTotal(es)
    ensures SpendTotal(es) >= 0.0
    decreases |es|
  {
    if |es| > 1 {
      SpendTotalBound(es[..|es| - 1], if i < |es| - 1 then i else 0);
    }
  }

  lemma {:induction false} SpendTotalSameAmounts(a: seq<CategoryExpense>, b: seq<CategoryExpense>)
    requires |a| == |b|
    requires forall i :: 0 <= i < |a| ==> a[i].amount == b[i].amount
    ensures SpendTotal(a) == SpendTotal(b)
    decreases |a|
  {
    if |a| > 0 {
      SpendTotalSameAmounts(a[..|a| - 1], b[..|b| - 1]);
    }
  }

  /** What the sort preserves: the rows, their category names, their total. */
  lemma PermutationKeepsRows(a: seq<CategoryExpense>, b: seq<CategoryExpense>,
                             filtered: seq<Transaction>, cats: seq<Category>)
    requires multiset(a) == multiset(b)
    requires forall e :: e in a ==> IsCategoryRow(e, filtered, cats)
    requires Distinct(CategoryNames(a))
    ensures forall e :: e in b ==> IsCategoryRow(e, filtered, cats)
    ensures forall c :: c in CategoryNames(b) <==> c in CategoryNames(a)
    ensures Distinct(CategoryNames(b))
    ensures SpendTotal(b) == SpendTotal(a)
  {
    SameElements(a, b);
    SameElements(b, a);
    SameNames(a, b);
    SameNames(b, a);
    DistinctNamesTransfer(a, b);
    SpendTotalPermutation(a, b);
  }

  lemma SameElements<T>(a: seq<T>, b: seq<T>)
    requires multiset(a) == multiset(b)
    ensures forall e :: e in b ==> e in a
  {
    forall e | e in b
      ensures e in a
    {
      assert e in multiset(b);
    }
  }

  lemma SameNames(a: seq<CategoryExpense>, b: seq<CategoryExpense>)
    requires multiset(a) == multiset(b)
    ensures forall c :: c in CategoryNames(a) ==> c in CategoryNames(b)
  {
    forall c | c in CategoryNames(a)
      ensures c in CategoryNames(b)
    {
      var i :| 0 <= i < |a| && CategoryNames(a)[i] == c;
      assert a[i] in multiset(b);
      var j :| 0 <= j < |b| && b[j] == a[i];
      assert CategoryNames(b)[j] == c;
    }
  }

  lemma DistinctNamesTransfer(a: seq<CategoryExpense>, b: seq<CategoryExpense>)
    requires multiset(a) == multiset(b)
    requires Distinct(CategoryNames(a))
    ensures Distinct(CategoryNames(b))
  {
    forall i, j | 0 <= i < j < |b|
      ensures b[i].category != b[j].category
    {
      if b[i].category == b[j].category {
        assert b[i] in multiset(a) && b[j] in multiset(a);
        var k1 :| 0 <= k1 < |a| && a[k1] == b[i];
        var k2 :| 0 <= k2 < |a| && a[k2] == b[j];
        assert k1 == k2;
        CountAtLeastTwo(b, i, j);
        CountOneWhenNamesDistinct(a, k1);
        assert false;
      }
    }
  }

  lemma CountAtLeastTwo<T>(s: seq<T>, i: nat, j: nat)
    requires i < j < |s| && s[i] == s[j]
    ensures multiset(s)[s[i]] >= 2
  {
    assert s == s[..i] + [s[i]] + s[i + 1..j] + [s[j]] + s[j + 1..];
  }

  lemma CountOneWhenNamesDistinct(a: seq<CategoryExpense>, k: nat)
    requires k < |a| && Distinct(CategoryNames(a))
    ensures multiset(a)[a[k]] == 1
  {
    assert a == a[..k] + [a[k]] + a[k + 1..];
    assert forall m :: 0 <= m < |a| && m != k ==> a[m] != a[k] by {
      forall m | 0 <= m < |a| && m != k
        ensures a[m] != a[k]
      {
        assert CategoryNames(a)[m] != CategoryNames(a)[k];
      }
    }
    assert a[k] !in a[..k];
    assert a[k] !in a[k + 1..];
  }

  lemma {:induction false} SpendTotalAppend(p: seq<CategoryExpense>, q: seq<CategoryExpense>)
    ensures SpendTotal(p + q) == SpendTotal(p) + SpendTotal(q)
    decreases |q|
  {
    if |q| == 0 {
      assert p + q == p;
    } else {
      SpendTotalAppend(p, q[..|q| - 1]);
      assert (p + q)[..|p + q| - 1] == p + q[..|q| - 1];
    }
  }

  /** totalExpenses, summed after the sort, equals the total before it. */
  lemma {:induction false} SpendTotalPermutation(a: seq<CategoryExpense>, b: seq<CategoryExpense>)
    requires multiset(a) == multiset(b)
    ensures SpendTotal(a) == SpendTotal(b)
    decreases |a|
  {
    if |a| == 0 {
      assert |b| == |multiset(b)| == 0;
    } else {
      var x := a[|a| - 1];
      assert x in multiset(b);
      var j :| 0 <= j < |b| && b[j] == x;
      var b' := b[..j] + b[j + 1..];
      assert b == b[..j] + [x] + b[j + 1..];
      assert a == a[..|a| - 1] + [x];
      assert multiset(b) == multiset(b[..j]) + multiset{x} + multiset(b[j + 1..]);
      assert multiset(b') == multiset(b[..j]) + multiset(b[j + 1..]);
      assert multiset(a) == multiset(a[..|a| - 1]) + multiset{x};
      assert multiset(b') == multiset(b) - multiset{x};
      assert multiset(a[..|a| - 1]) == multiset(a) - multiset{x};
      SpendTotalPermutation(a[..|a| - 1], b');
      SpendTotalAppend(b[..j] + [x], b[j + 1..]);
      SpendTotalAppend(b[..j], [x]);
      SpendTotalAppend(b[..j], b[j + 1..]);
      assert SpendTotal([x]) == x.amount by {
        assert [x][..0] == [];
      }
    }
  }

  // ---------------------------------------------------------------------
  // The budget card of one category

  const DefaultBudget: real := 1000.0

  /** `categories.find(c => c.name === name)?.budget || 1000`: the first
      same-named category's budget unless it is missing or zero (falsy). */
  function BudgetOf(cats: seq<Category>, name: string): (b: real)
    ensures b != 0.0
    ensures (forall i :: 0 <= i < |cats| ==> cats[i].name != name) ==> b == DefaultBudget
    ensures forall i :: (0 <= i < |cats| && cats[i].name == name
                         && forall j :: 0 <= j < i ==> cats[j].name != name) ==>
                          b == if cats[i].budget.Some? && cats[i].budget.value != 0.0
                               then cats[i].budget.value else DefaultBudget
  {
    match FindFirst(cats, (c: Category) => c.name == name)
    case Some(c) => if c.budget.Some? && c.budget.value != 0.0 then c.budget.value else DefaultBudget
    case None => DefaultBudget
  }

  datatype BudgetStatus = OverBudget | Warning | WithinBudget

  /** The icon rule: over budget when spent exceeds the budget, otherwise a
      warning above 80 % of it, otherwise fine. */
  function StatusOf(spent: real, budget: real): (s: BudgetStatus)
    requires budget != 0.0
  {
    if spent > budget then OverBudget
    else if spent / budget * 100.0 > 80.0 then Warning
    else WithinBudget
  }

  /** For a positive budget the three icons partition the spending range:
      (budget, ∞), (0.8 × budget, budget] and (-∞, 0.8 × budget]. */
  lemma StatusPartitionsSpending(spent: real, budget: real)
    requires budget > 0.0
    ensures StatusOf(spent, budget) == OverBudget <==> spent > budget
    ensures StatusOf(spent, budget) == Warning <==> 0.8 * budget < spent <= budget
    ensures StatusOf(spent, budget) == WithinBudget <==> spent <= 0.8 * budget
  {
    UsageAboveEighty(spent, budget);
  }

  lemma UsageAboveEighty(spent: real, budget: real)
    requires budget > 0.0
    ensures spent / budget * 100.0 > 80.0 <==> spent > 0.8 * budget
  {
    var q := spent / budget;
    assert q * budget == spent;
    if q > 0.8 {
      assert (q - 0.8) * budget > 0.0;
    } else {
      assert (0.8 - q) * budget >= 0.0;
    }
  }

  /** The colour of the "remaining" line: red when over budget, yellow when
      less than a fifth of the budget is left, green otherwise. */
  function RemainingTone(spent: real, budget: real): BudgetStatus
  {
    var remaining := budget - spent;
    if spent > budget then OverBudget
    else if remaining < budget * 0.2 then Warning
    else WithinBudget
  }

  /** The remaining-line colour always agrees with the icon when the budget
      is positive. */
  lemma ToneAgreesWithIcon(spent: real, budget: real)
    requires budget > 0.0
    ensures RemainingTone(spent, budget) == StatusOf(spent, budget)
  {
    StatusPartitionsSpending(spent, budget);
  }

  datatype Card = Card(
    budget: real, spent: real, usage: real, remaining: real,
    status: BudgetStatus, barWidth: real,
    count: nat, preview: seq<Transaction>, moreLabel: Option<nat>)

  const PreviewSize: nat := 3

  /** `(spent / budget) * 100`. */
  function Usage(spent: real, budget: real): (u: real)
    requires budget != 0.0
    ensures u * budget == spent * 100.0
  {
    spent / budget * 100.0
  }

  /** The transactions of one category, in order. */
  function InCategory(filtered: seq<Transaction>, name: string): (r: seq<Transaction>)
    ensures forall t :: t in r <==> t in filtered && t.category == name
    ensures forall t :: multiset(r)[t] == if t.category == name then multiset(filtered)[t] else 0
    ensures IsSubsequence(r, filtered)
  {
    Filter(filtered, (t: Transaction) => t.category == name)
  }

  /** `slice(0, 3)`. */
  function PreviewOf(xs: seq<Transaction>): (p: seq<Transaction>)
    ensures |p| == if |xs| < PreviewSize then |xs| else PreviewSize
    ensures p <= xs
  {
    if |xs| < PreviewSize then xs else xs[..PreviewSize]
  }

  /** The "+n more" label, shown only when the preview hides something. */
  function MoreLabel(n: nat): (l: Option<nat>)
    ensures l.Some? <==> n > PreviewSize
    ensures l.Some? ==> l.value + PreviewSize == n
  {
    if n > PreviewSize then Some(n - PreviewSize) else None
  }

  function CategoryCard(e: CategoryExpense, cats: seq<Category>, filtered: seq<Transaction>): (card: Card)
    ensures card.budget == BudgetOf(cats, e.category) && card.spent == e.amount
    ensures card.budget != 0.0 && card.usage == Usage(card.spent, card.budget)
    ensures card.remaining + card.spent == card.budget
    ensures card.status == StatusOf(card.spent, card.budget)
    ensures card.barWidth <= 100.0 && card.barWidth <= card.usage
    ensures card.barWidth == 100.0 || card.barWidth == card.usage
    ensures card.count == |InCategory(filtered, e.category)|
    ensures card.preview <= InCategory(filtered, e.category)
    ensures |card.preview| == if card.count < PreviewSize then card.count else PreviewSize
    ensures card.moreLabel.Some? <==> card.count > PreviewSize
    ensures card.moreLabel.Some? ==> card.moreLabel.value == card.count - PreviewSize
  {
    var inCategory := InCategory(filtered, e.category);
    var budget := BudgetOf(cats, e.category);
    var usage := Usage(e.amount, budget);
    Card(budget, e.amount, usage, budget - e.amount, StatusOf(e.amount, budget), Min(usage, 100.0),
         |inCategory|, PreviewOf(inCategory), MoreLabel(|inCategory|))
  }

  /** Every transaction previewed on a card belongs to the card's category
      and is one of the filtered transactions. */
  lemma PreviewBelongsToCategory(e: CategoryExpense, cats: seq<Category>, filtered: seq<Transaction>)
    ensures forall t :: t in CategoryCard(e, cats, filtered).preview ==> t in filtered && t.category == e.category
  {
    var card := CategoryCard(e, cats, filtered);
    var all := InCategory(filtered, e.category);
    forall t | t in card.preview
      ensures t in all
    {
      var i :| 0 <= i < |card.preview| && card.preview[i] == t;
      assert all[i] == t;
    }
  }

  // ---------------------------------------------------------------------
  // monthlyTrends

  /** The bucket label `toLocaleDateString('en-US', {month: 'short', year:
      '2-digit'})`: month and two-digit year, so years a century apart share
      a bucket. */
  datatype TrendMonth = TrendMonth(shortYear: int, month: int)

  function MonthOf(t: Transaction): TrendMonth
  {
    TrendMonth(t.date.year % 100, t.date.month)
  }

  datatype TrendBucket = TrendBucket(month: TrendMonth, totals: seq<Entry<string>>)

  function Months(bs: seq<TrendBucket>): (r: seq<TrendMonth>)
    ensures |r| == |bs|
    ensures forall i :: 0 <= i < |bs| ==> r[i] == bs[i].month
  {
    seq(|bs|, i requires 0 <= i < |bs| => bs[i].month)
  }

  function TxMonths(txs: seq<Transaction>): (r: seq<TrendMonth>)
    ensures |r| == |txs|
    ensures forall i :: 0 <= i < |txs| ==> r[i] == MonthOf(txs[i])
  {
    seq(|txs|, i requires 0 <= i < |txs| => MonthOf(txs[i]))
  }

  /** The (category, |amount|) pairs of the transactions of month m, in order. */
  function MonthEntries(txs: seq<Transaction>, m: TrendMonth): seq<Entry<string>>
  {
    if |txs| == 0 then []
    else
      var t := txs[|txs| - 1];
      MonthEntries(txs[..|txs| - 1], m) + (if MonthOf(t) == m then [Entry(t.category, Abs(t.amount))] else [])
  }

  /** The sum of |amount| over the transactions of month m and category c. */
  function BucketSpend(txs: seq<Transaction>, m: TrendMonth, c: string): real
  {
    if |txs| == 0 then 0.0
    else
      var t := txs[|txs| - 1];
      BucketSpend(txs[..|txs| - 1], m, c) + (if MonthOf(t) == m && t.category == c then Abs(t.amount) else 0.0)
  }

  predicate WellFormedTrends(acc: seq<TrendBucket>)
  {
    forall i :: 0 <= i < |acc| ==> Distinct(Keys(acc[i].totals))
  }

  /** One step of the forEach: add |amount| to the (month, category) cell,
      creating the month bucket or the category cell as needed. */
  function AddToTrends(acc: seq<TrendBucket>, t: Transaction): seq<TrendBucket>
    requires WellFormedTrends(acc)
  {
    var m := MonthOf(t);
    var e := Entry(t.category, Abs(t.amount));
    if m in Months(acc) then
      var i := FirstIndex(Months(acc), m);
      acc[i := TrendBucket(m, Accumulate(acc[i].totals, e))]
    else
      acc + [TrendBucket(m, [e])]
  }

  function TrendFold(txs: seq<Transaction>): (r: seq<TrendBucket>)
    ensures Months(r) == Dedup(TxMonths(txs))
    ensures forall i :: 0 <= i < |r| ==> r[i].totals == GroupSum(MonthEntries(txs, r[i].month))
    ensures WellFormedTrends(r)
    decreases |txs|
  {
    if |txs| == 0 then []
    else
      var init := txs[..|txs| - 1];
      var rest := TrendFold(init);
      var r := AddToTrends(rest, txs[|txs| - 1]);
      TrendStep(txs, rest, r);
      r
  }

  lemma MonthEntriesAbsent(txs: seq<Transaction>, m: TrendMonth)
    requires m !in TxMonths(txs)
    ensures MonthEntries(txs, m) == []
  {
    if |txs| > 0 {
      assert TxMonths(txs[..|txs| - 1]) <= TxMonths(txs);
      MonthEntriesAbsent(txs[..|txs| - 1], m);
    }
  }

  lemma GroupSumSnoc<K(!new)>(es: seq<Entry<K>>, e: Entry<K>)
    ensures Distinct(Keys(GroupSum(es)))
    ensures GroupSum(es + [e]) == Accumulate(GroupSum(es), e)
  {
    assert (es + [e])[..|es|] == es;
  }

  lemma {:induction false} TrendStep(txs: seq<Transaction>, rest: seq<TrendBucket>, r: seq<TrendBucket>)
    requires |txs| > 0
    requires Months(rest) == Dedup(TxMonths(txs[..|txs| - 1]))
    requires forall i :: 0 <= i < |rest| ==> rest[i].totals == GroupSum(MonthEntries(txs[..|txs| - 1], rest[i].month))
    requires WellFormedTrends(rest)
    requires r == AddToTrends(rest, txs[|txs| - 1])
    ensures Months(r) == Dedup(TxMonths(txs))
    ensures forall i :: 0 <= i < |r| ==> r[i].totals == GroupSum(MonthEntries(txs, r[i].month))
    ensures WellFormedTrends(r)
  {
    TrendStepMonths(txs, rest, r);
    TrendStepTotals(txs, rest, r);
    forall i | 0 <= i < |r|
      ensures Distinct(Keys(r[i].totals))
    {
      assert Keys(GroupSum(MonthEntries(txs, r[i].month))) == Dedup(Keys(MonthEntries(txs, r[i].month)));
    }
  }

  lemma TxMonthsSnoc(txs: seq<Transaction>)
    requires |txs| > 0
    ensures TxMonths(txs) == TxMonths(txs[..|txs| - 1]) + [MonthOf(txs[|txs| - 1])]
  {
  }

  lemma {:induction false} TrendStepMonths(txs: seq<Transaction>, rest: seq<TrendBucket>, r: seq<TrendBucket>)
    requires |txs| > 0
    requires Months(rest) == Dedup(TxMonths(txs[..|txs| - 1]))
    requires WellFormedTrends(rest)
    requires r == AddToTrends(rest, txs[|txs| - 1])
    ensures Months(r) == Dedup(TxMonths(txs))
  {
    var m := MonthOf(txs[|txs| - 1]);
    TxMonthsSnoc(txs);
    var all := TxMonths(txs);
    assert all[..|all| - 1] == TxMonths(txs[..|txs| - 1]);
    if m in Months(rest) {
      assert Months(r) == Months(rest);
    } else {
      assert Months(r) == Months(rest) + [m];
    }
  }

  lemma MonthEntriesOther(txs: seq<Transaction>, m: TrendMonth)
    requires |txs| > 0 && MonthOf(txs[|txs| - 1]) != m
    ensures MonthEntries(txs, m) == MonthEntries(txs[..|txs| - 1], m)
  {
    assert MonthEntries(txs[..|txs| - 1], m) + [] == MonthEntries(txs[..|txs| - 1], m);
  }

  lemma {:induction false} TrendStepTotals(txs: seq<Transaction>, rest: seq<TrendBucket>, r: seq<TrendBucket>)
    requires |txs| > 0
    requires Months(rest) == Dedup(TxMonths(txs[..|txs| - 1]))
    requires forall i :: 0 <= i < |rest| ==> rest[i].totals == GroupSum(MonthEntries(txs[..|txs| - 1], rest[i].month))
    requires WellFormedTrends(rest)
    requires r == AddToTrends(rest, txs[|txs| - 1])
    ensures forall i :: 0 <= i < |r| ==> r[i].totals == GroupSum(MonthEntries(txs, r[i].month))
  {
    forall i | 0 <= i < |r|
      ensures r[i].totals == GroupSum(MonthEntries(txs, r[i].month))
    {
      TrendStepAt(txs, rest, r, i);
    }
  }

  lemma {:induction false} TrendStepAt(txs: seq<Transaction>, rest: seq<TrendBucket>, r: seq<TrendBucket>, i: nat)
    requires |txs| > 0
    requires Months(rest) == Dedup(TxMonths(txs[..|txs| - 1]))
    requires forall i :: 0 <= i < |rest| ==> rest[i].totals == GroupSum(MonthEntries(txs[..|txs| - 1], rest[i].month))
    requires WellFormedTrends(rest)
    requires r == AddToTrends(rest, txs[|txs| - 1])
    requires i < |r|
    ensures r[i].totals == GroupSum(MonthEntries(txs, r[i].month))
  {
    var init := txs[..|txs| - 1];
    var t := txs[|txs| - 1];
    var m := MonthOf(t);
    var e := Entry(t.category, Abs(t.amount));
    if i < |rest| && rest[i].month != m {
      MonthEntriesOther(txs, rest[i].month);
      if m in Months(rest) {
        var k := FirstIndex(Months(rest), m);
        assert r == rest[k := TrendBucket(m, Accumulate(rest[k].totals, e))];
        assert i != k;
      } else {
        assert r == rest + [TrendBucket(m, [e])];
      }
      assert r[i] == rest[i];
    } else {
      MonthEntriesSame(txs);
      GroupSumSnoc(MonthEntries(init, m), e);
      if m in Months(rest) {
        var k := FirstIndex(Months(rest), m);
        assert r == rest[k := TrendBucket(m, Accumulate(rest[k].totals, e))];
        assert Months(rest)[i] == m;
        assert i == k;
      } else {
        assert r == rest + [TrendBucket(m, [e])];
        assert i == |rest|;
        TxMonthsSnoc(txs);
        assert m !in TxMonths(init);
        MonthEntriesAbsent(init, m);
        assert [] + [e] == [e];
      }
    }
  }

  lemma MonthEntriesSame(txs: seq<Transaction>)
    requires |txs| > 0
    ensures var t := txs[|txs| - 1];
            MonthEntries(txs, MonthOf(t)) == MonthEntries(txs[..|txs| - 1], MonthOf(t)) + [Entry(t.category, Abs(t.amount))]
  {
  }

  lemma {:induction false} MonthEntriesKeySum(txs: seq<Transaction>, m: TrendMonth, c: string)
    ensures KeySum(MonthEntries(txs, m), c) == BucketSpend(txs, m, c)
    decreases |txs|
  {
    if |txs| > 0 {
      var init := txs[..|txs| - 1];
      var t := txs[|txs| - 1];
      MonthEntriesKeySum(init, m, c);
      var e := MonthEntries(init, m);
      if MonthOf(t) == m {
        assert (e + [Entry(t.category, Abs(t.amount))])[..|e|] == e;
      } else {
        assert e + [] == e;
      }
    }
  }

  /** monthlyTrends: the month buckets in first-appearance order, keeping
      only the last six. */
  function MonthlyTrends(txs: seq<Transaction>): (r: seq<TrendBucket>)
    ensures var all := TrendFold(txs);
            && |r| == (if |all| < 6 then |all| else 6)
            && r == all[|all| - |r|..]
  {
    var all := TrendFold(txs);
    if |all| > 6 then all[|all| - 6..] else all
  }

  /** Each cell of the trend chart is the sum of |amount| over the
      transactions of that month and category, and each bucket lists every
      category of its month once. */
  lemma TrendCellsAreBucketSums(txs: seq<Transaction>)
    ensures var r := MonthlyTrends(txs);
            forall i, j :: 0 <= i < |r| && 0 <= j < |r[i].totals| ==>
              r[i].totals[j].amount == BucketSpend(txs, r[i].month, r[i].totals[j].key)
    ensures var r := MonthlyTrends(txs);
            forall i :: 0 <= i < |r| ==> Distinct(Keys(r[i].totals)) && r[i].month in TxMonths(txs)
  {
    var all := TrendFold(txs);
    var r := MonthlyTrends(txs);
    forall i, j | 0 <= i < |r| && 0 <= j < |r[i].totals|
      ensures r[i].totals[j].amount == BucketSpend(txs, r[i].month, r[i].totals[j].key)
    {
      var k := |all| - |r| + i;
      assert r[i] == all[k];
      MonthEntriesKeySum(txs, r[i].month, r[i].totals[j].key);
    }
    forall i | 0 <= i < |r|
      ensures r[i].month in TxMonths(txs)
    {
      var k := |all| - |r| + i;
      assert r[i] == all[k];
      assert Months(all)[k] == all[k].month;
    }
  }
}
