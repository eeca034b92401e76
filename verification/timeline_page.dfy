/** The dividend timeline page: the monthly history filtered by year, its
    total, average and extreme months, the running total drawn by the chart,
    the year selector's options and the month-over-month variation column. */
module TimelinePage {
  import opened Text
  import opened Collections
  import opened MockData

  /** `filteredData`: every month for 'all', otherwise the months whose
      'YYYY-MM' string starts with the selected year. */
  function FilterByYear(data: seq<MonthlyDividend>, year: string): (r: seq<MonthlyDividend>)
    ensures year == "all" ==> r == data
    ensures year != "all" ==> IsSubsequence(r, data)
    ensures year != "all" ==>
              forall d :: multiset(r)[d] == if StartsWith(d.month, year) then multiset(data)[d] else 0
  {
    if year == "all" then data else Filter(data, (d: MonthlyDividend) => StartsWith(d.month, year))
  }

  /** `reduce((sum, item) => sum + item.amount, 0)`. */
  function Sum(data: seq<MonthlyDividend>): real
  {
    if |data| == 0 then 0.0 else Sum(data[..|data| - 1]) + data[|data| - 1].amount
  }

  /** `averageMonthly`. */
  function Average(data: seq<MonthlyDividend>): (r: real)
    ensures |data| == 0 ==> r == 0.0
    ensures |data| > 0 ==> r * |data| as real == Sum(data)
  {
    if |data| > 0 then Sum(data) / |data| as real else 0.0
  }

  /** The `{ amount, month }` the page reads from highestMonth and lowestMonth. */
  datatype Peak = Peak(month: string, amount: real)

  const NoPeak := Peak("", 0.0)

  function PeakOf(d: MonthlyDividend): Peak
  {
    Peak(d.month, d.amount)
  }

  /** Index i holds a maximal amount and every earlier amount is strictly
      smaller: the element a strict-`>` reduce ends with. */
  predicate FirstMaxAt(data: seq<MonthlyDividend>, i: int)
  {
    && 0 <= i < |data|
    && (forall j :: 0 <= j < |data| ==> data[j].amount <= data[i].amount)
    && (forall j :: 0 <= j < i ==> data[j].amount < data[i].amount)
  }

  predicate FirstMinAt(data: seq<MonthlyDividend>, i: int)
  {
    && 0 <= i < |data|
    && (forall j :: 0 <= j < |data| ==> data[i].amount <= data[j].amount)
    && (forall j :: 0 <= j < i ==> data[i].amount < data[j].amount)
  }

  /** `highestMonth`: the reduce that replaces the running maximum only on a
      strictly larger amount, seeded with the first month or the placeholder. */
  method HighestMonth(data: seq<MonthlyDividend>) returns (best: Peak)
    ensures |data| == 0 ==> best == NoPeak
    ensures |data| > 0 ==> exists i :: FirstMaxAt(data, i) && best == PeakOf(data[i])
  {
    if |data| == 0 {
      return NoPeak;
    }
    var at := 0;
    var k := 0;
    while k < |data|
      invariant 0 <= k <= |data|
      invariant 0 <= at < |data| && at <= k
      invariant forall j :: 0 <= j < k ==> data[j].amount <= data[at].amount
      invariant forall j :: 0 <= j < at ==> data[j].amount < data[at].amount
    {
      if data[k].amount > data[at].amount {
        at := k;
      }
      k := k + 1;
    }
    best := PeakOf(data[at]);
    assert FirstMaxAt(data, at);
  }

  /** `lowestMonth`, the mirror image with strict `<`. */
  method LowestMonth(data: seq<MonthlyDividend>) returns (best: Peak)
    ensures |data| == 0 ==> best == NoPeak
    ensures |data| > 0 ==> exists i :: FirstMinAt(data, i) && best == PeakOf(data[i])
  {
    if |data| == 0 {
      return NoPeak;
    }
    var at := 0;
    var k := 0;
    while k < |data|
      invariant 0 <= k <= |data|
      invariant 0 <= at < |data| && at <= k
      invariant forall j :: 0 <= j < k ==> data[at].amount <= data[j].amount
      invariant forall j :: 0 <= j < at ==> data[at].amount < data[j].amount
    {
      if data[k].amount < data[at].amount {
        at := k;
      }
      k := k + 1;
    }
    best := PeakOf(data[at]);
    assert FirstMinAt(data, at);
  }

  /** There is only one first maximum (and one first minimum), so the
      extreme months are determined by the data. */
  lemma ExtremesAreUnique(data: seq<MonthlyDividend>, i: int, k: int)
    ensures FirstMaxAt(data, i) && FirstMaxAt(data, k) ==> i == k
    ensures FirstMinAt(data, i) && FirstMinAt(data, k) ==> i == k
  {
    if FirstMaxAt(data, i) && FirstMaxAt(data, k) {
      assert data[k].amount <= data[i].amount && data[i].amount <= data[k].amount;
    }
    if FirstMinAt(data, i) && FirstMinAt(data, k) {
      assert data[i].amount <= data[k].amount && data[k].amount <= data[i].amount;
    }
  }

  lemma {:induction false} SumBounds(data: seq<MonthlyDividend>, lo: real, hi: real)
    requires forall j :: 0 <= j < |data| ==> lo <= data[j].amount <= hi
    ensures lo * |data| as real <= Sum(data) <= hi * |data| as real
    decreases |data|
  {
    if |data| > 0 {
      SumBounds(data[..|data| - 1], lo, hi);
    }
  }

  /** The average lies between the lowest and the highest month. */
  lemma AverageBetweenExtremes(data: seq<MonthlyDividend>, lo: int, hi: int)
    requires FirstMinAt(data, lo) && FirstMaxAt(data, hi)
    ensures data[lo].amount <= Average(data) <= data[hi].amount
  {
    var n := |data| as real;
    SumBounds(data, data[lo].amount, data[hi].amount);
    var a := Average(data);
    assert a * n == Sum(data);
    NonNegativeFactor(a - data[lo].amount, n);
    NonNegativeFactor(data[hi].amount - a, n);
  }

  lemma NonNegativeFactor(x: real, n: real)
    requires n > 0.0 && x * n >= 0.0
    ensures x >= 0.0
  {
  }

  /** One row of the chart: the month and its running total. */
  datatype ChartRow = ChartRow(entry: MonthlyDividend, cumulativeAmount: real)

  /** The chartData loop: `cumulative += item.amount` stored on each row. */
  method Cumulative(data: seq<MonthlyDividend>) returns (rows: seq<ChartRow>)
    ensures |rows| == |data|
    ensures forall i :: 0 <= i < |data| ==>
              rows[i].entry == data[i] && rows[i].cumulativeAmount == Sum(data[..i + 1])
  {
    var cumulative := 0.0;
    rows := [];
    var k := 0;
    while k < |data|
      invariant 0 <= k <= |data|
      invariant |rows| == k
      invariant cumulative == Sum(data[..k])
      invariant forall i :: 0 <= i < k ==>
                  rows[i].entry == data[i] && rows[i].cumulativeAmount == Sum(data[..i + 1])
    {
      assert data[..k + 1][..k] == data[..k];
      cumulative := cumulative + data[k].amount;
      rows := rows + [ChartRow(data[k], cumulative)];
      k := k + 1;
    }
  }

  /** The last running total is the page's total. */
  lemma CumulativeEndsAtTotal(data: seq<MonthlyDividend>, rows: seq<ChartRow>)
    requires |data| > 0 && |rows| == |data|
    requires forall i :: 0 <= i < |data| ==> rows[i].cumulativeAmount == Sum(data[..i + 1])
    ensures rows[|rows| - 1].cumulativeAmount == Sum(data)
  {
    assert data[..|data|] == data;
  }

  /** With non-negative amounts the running total never decreases. */
  lemma CumulativeNonDecreasing(data: seq<MonthlyDividend>, rows: seq<ChartRow>)
    requires |rows| == |data|
    requires forall i :: 0 <= i < |data| ==> rows[i].cumulativeAmount == Sum(data[..i + 1])
    requires forall i :: 0 <= i < |data| ==> data[i].amount >= 0.0
    ensures forall i, j :: 0 <= i <= j < |rows| ==> rows[i].cumulativeAmount <= rows[j].cumulativeAmount
  {
    forall i, j | 0 <= i <= j < |rows|
      ensures rows[i].cumulativeAmount <= rows[j].cumulativeAmount
    {
      PrefixSumMonotone(data, i + 1, j + 1);
    }
  }

  lemma {:induction false} PrefixSumMonotone(data: seq<MonthlyDividend>, a: nat, b: nat)
    requires a <= b <= |data|
    requires forall i :: 0 <= i < |data| ==> data[i].amount >= 0.0
    ensures Sum(data[..a]) <= Sum(data[..b])
    decreases b - a
  {
    if a < b {
      PrefixSumMonotone(data, a, b - 1);
      assert data[..b][..b - 1] == data[..b - 1];
    }
  }

  /** The 4-character prefix of every month, in order. */
  function YearPrefixes(data: seq<MonthlyDividend>): (r: seq<string>)
    ensures |r| == |data|
    ensures forall i :: 0 <= i < |data| ==> r[i] == Prefix(data[i].month, 4)
  {
    seq(|data|, i requires 0 <= i < |data| => Prefix(data[i].month, 4))
  }

  /** `availableYears`: the distinct year prefixes, as a Set iterates them. */
  function AvailableYears(data: seq<MonthlyDividend>): (r: seq<string>)
    ensures Distinct(r)
    ensures forall y :: y in r <==> exists i :: 0 <= i < |data| && Prefix(data[i].month, 4) == y
  {
    var r := Dedup(YearPrefixes(data));
    assert forall y :: y in YearPrefixes(data) <==> exists i :: 0 <= i < |data| && YearPrefixes(data)[i] == y;
    r
  }

  /** The years are offered in the order their first month appears. */
  lemma AvailableYearsInFirstAppearanceOrder(data: seq<MonthlyDividend>)
    ensures var r := AvailableYears(data);
            forall i, j :: 0 <= i < j < |r| ==>
              FirstIndex(YearPrefixes(data), r[i]) < FirstIndex(YearPrefixes(data), r[j])
  {
    DedupKeepsFirstOccurrenceOrder(YearPrefixes(data));
  }

  /** The variation column: 0 unless the previous amount is positive,
      otherwise the percentage change from it. */
  function Variation(previous: real, current: real): (v: real)
    ensures previous <= 0.0 ==> v == 0.0
    ensures previous > 0.0 ==> previous + previous * v / 100.0 == current
  {
    if previous > 0.0 then (current - previous) / previous * 100.0 else 0.0
  }

  /** The variation of row i: the first row compares against 0. */
  function RowVariation(data: seq<MonthlyDividend>, i: nat): real
    requires i < |data|
  {
    Variation(if i > 0 then data[i - 1].amount else 0.0, data[i].amount)
  }

  /** Sign of the variation: up exactly when the month grew on a positive
      previous month, down exactly when it shrank; the first row is 0. */
  lemma VariationSign(data: seq<MonthlyDividend>, i: nat)
    requires i < |data|
    ensures i == 0 ==> RowVariation(data, i) == 0.0
    ensures RowVariation(data, i) > 0.0 <==> i > 0 && data[i - 1].amount > 0.0 && data[i].amount > data[i - 1].amount
    ensures RowVariation(data, i) < 0.0 <==> i > 0 && data[i - 1].amount > 0.0 && data[i].amount < data[i - 1].amount
  {
    if i > 0 && data[i - 1].amount > 0.0 {
      var p := data[i - 1].amount;
      var v := RowVariation(data, i);
      assert p * v / 100.0 == data[i].amount - p;
      if v > 0.0 {
        assert p * v > 0.0;
      } else if v < 0.0 {
        assert p * (-v) > 0.0;
      }
    }
  }
}
