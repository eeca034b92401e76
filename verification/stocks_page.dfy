/** The stocks page: the four portfolio cards, the per-stock table rows, the
    signed percentage text and the add-stock form reset. */
module StocksPage {
  import opened Numbers
  import opened Collections
  import opened MockData

  // ---------------------------------------------------------------------
  // Portfolio cards

  datatype PortfolioTotals = PortfolioTotals(
    totalInvested: real, totalCurrentValue: real, totalGainLoss: real, totalGainLossPercentage: real)

  /** The statistics block: the two reduce sums, their difference and the
      percentage guarded by `totalInvested > 0`. */
  function ComputeTotals(stocks: seq<Stock>): (t: PortfolioTotals)
    ensures t.totalInvested == TotalInvested(stocks)
    ensures t.totalCurrentValue == CurrentValue(stocks)
    ensures t.totalGainLoss == TotalGain(stocks)
    ensures t.totalInvested <= 0.0 ==> t.totalGainLossPercentage == 0.0
    ensures t.totalInvested > 0.0 ==> t.totalGainLossPercentage * t.totalInvested == t.totalGainLoss * 100.0
  {
    var invested := TotalInvested(stocks);
    var current := CurrentValue(stocks);
    GainsSumToReturn(stocks);
    PortfolioTotals(invested, current, current - invested, GuardedPercentage(current - invested, invested))
  }

  /** The totals card is positive exactly when the portfolio gained:
      with money invested, the percentage has the sign of the gain. */
  lemma PercentageHasSignOfGain(stocks: seq<Stock>)
    ensures var t := ComputeTotals(stocks);
            t.totalInvested > 0.0 ==>
              (t.totalGainLossPercentage > 0.0 <==> t.totalGainLoss > 0.0)
              && (t.totalGainLossPercentage < 0.0 <==> t.totalGainLoss < 0.0)
  {
    var t := ComputeTotals(stocks);
    if t.totalInvested > 0.0 {
      SignOfQuotient(t.totalGainLossPercentage, t.totalInvested, t.totalGainLoss * 100.0);
    }
  }

  lemma SignOfQuotient(p: real, w: real, x: real)
    requires w > 0.0 && p * w == x
    ensures p > 0.0 <==> x > 0.0
    ensures p < 0.0 <==> x < 0.0
  {
    if p > 0.0 { assert p * w > 0.0; }
    if p < 0.0 { assert (-p) * w > 0.0; }
    if p == 0.0 { assert p * w == 0.0; }
  }

  // ---------------------------------------------------------------------
  // Table rows

  /** One table row as written: the percentage divides by the row's own
      invested value without a guard. */
  datatype StockRow = StockRow(investedValue: real, currentValue: real, gainLoss: real, gainLossPercentage: Ratio)

  function StockRowAsWritten(s: Stock): (row: StockRow)
    ensures row.investedValue == Invested(s) && row.currentValue == Valued(s)
    ensures row.gainLoss == row.currentValue - row.investedValue
    ensures row.gainLossPercentage.Finite? <==> row.investedValue != 0.0
    ensures row.gainLossPercentage.Finite? ==>
              row.gainLossPercentage.value * row.investedValue == row.gainLoss * 100.0
    ensures row.investedValue == 0.0 ==>
              && (row.gainLossPercentage.NaN? <==> row.gainLoss == 0.0)
              && (row.gainLossPercentage.PosInf? <==> row.gainLoss > 0.0)
              && (row.gainLossPercentage.NegInf? <==> row.gainLoss < 0.0)
  {
    var invested := s.quantity * s.purchasePrice;
    var current := s.quantity * s.currentPrice;
    StockRow(invested, current, current - invested, Percent(current - invested, invested))
  }

  /** The discrepancy: a position with no shares gets 0/0 = NaN as its
      percentage, where the totals card would show 0. */
  lemma ZeroQuantityRowNotFinite(s: Stock)
    requires s.quantity == 0.0
    ensures StockRowAsWritten(s).gainLossPercentage == NaN
    ensures ComputeTotals([s]).totalGainLossPercentage == 0.0
  {
    assert TotalInvested([s]) == TotalInvested([s][..0]) + Invested(s);
  }

  /** A row whose percentage follows the totals card's guard. */
  datatype GuardedRow = GuardedRow(investedValue: real, currentValue: real, gainLoss: real, gainLossPercentage: real)

  /** The row with the guard: always a number, equal to the unguarded one
      whenever the invested value is positive, and 0 otherwise. */
  function StockRowGuarded(s: Stock): (row: GuardedRow)
    ensures var raw := StockRowAsWritten(s);
            && row.investedValue == raw.investedValue
            && row.currentValue == raw.currentValue
            && row.gainLoss == raw.gainLoss
            && (raw.investedValue > 0.0 ==> raw.gainLossPercentage == Finite(row.gainLossPercentage))
            && (raw.investedValue <= 0.0 ==> row.gainLossPercentage == 0.0)
  {
    var invested := Invested(s);
    var current := Valued(s);
    GuardedRow(invested, current, current - invested, GuardedPercentage(current - invested, invested))
  }

  /** The corrected table: one guarded row per stock, in portfolio order.
      The page itself draws `StockRowAsWritten`; the two differ only in the
      percentage column. */
  function GuardedRows(stocks: seq<Stock>): (rows: seq<GuardedRow>)
    ensures |rows| == |stocks|
    ensures forall i :: 0 <= i < |stocks| ==> rows[i] == StockRowGuarded(stocks[i])
  {
    seq(|stocks|, i requires 0 <= i < |stocks| => StockRowGuarded(stocks[i]))
  }

  function RowGainSum(rows: seq<GuardedRow>): real
  {
    if |rows| == 0 then 0.0 else RowGainSum(rows[..|rows| - 1]) + rows[|rows| - 1].gainLoss
  }

  /** The gain/loss column adds up to the gain/loss card. */
  lemma {:induction false} RowGainsSumToTotal(stocks: seq<Stock>)
    ensures RowGainSum(GuardedRows(stocks)) == ComputeTotals(stocks).totalGainLoss
    decreases |stocks|
  {
    if |stocks| > 0 {
      var init := stocks[..|stocks| - 1];
      RowGainsSumToTotal(init);
      assert GuardedRows(stocks)[..|stocks| - 1] == GuardedRows(init);
    }
  }

  /** The green/red badge of a gain/loss or percentage cell. */
  datatype Tone = Gain | Loss

  function ToneOf(v: real): (t: Tone)
    ensures t == Gain <==> v >= 0.0
  {
    if v >= 0.0 then Gain else Loss
  }

  /** The badge of the unguarded percentage cell: `NaN >= 0` and
      `-Infinity >= 0` are false and `Infinity >= 0` is true, so NaN and
      -Infinity are drawn red and +Infinity green. */
  function ToneOfRatio(r: Ratio): (t: Tone)
    ensures t == Gain <==> (r.Finite? && r.value >= 0.0) || r.PosInf?
  {
    match r
    case Finite(v) => ToneOf(v)
    case PosInf => Gain
    case _ => Loss
  }

  /** A position with no shares breaks even, so its gain/loss cell is green,
      yet its percentage cell is red. */
  lemma ZeroQuantityRowTones(s: Stock)
    requires s.quantity == 0.0
    ensures ToneOf(StockRowAsWritten(s).gainLoss) == Gain
    ensures ToneOfRatio(StockRowAsWritten(s).gainLossPercentage) == Loss
  {
    ZeroQuantityRowNotFinite(s);
  }

  /** Shares held at no cost that are now worth something: the invested
      value is 0 but the gain is positive, so the percentage is +Infinity
      and its cell is green, where the guarded row shows 0. */
  lemma ZeroCostRowInfinite(s: Stock)
    requires s.quantity > 0.0 && s.purchasePrice == 0.0 && s.currentPrice > 0.0
    ensures StockRowAsWritten(s).gainLossPercentage == PosInf
    ensures ToneOfRatio(StockRowAsWritten(s).gainLossPercentage) == Gain
    ensures StockRowGuarded(s).gainLossPercentage == 0.0
  {
  }

  // ---------------------------------------------------------------------
  // Percentage text

  function DigitChar(d: nat): (c: char)
    requires d < 10
    ensures '0' <= c <= '9'
  {
    ('0' as int + d) as char
  }

  function DigitValue(c: char): (d: nat)
    requires '0' <= c <= '9'
    ensures d < 10
  {
    (c as int - '0' as int)
  }

  predicate AllDigits(s: string)
  {
    forall i :: 0 <= i < |s| ==> '0' <= s[i] <= '9'
  }

  /** Decimal digits of n, most significant first, without leading zeros. */
  function NatToString(n: nat): (s: string)
    ensures |s| > 0 && AllDigits(s)
    decreases n
  {
    if n < 10 then [DigitChar(n)] else NatToString(n / 10) + [DigitChar(n % 10)]
  }

  function ParseNat(s: string): nat
    requires AllDigits(s)
  {
    if |s| == 0 then 0 else ParseNat(s[..|s| - 1]) * 10 + DigitValue(s[|s| - 1])
  }

  lemma {:induction false} ParseNatToString(n: nat)
    ensures ParseNat(NatToString(n)) == n
    decreases n
  {
    if n >= 10 {
      ParseNatToString(n / 10);
      var s := NatToString(n);
      assert s[..|s| - 1] == NatToString(n / 10);
    }
  }

  /** h hundredths written as '<units>.<two digits>'. */
  function Fixed(h: nat): (s: string)
    ensures |s| >= 4 && s[|s| - 3] == '.'
    ensures AllDigits(s[..|s| - 3]) && AllDigits(s[|s| - 2..])
  {
    var s := NatToString(h / 100) + "." + [DigitChar(h % 100 / 10), DigitChar(h % 10)];
    assert s[..|s| - 3] == NatToString(h / 100);
    s
  }

  /** Reads '<digits>.<digit><digit>' back as a count of hundredths. */
  function ParseFixed(s: string): Option<nat>
  {
    if |s| >= 4 && s[|s| - 3] == '.' && AllDigits(s[..|s| - 3]) && AllDigits(s[|s| - 2..]) then
      Some(ParseNat(s[..|s| - 3]) * 100 + DigitValue(s[|s| - 2]) * 10 + DigitValue(s[|s| - 1]))
    else None
  }

  lemma ParseFixedOfFixed(h: nat)
    ensures ParseFixed(Fixed(h)) == Some(h)
  {
    var s := Fixed(h);
    assert s[..|s| - 3] == NatToString(h / 100);
    ParseNatToString(h / 100);
  }

  /** The n of `toFixed(2)`: |v|·100 rounded, ties going to the larger n. */
  function Hundredths(v: real): (h: nat)
    ensures h as real - 0.5 <= Abs(v) * 100.0 < h as real + 0.5
  {
    var x := Abs(v) * 100.0;
    assert Round(x) as real > -0.5;
    Round(x)
  }

  /** `value.toFixed(2)`: a minus sign for a negative value, then the
      rounded magnitude with two decimals. */
  function ToFixed2(v: real): string
  {
    (if v < 0.0 then "-" else "") + Fixed(Hundredths(v))
  }

  /** `formatPercentage`: '+' in front exactly when the value is ≥ 0. */
  function FormatPercentage(v: real): string
  {
    (if v >= 0.0 then "+" else "") + ToFixed2(v) + "%"
  }

  /** The text starts with '+' for v ≥ 0 and '-' otherwise, ends with '%',
      and what lies between reads back as |v| rounded to hundredths. */
  lemma FormatPercentageReadsBack(v: real)
    ensures var s := FormatPercentage(v);
            && |s| >= 6
            && (s[0] == '+' <==> v >= 0.0)
            && (s[0] == '-' <==> v < 0.0)
            && s[|s| - 1] == '%'
            && ParseFixed(s[1..|s| - 1]) == Some(Hundredths(v))
            && Hundredths(v) as real - 0.5 <= Abs(v) * 100.0 < Hundredths(v) as real + 0.5
  {
    var s := FormatPercentage(v);
    var f := Fixed(Hundredths(v));
    ParseFixedOfFixed(Hundredths(v));
    assert s == [s[0]] + f + "%";
    assert s[1..|s| - 1] == f;
  }

  // ---------------------------------------------------------------------
  // Add-stock form

  datatype StockForm = StockForm(symbol: string, companyName: string, quantity: real, averagePrice: real, sector: string)

  datatype FormState = FormState(form: StockForm, showAddForm: bool)

  predicate IsBlank(f: StockForm)
  {
    f.symbol == "" && f.companyName == "" && f.quantity == 0.0 && f.averagePrice == 0.0 && f.sector == ""
  }

  /** `handleAddStock`: the submission is only logged; the form closes and
      returns to its blank initial values. */
  function HandleAddStock(s: FormState): (t: FormState)
    ensures IsBlank(t.form) && !t.showAddForm
  {
    FormState(StockForm("", "", 0.0, 0.0, ""), false)
  }

  /** Whatever was typed, submitting leaves the same state: the page's
      initial one, on which submitting again changes nothing. */
  lemma HandleAddStockForgetsInput(a: FormState, b: FormState)
    ensures HandleAddStock(a) == HandleAddStock(b)
    ensures IsBlank(a.form) && !a.showAddForm ==> HandleAddStock(a) == a
  {
  }
}
