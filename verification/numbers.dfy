/** Exact arithmetic standing in for the JavaScript `number` operations the
    pages use: Math.abs, Math.round, Math.min and division that may produce
    NaN or Infinity. */
module Numbers {

  function Abs(x: real): (r: real)
    ensures r >= 0.0
    ensures r == x || r == -x
  {
    if x < 0.0 then -x else x
  }

  /** Math.round: the nearest integer, with halves rounded towards +infinity. */
  function Round(x: real): (r: int)
    ensures r as real - 0.5 <= x < r as real + 0.5
  {
    (x + 0.5).Floor
  }

  lemma RoundWithin(x: real, lo: int, hi: int)
    requires lo as real <= x <= hi as real
    ensures lo <= Round(x) <= hi
  {
  }

  function Min(a: real, b: real): (r: real)
    ensures r <= a && r <= b
    ensures r == a || r == b
  {
    if a <= b then a else b
  }

  /** The outcome of a JavaScript division: a finite number; or, when the
      divisor is zero, NaN for 0/0 and an infinity with the dividend's sign
      otherwise. */
  datatype Ratio = Finite(value: real) | NaN | PosInf | NegInf

  function Divide(a: real, b: real): (r: Ratio)
    ensures r.Finite? <==> b != 0.0
    ensures r.Finite? ==> r.value * b == a
    ensures r.NaN? <==> b == 0.0 && a == 0.0
    ensures r.PosInf? <==> b == 0.0 && a > 0.0
    ensures r.NegInf? <==> b == 0.0 && a < 0.0
  {
    if b != 0.0 then Finite(a / b)
    else if a > 0.0 then PosInf
    else if a < 0.0 then NegInf
    else NaN
  }

  /** Multiplication of a ratio by a finite, non-zero factor: NaN stays NaN
      and a negative factor flips the sign of an infinity. */
  function Scale(r: Ratio, k: real): (s: Ratio)
    requires k != 0.0
    ensures s.Finite? <==> r.Finite?
    ensures s.Finite? ==> s.value == r.value * k
    ensures s.NaN? <==> r.NaN?
    ensures s.PosInf? <==> (r.PosInf? && k > 0.0) || (r.NegInf? && k < 0.0)
    ensures s.NegInf? <==> (r.NegInf? && k > 0.0) || (r.PosInf? && k < 0.0)
  {
    match r
    case Finite(v) => Finite(v * k)
    case NaN => NaN
    case PosInf => if k > 0.0 then PosInf else NegInf
    case NegInf => if k > 0.0 then NegInf else PosInf
  }

  /** `(a / b) * 100` without a guard. */
  function Percent(a: real, b: real): (r: Ratio)
    ensures r.Finite? <==> b != 0.0
    ensures r.Finite? ==> r.value * b == a * 100.0
    ensures r.NaN? <==> b == 0.0 && a == 0.0
    ensures r.PosInf? <==> b == 0.0 && a > 0.0
    ensures r.NegInf? <==> b == 0.0 && a < 0.0
  {
    var q := Divide(a, b);
    assert q.Finite? ==> q.value * 100.0 * b == q.value * b * 100.0;
    Scale(q, 100.0)
  }
}
