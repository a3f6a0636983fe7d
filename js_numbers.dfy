/** JavaScript numbers as the core uses them: exact reals for the finite
    values, and the three non-finite values kept apart because some of the
    source's formulas (Math.min/Math.max/Math.floor) treat them differently.
    Floating-point rounding is not modelled. */
module JsNumbers {

  datatype JsNumber = Finite(value: real) | NaN | PosInfinity | NegInfinity {
    /** `Number.isFinite(v)` */
    predicate IsFinite() { Finite? }
  }

  /** `Math.round(x)`: the nearest integer, halves rounded up. */
  function Round(x: real): (r: int)
    ensures x - 1.0 / 2.0 < r as real <= x + 1.0 / 2.0
  {
    (x + 1.0 / 2.0).Floor
  }

  lemma RoundOfInteger(n: int)
    ensures Round(n as real) == n
  {
  }

  function MinInt(a: int, b: int): int { if a <= b then a else b }
  function MaxInt(a: int, b: int): int { if a >= b then a else b }
  function MinReal(a: real, b: real): real { if a <= b then a else b }
  function MaxReal(a: real, b: real): real { if a >= b then a else b }
  function AbsReal(a: real): real { if a >= 0.0 then a else -a }

  /** The order of the non-NaN numbers: -Infinity, the finite values, +Infinity. */
  predicate LessOrEqual(a: JsNumber, b: JsNumber)
    requires !a.NaN? && !b.NaN?
  {
    match (a, b)
    case (NegInfinity, _) => true
    case (_, PosInfinity) => true
    case (Finite(x), Finite(y)) => x <= y
    case _ => false
  }

  /** `Math.min(a, b)`: NaN if either argument is NaN. */
  function JsMin(a: JsNumber, b: JsNumber): (r: JsNumber)
    ensures r.NaN? <==> a.NaN? || b.NaN?
    ensures !r.NaN? ==> (r == a || r == b) && LessOrEqual(r, a) && LessOrEqual(r, b)
  {
    if a.NaN? || b.NaN? then NaN else if LessOrEqual(a, b) then a else b
  }

  /** `Math.max(a, b)`: NaN if either argument is NaN. */
  function JsMax(a: JsNumber, b: JsNumber): (r: JsNumber)
    ensures r.NaN? <==> a.NaN? || b.NaN?
    ensures !r.NaN? ==> (r == a || r == b) && LessOrEqual(a, r) && LessOrEqual(b, r)
  {
    if a.NaN? || b.NaN? then NaN else if LessOrEqual(a, b) then b else a
  }

  /** `Math.floor(x)`; the non-finite values are their own floor. */
  function JsFloor(x: JsNumber): (r: JsNumber)
    ensures r.Finite? <==> x.Finite?
    ensures x.Finite? ==> r.value == x.value.Floor as real
    ensures !x.Finite? ==> r == x
  {
    if x.Finite? then Finite(x.value.Floor as real) else x
  }

  /** `Math.min(max, Math.max(min, Math.round(v)))` for a finite `v`. */
  function ClampRound(v: real, min: int, max: int): (r: int)
    ensures min <= max ==> min <= r <= max
    ensures min <= Round(v) <= max ==> r == Round(v)
    ensures Round(v) < min <= max ==> r == min
    ensures max < Round(v) ==> r == max
  {
    MinInt(max, MaxInt(min, Round(v)))
  }
}
