/**
 * How the front end renders a number: a dash for a missing value, a
 * two-decimal mantissa with a " B", " M" or " K" suffix from a thousand
 * upwards, and otherwise the number as the browser's locale writes it. The
 * text itself (`toFixed`, `toLocaleString`) is left to the browser; the model
 * keeps which rendering is chosen and the number it is applied to.
 */
module Display {
  import opened Wrappers

  /** The suffix bucket a magnitude falls into. */
  datatype Magnitude = Billions | Millions | Thousands | Units

  /**
   * A rendered number: the en dash for null/undefined; `(x / scale).toFixed(2)`
   * followed by the bucket's suffix; `x.toFixed(2)`; or `x.toLocaleString`
   * with an optional cap on fraction digits.
   */
  datatype Formatted =
    | Dash
    | Scaled(mantissa: real, magnitude: Magnitude)
    | Fixed2(value: real)
    | Locale(value: real, maxFractionDigits: Option<nat>)

  function Abs(x: real): real {
    if x < 0.0 then -x else x
  }

  /** The bucket chosen by comparing `Math.abs(x)` with 1e9, 1e6 and 1e3, largest first. */
  function MagnitudeOf(x: real): Magnitude {
    if Abs(x) >= 1000000000.0 then Billions
    else if Abs(x) >= 1000000.0 then Millions
    else if Abs(x) >= 1000.0 then Thousands
    else Units
  }

  /** The divisor that goes with a bucket. */
  function Scale(m: Magnitude): (r: real)
    ensures r >= 1.0
  {
    match m
    case Billions => 1000000000.0
    case Millions => 1000000.0
    case Thousands => 1000.0
    case Units => 1.0
  }

  /** The suffix written after a scaled mantissa. */
  function SuffixText(m: Magnitude): string {
    match m
    case Billions => " B"
    case Millions => " M"
    case Thousands => " K"
    case Units => ""
  }

  /**
   * The bucketed rendering shared by both tables: scaled from a thousand
   * upwards, in the locale's notation below that.
   */
  function ScaledOrLocale(x: real, maxFractionDigits: Option<nat>): (r: Formatted)
    ensures r.Scaled? <==> Abs(x) >= 1000.0
    ensures r.Locale? <==> Abs(x) < 1000.0
    ensures r.Locale? ==> r.value == x && r.maxFractionDigits == maxFractionDigits
    ensures r.Scaled? ==> r.mantissa * Scale(r.magnitude) == x
    ensures r.Scaled? ==> 1.0 <= Abs(r.mantissa) && (r.magnitude != Billions ==> Abs(r.mantissa) < 1000.0)
  {
    var m := MagnitudeOf(x);
    if m == Units then Locale(x, maxFractionDigits) else Scaled(x / Scale(m), m)
  }

  /** A number and its negation land in the same bucket: only the sign of the mantissa differs. */
  lemma {:induction false} MagnitudeSymmetric(x: real)
    ensures MagnitudeOf(-x) == MagnitudeOf(x)
    ensures ScaledOrLocale(x, None).Scaled? ==>
      ScaledOrLocale(-x, None) == Scaled(-ScaledOrLocale(x, None).mantissa, ScaledOrLocale(x, None).magnitude)
  {
  }

  /** Buckets from smallest to largest. */
  function Rank(m: Magnitude): nat {
    match m
    case Units => 0
    case Thousands => 1
    case Millions => 2
    case Billions => 3
  }

  /** A larger magnitude never gets a smaller bucket. */
  lemma {:induction false} MagnitudeMonotone(x: real, y: real)
    requires Abs(x) <= Abs(y)
    ensures Rank(MagnitudeOf(x)) <= Rank(MagnitudeOf(y))
  {
  }
}
