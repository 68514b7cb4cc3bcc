/** Finite decimals, one per value: what the shortest text of a double denotes. Scaling by a power of ten
    is exact. */
module Decimals {
  import opened Numerals
  import opened Wrappers

  /** mantissa * 10^exponent. */
  datatype Scientific = Dec(mantissa: int, exponent: int) {
    predicate Normal() {
      if mantissa == 0 then exponent == 0 else mantissa % 10 != 0
    }
  }

  type Decimal = d: Scientific | d.Normal() witness Dec(0, 0)

  function Scaled(d: Decimal, shift: int): Decimal {
    if d.mantissa == 0 then d else Dec(d.mantissa, d.exponent + shift)
  }

  /** `fract() == 0.0`. */
  predicate IsWhole(d: Decimal) {
    d.exponent >= 0
  }

  function WholeValue(d: Decimal): int
    requires IsWhole(d)
  {
    d.mantissa * Pow10(d.exponent)
  }

  /** The normal form of an integer. */
  function FromInt(n: int): Decimal
    decreases if n < 0 then -n else n
  {
    if n == 0 then Dec(0, 0)
    else if n % 10 != 0 then Dec(n, 0)
    else Scaled(FromInt(n / 10), 1)
  }

  lemma FromIntTimesTen(n: int)
    ensures FromInt(10 * n) == Scaled(FromInt(n), 1)
  {
    assert (10 * n) % 10 == 0 && (10 * n) / 10 == n;
  }

  lemma {:induction false} FromWholeValue(d: Decimal)
    requires IsWhole(d)
    ensures FromInt(WholeValue(d)) == d
    decreases d.exponent
  {
    if d.exponent == 0 {
      assert WholeValue(d) == d.mantissa;
    } else {
      var smaller: Decimal := Dec(d.mantissa, d.exponent - 1);
      FromWholeValue(smaller);
      TimesTen(d.mantissa, Pow10(d.exponent - 1));
      FromIntTimesTen(WholeValue(smaller));
    }
  }

  lemma {:induction false} WholeFromInt(n: int)
    ensures IsWhole(FromInt(n)) && WholeValue(FromInt(n)) == n
    decreases if n < 0 then -n else n
  {
    if n != 0 && n % 10 == 0 {
      WholeFromInt(n / 10);
      var tenth := FromInt(n / 10);
      TimesTen(tenth.mantissa, Pow10(tenth.exponent));
    }
  }

  lemma TimesTen(m: int, p: int)
    ensures m * (10 * p) == 10 * (m * p)
  {
  }

  const EXACT: int := 9_000_000_000_000_000

  /** Text of decimals, as the standard library writes and reads it; integer text is read exactly as long
      as a double holds the integer. */
  datatype DecimalText = DecimalText(show: Decimal -> string, read: string -> Option<Decimal>) {
    ghost predicate Lawful() {
      && (forall d: Decimal :: read(show(d)) == Some(d))
      && (forall n: int :: -EXACT < n < EXACT ==> read(ShowInt(n)) == Some(FromInt(n)))
      && (forall d: Decimal :: read(show(d) + "e-3") == Some(Scaled(d, -3)))
      && (forall n: int :: -EXACT < n < EXACT ==> read(ShowInt(n) + "e-3") == Some(Scaled(FromInt(n), -3)))
    }
  }

  /** `num_text`: whole values below 9e15 as integers, everything else in full. */
  function NumText(text: DecimalText, d: Decimal): string {
    if IsWhole(d) && -EXACT < WholeValue(d) < EXACT then ShowInt(WholeValue(d)) else text.show(d)
  }

  /** `msec_to_secs`: milliseconds text to seconds, scaled in the decimal domain. */
  function MsecToSecs(text: DecimalText, s: string): Option<Decimal> {
    match text.read(s + "e-3")
    case Some(d) => Some(d)
    case None =>
      match text.read(s)
      case Some(ms) => Some(Scaled(ms, -3))
      case None => None
  }

  /** Whole numbers below nine quadrillion are written as integers. */
  lemma WholeIsInteger(text: DecimalText, n: int)
    requires -9_000_000_000_000_000 < n < 9_000_000_000_000_000
    ensures NumText(text, FromInt(n)) == ShowInt(n)
  {
    WholeFromInt(n);
  }

  lemma NumTextRoundTrip(text: DecimalText, d: Decimal)
    requires text.Lawful()
    ensures text.read(NumText(text, d)) == Some(d)
  {
    if IsWhole(d) {
      FromWholeValue(d);
    }
  }

  /** `seconds` to `msec` text and back is exact: 0.4 ms is not rounded away. */
  lemma MsecRoundTrip(text: DecimalText, seconds: Decimal)
    requires text.Lawful()
    ensures MsecToSecs(text, NumText(text, Scaled(seconds, 3))) == Some(seconds)
  {
    var ms := Scaled(seconds, 3);
    assert Scaled(ms, -3) == seconds;
    if IsWhole(ms) {
      FromWholeValue(ms);
      var n := WholeValue(ms);
      assert -EXACT < n < EXACT ==> text.read(ShowInt(n) + "e-3") == Some(Scaled(ms, -3));
    }
    assert text.read(text.show(ms) + "e-3") == Some(Scaled(ms, -3));
  }
}
