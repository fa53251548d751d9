/**
 * Money as integer cents. Python's `Decimal` amounts with two decimal
 * places map exactly onto cents; `quantize(Decimal("0.01"), ROUND_HALF_UP)`
 * becomes `RoundHalfUp` on an exact fraction.
 */
module Money {
  import opened Wrappers
  import opened Numerals
  import opened PyStr

  /** An amount of money in cents. */
  type Cents = int

  /** The precision of Python's default decimal context (significant digits). */
  const DecimalPrecision: nat := 28

  function Abs(x: int): nat
  {
    if x < 0 then -x else x
  }

  /**
   * `r` is `n / d` rounded the way ROUND_HALF_UP does: within half a unit
   * of the quotient, and a tie goes away from zero.
   */
  predicate RoundsHalfUp(n: int, d: int, r: int)
  {
    && -d <= 2 * (n - r * d) <= d
    && (2 * (n - r * d) == d ==> n < 0)
    && (2 * (n - r * d) == -d ==> n > 0)
  }

  /**
   * `n / d` rounded to an integer the way ROUND_HALF_UP does: to the
   * nearest integer, and a tie away from zero.
   */
  function RoundHalfUp(n: int, d: int): (r: int)
    requires d > 0
    ensures RoundsHalfUp(n, d, r)
    ensures -d <= 2 * (n - r * d) <= d
    ensures 2 * (n - r * d) == d ==> n < 0
    ensures 2 * (n - r * d) == -d ==> n > 0
    ensures n >= 0 ==> r >= 0
    ensures n <= 0 ==> r <= 0
  {
    if n >= 0 then
      RoundMagnitude(n, d);
      (2 * n + d) / (2 * d)
    else
      var q := (2 * -n + d) / (2 * d);
      RoundMagnitude(-n, d);
      assert (-q) * d == -(q * d);
      -q
  }

  lemma RoundMagnitude(m: int, d: int)
    requires m >= 0 && d > 0
    ensures var q := (2 * m + d) / (2 * d);
      q >= 0 && -d <= 2 * (m - q * d) < d && (m == 0 ==> q == 0)
  {
    var q := (2 * m + d) / (2 * d);
    var rem := (2 * m + d) % (2 * d);
    assert 2 * m + d == (2 * d) * q + rem && 0 <= rem < 2 * d;
    assert (2 * d) * q == 2 * (q * d);
  }

  /** The rounding is symmetric about zero: rounding `-n` is minus rounding `n`. */
  lemma RoundHalfUpOdd(n: int, d: int)
    requires d > 0
    ensures RoundHalfUp(-n, d) == -RoundHalfUp(n, d)
  {
  }

  lemma MulLeftDiff(a: int, b: int, d: int)
    ensures a * d - b * d == (a - b) * d
  {
  }

  lemma MulAtLeast(k: int, d: int)
    requires k >= 1 && d >= 0
    ensures k * d >= d
  {
  }

  /**
   * Nearest with ties away from zero pins the result down: any integer with
   * both properties is `RoundHalfUp(n, d)`.
   */
  lemma RoundHalfUpUnique(n: int, d: int, r: int)
    requires d > 0
    requires -d <= 2 * (n - r * d) <= d
    requires 2 * (n - r * d) == d ==> n < 0
    requires 2 * (n - r * d) == -d ==> n > 0
    ensures r == RoundHalfUp(n, d)
  {
    var q := RoundHalfUp(n, d);
    if r > q {
      MulLeftDiff(r, q, d);
      MulAtLeast(r - q, d);
    } else if r < q {
      MulLeftDiff(q, r, d);
      MulAtLeast(q - r, d);
    }
  }

  /** Rounding an exact quotient returns it unchanged. */
  lemma RoundHalfUpExact(q: int, d: int)
    requires d > 0
    ensures RoundHalfUp(q * d, d) == q
  {
    RoundHalfUpUnique(q * d, d, q);
  }

  /** A number as `Decimal(s)` reads it: `(-1 if negative) * magnitude / 10^scale`. */
  datatype Decimal = Decimal(negative: bool, magnitude: nat, scale: nat)

  /**
   * `Decimal(s)` on a stripped string, in positional notation: an optional
   * sign, then digits with at most one decimal point and at least one digit.
   */
  function ParseDecimal(s: string): (r: Option<Decimal>)
    ensures r.Some? ==> s != []
  {
    var negative := s != [] && s[0] == '-';
    var body := if s != [] && (s[0] == '+' || s[0] == '-') then s[1..] else s;
    match ParseUnsigned(body)
    case None => None
    case Some(x) => Some(x.(negative := negative))
  }

  /** The unsigned part: `digits`, `digits.`, `.digits` or `digits.digits`. */
  function ParseUnsigned(body: string): (r: Option<Decimal>)
    ensures r.Some? ==> body != [] && !r.value.negative
  {
    var dot := Find(body, '.');
    var whole := body[..dot];
    var fraction := if dot < |body| then body[dot + 1..] else [];
    if AllDigits(whole) && AllDigits(fraction) && |whole| + |fraction| >= 1 then
      Some(Positional(whole, fraction))
    else None
  }

  /** The value of `whole.fraction`. */
  function Positional(whole: string, fraction: string): (x: Decimal)
    requires AllDigits(whole) && AllDigits(fraction)
    ensures !x.negative && x.scale == |fraction|
  {
    Decimal(false, DigitsValue(whole) * Pow10(|fraction|) + DigitsValue(fraction), |fraction|)
  }

  lemma ParseUnsignedPoint(whole: string, fraction: string)
    requires AllDigits(whole) && AllDigits(fraction) && |whole| >= 1
    ensures ParseUnsigned(whole + "." + fraction) == Some(Positional(whole, fraction))
  {
    var body := whole + "." + fraction;
    NoPointInDigits(whole);
    FindAfterFree(whole, '.', fraction);
    assert body[..|whole|] == whole;
    assert body[|whole| + 1..] == fraction;
  }

  lemma NoPointInDigits(s: string)
    requires AllDigits(s)
    ensures '.' !in s
  {
  }

  /**
   * `x` rounded half-up to whole cents needs more than the context's 28
   * digits, so `quantize` signals InvalidOperation.
   */
  predicate CentsOverflow(x: Decimal)
  {
    Abs(RoundHalfUp(Signed(x) * 100, Pow10(x.scale))) >= Pow10(DecimalPrecision)
  }

  /** `Decimal.quantize(Decimal("0.01"), ROUND_HALF_UP)`, in cents; None where Python signals InvalidOperation. */
  function Quantize(x: Decimal): (r: Option<Cents>)
    ensures r.Some? ==> Abs(r.value) < Pow10(DecimalPrecision)
    ensures r.Some? ==> RoundsHalfUp(Signed(x) * 100, Pow10(x.scale), r.value)
    ensures r.None? <==> CentsOverflow(x)
  {
    var n, p := Signed(x) * 100, Pow10(x.scale);
    var c := RoundHalfUp(n, p);
    if Abs(c) < Pow10(DecimalPrecision) then Some(c) else None
  }

  function Signed(x: Decimal): int
  {
    var m: int := x.magnitude;
    if x.negative then -m else m
  }

  /** Quantizing an amount already in cents gives it back. */
  lemma QuantizeCents(c: Cents)
    requires Abs(c) < Pow10(DecimalPrecision)
    ensures Quantize(Decimal(c < 0, Abs(c), 2)) == Some(c)
  {
    var x := Decimal(c < 0, Abs(c), 2);
    assert Signed(x) == c;
    assert Pow10(2) == 100;
    RoundHalfUpExact(c, 100);
  }

  /** Half a cent rounds away from zero: 0.005 to 0.01 and -0.005 to -0.01. */
  lemma HalfCentRoundsAway()
    ensures Quantize(Decimal(false, 5, 3)) == Some(1)
    ensures Quantize(Decimal(true, 5, 3)) == Some(-1)
  {
    assert Pow10(3) == 1000 by {
      assert Pow10(3) == 10 * Pow10(2) == 100 * Pow10(1) == 1000 * Pow10(0);
    }
    RoundHalfUpUnique(500, 1000, 1);
    RoundHalfUpUnique(-500, 1000, -1);
  }

  lemma {:induction false} Pow10Add(a: nat, b: nat)
    ensures Pow10(a + b) == Pow10(a) * Pow10(b)
  {
    if b > 0 {
      Pow10Add(a, b - 1);
    }
  }

  /** `_parse_money`: a stripped string to cents. */
  function ParseMoney(s: string): (r: Option<Cents>)
    ensures ParseDecimal(s).None? ==> r.None?
    ensures r.Some? ==> Abs(r.value) < Pow10(DecimalPrecision)
    ensures r.Some? ==> ParseDecimal(s).Some?
    ensures r.Some? && ParseDecimal(s).Some? ==>
      var x := ParseDecimal(s).value;
      RoundsHalfUp(Signed(x) * 100, Pow10(x.scale), r.value)
    ensures ParseDecimal(s).Some? ==> (r.None? <==> CentsOverflow(ParseDecimal(s).value))
  {
    match ParseDecimal(s)
    case None => None
    case Some(x) => Quantize(x)
  }

  /** `f"{c:.2f}"` for an amount in cents: sign, whole units, a point and two digits. */
  function FormatMoney(c: Cents): (s: string)
    ensures |s| >= 4 && s[|s| - 3] == '.' && AllDigits(s[|s| - 2..])
    ensures c >= 0 ==> AllDigits(s[..|s| - 3])
    ensures c < 0 ==> s[0] == '-'
    ensures var units := s[if c < 0 then 1 else 0..|s| - 3];
      units != [] && AllDigits(units) && (units[0] == '0' ==> units == "0")
  {
    var sign, units, cents := if c < 0 then "-" else "", NatToString(Abs(c) / 100), Padded(Abs(c) % 100, 2);
    var s := sign + units + "." + cents;
    assert s[|s| - 2..] == cents;
    assert s[|sign|..|s| - 3] == units;
    s
  }

  /** A non-negative amount is written with digits and one point only, a digit at each end. */
  lemma FormatMoneyPlain(c: Cents)
    requires c >= 0
    ensures var s := FormatMoney(c);
      IsDigit(s[0]) && IsDigit(s[|s| - 1]) && forall i :: 0 <= i < |s| ==> IsDigit(s[i]) || s[i] == '.'
  {
    var s := FormatMoney(c);
    var units, cents := s[..|s| - 3], s[|s| - 2..];
    assert forall i :: 0 <= i < |s| - 3 ==> s[i] == units[i];
    assert forall i :: |s| - 2 <= i < |s| ==> s[i] == cents[i - (|s| - 2)];
  }

  /** Reading back what `FormatMoney` writes gives the same amount. */
  lemma MoneyRoundTrip(c: Cents)
    requires Abs(c) < Pow10(DecimalPrecision)
    ensures ParseMoney(FormatMoney(c)) == Some(c)
  {
    ParseFormatted(c);
    QuantizeCents(c);
  }

  lemma ParseFormatted(c: Cents)
    ensures ParseDecimal(FormatMoney(c)) == Some(Decimal(c < 0, Abs(c), 2))
  {
    var units := NatToString(Abs(c) / 100);
    var cents := Padded(Abs(c) % 100, 2);
    var body := units + "." + cents;
    var s := FormatMoney(c);
    assert s == (if c < 0 then "-" else "") + body;
    assert (if s != [] && (s[0] == '+' || s[0] == '-') then s[1..] else s) == body;
    ParseUnsignedPoint(units, cents);
    PositionalCents(Abs(c));
  }

  lemma PositionalCents(a: nat)
    ensures Positional(NatToString(a / 100), Padded(a % 100, 2)) == Decimal(false, a, 2)
  {
    var units, cents := NatToString(a / 100), Padded(a % 100, 2);
    assert DigitsValue(units) == a / 100 && DigitsValue(cents) == a % 100;
    assert Pow10(|cents|) == 100 by {
      assert Pow10(2) == 10 * Pow10(1) == 10 * 10 * Pow10(0);
    }
    assert (a / 100) * 100 + a % 100 == a;
  }

}
