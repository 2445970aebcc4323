/** Money as the billing code handles it: integer cents, `Decimal`
    quantization to cents with the default half-even rounding, and the
    `"$%.2f"` rendering of a Payment amount. */
module Money {
  import opened Common

  /** A Python `Decimal` with a finite number of fractional digits:
      `units / 10^scale`, as `Decimal(str(x))` of a price or a rate. */
  datatype Dec = Dec(units: int, scale: nat)

  function Pow10(n: nat): (r: nat)
    ensures r >= 1
  {
    if n == 0 then 1 else 10 * Pow10(n - 1)
  }

  /** `r` is an integer nearest to `num / den`, and the even one when
      `num / den` lies exactly half-way between two integers. */
  predicate NearestEven(num: int, den: int, r: int) {
    && -den <= 2 * (num - r * den) <= den
    && (2 * (num - r * den) == den || 2 * (num - r * den) == -den ==> r % 2 == 0)
  }

  /** Euclidean division facts, and the error of the two candidate
      roundings `q` and `q + 1` written without products. */
  lemma DivisionFacts(num: int, den: int)
    requires den > 0
    ensures var q, rem := num / den, num % den;
            && 0 <= rem < den
            && num - q * den == rem
            && num - (q + 1) * den == rem - den
            && (num >= 0 ==> q >= 0)
  {
    var q, rem := num / den, num % den;
    assert num == q * den + rem;
    assert (q + 1) * den == q * den + den;
    assert q < 0 ==> q * den <= -den by {
      assert q < 0 ==> q * den == -den + (q + 1) * den;
      assert q < 0 ==> (q + 1) * den <= 0;
    }
  }

  /** `num / den` rounded to the nearest integer, ties to the even
      neighbour: `Decimal.quantize` under the default ROUND_HALF_EVEN. */
  function RoundHalfEven(num: int, den: int): (r: int)
    requires den > 0
    ensures NearestEven(num, den, r)
    ensures num % den == 0 ==> r * den == num
    ensures num >= 0 ==> r >= 0
  {
    DivisionFacts(num, den);
    var q := num / den;
    var rem := num % den;
    if 2 * rem < den then q
    else if 2 * rem > den then q + 1
    else if q % 2 == 0 then q
    else q + 1
  }

  /** An integer multiple of `den` lying within one `den` of zero is
      `-den`, `0` or `den`. */
  lemma SmallMultiple(d: int, den: int)
    requires den > 0 && -den <= d * den <= den
    ensures -1 <= d <= 1
  {
    assert d >= 2 ==> d * den >= 2 * den by {
      assert d >= 2 ==> d * den == 2 * den + (d - 2) * den;
      assert d >= 2 ==> (d - 2) * den >= 0;
    }
    assert d <= -2 ==> d * den <= -2 * den by {
      assert d <= -2 ==> d * den == -2 * den + (d + 2) * den;
      assert d <= -2 ==> (d + 2) * den <= 0;
    }
  }

  /** Two integers that both round `num / den` to nearest, ties to even,
      are the same integer. */
  lemma NearestEvenUnique(num: int, den: int, r0: int, r: int)
    requires den > 0
    requires NearestEven(num, den, r0) && NearestEven(num, den, r)
    ensures r == r0
  {
    var d := r - r0;
    var e0 := num - r0 * den;
    var e := num - r * den;
    assert e0 - e == d * den by {
      assert r * den - r0 * den == (r - r0) * den;
    }
    SmallMultiple(d, den);
    assert d == 1 ==> e0 - e == den;
    assert d == -1 ==> e - e0 == den;
    assert d == 1 ==> 2 * e0 == den && 2 * e == -den;
    assert d == -1 ==> 2 * e0 == -den && 2 * e == den;
  }

  /** The rounding above is the only integer with its two properties, so
      the contract of `RoundHalfEven` pins its result down completely. */
  lemma RoundHalfEvenUnique(num: int, den: int, r: int)
    requires den > 0 && NearestEven(num, den, r)
    ensures r == RoundHalfEven(num, den)
  {
    NearestEvenUnique(num, den, RoundHalfEven(num, den), r);
  }

  /** `x.quantize(Decimal("0.01"))` expressed in cents. */
  function QuantizeCents(x: Dec): int {
    RoundHalfEven(x.units * 100, Pow10(x.scale))
  }

  /** Quantizing an amount that already has two decimal places changes
      nothing, so sums and products of cent amounts stay exact. */
  lemma QuantizeCentsExact(cents: int)
    ensures QuantizeCents(Dec(cents, 2)) == cents
  {
    var r := QuantizeCents(Dec(cents, 2));
    assert Pow10(2) == 100;
    assert (cents * 100) % 100 == 0;
    assert r * 100 == cents * 100;
  }

  /** `(Decimal(cents) / 100 * rate).quantize(Decimal("0.01"))` in cents:
      tax on an amount of money. */
  function ApplyRate(cents: int, rate: Dec): (r: int)
    ensures NearestEven(cents * rate.units, Pow10(rate.scale), r)
    ensures cents >= 0 && rate.units >= 0 ==> r >= 0
    ensures rate.units == 0 ==> r == 0
  {
    var exact := cents * rate.units;
    assert cents >= 0 && rate.units >= 0 ==> exact >= 0;
    RoundHalfEven(exact, Pow10(rate.scale))
  }

  // ---------------------------------------------------------------------------
  // billing/models.py: Payment.amount_display
  // ---------------------------------------------------------------------------

  function Abs(n: int): nat {
    if n < 0 then -n else n
  }

  /** `"$"`, a minus sign when `neg`, the whole part, a point and the
      fraction. */
  function AmountText(neg: bool, w: string, f: string): string {
    "$" + (if neg then "-" else "") + w + "." + f
  }

  /** `f"${amount / 100:.2f}"` for an amount in cents. */
  function AmountDisplay(cents: int): string {
    var a := Abs(cents);
    AmountText(cents < 0, NatToString(a / 100), Pad2(a % 100))
  }
  /** Reads `"$" ["-"] digits "." digit digit` back into cents. */
  function ReadAmount(s: string): Option<int> {
    if |s| < 5 || s[0] != '$' || s[|s| - 3] != '.' then None
    else
      var neg := s[1] == '-';
      var whole := if neg then s[2..|s| - 3] else s[1..|s| - 3];
      var frac := s[|s| - 2..];
      if whole == [] || !AllDigits(whole) || !AllDigits(frac) then None
      else
        var a := DigitsValue(whole) * 100 + DigitsValue(frac);
        Some(if neg then -a else a)
  }

  /** Where the parts of an amount text sit. */
  lemma AmountLayout(neg: bool, w: string, f: string)
    requires |f| == 2
    ensures var s := AmountText(neg, w, f);
            var k := if neg then 1 else 0;
            && |s| == 1 + k + |w| + 3
            && s[0] == '$'
            && s[|s| - 3] == '.'
            && s[|s| - 2..] == f
            && s[1 + k..|s| - 3] == w
            && (neg ==> s[1] == '-')
            && (!neg && |w| >= 1 ==> s[1] == w[0])
  {
    var p := "$" + (if neg then "-" else "");
    var t := "." + f;
    var s := AmountText(neg, w, f);
    assert s == p + w + t;
    MiddleOfConcat(p, w, t);
    assert s[|s| - 2..] == t[1..];
  }

  /** `ReadAmount` on any string laid out as `"$" sign whole "." frac`. */
  lemma ReadAmountOfLayout(s: string, neg: bool, w: string, f: string)
    requires |w| >= 1 && AllDigits(w) && |f| == 2 && AllDigits(f)
    requires var k := if neg then 1 else 0;
             && |s| == 1 + k + |w| + 3
             && s[0] == '$' && s[|s| - 3] == '.' && s[|s| - 2..] == f
             && s[1 + k..|s| - 3] == w
             && s[1] == (if neg then '-' else w[0])
    ensures var a := DigitsValue(w) * 100 + DigitsValue(f);
            ReadAmount(s) == Some(if neg then -a else a)
  {
    assert w[0] != '-' by {
      assert IsDigit(w[0]);
    }
  }

  lemma ReadAmountOfParts(neg: bool, w: string, f: string)
    requires |w| >= 1 && AllDigits(w) && |f| == 2 && AllDigits(f)
    ensures var a := DigitsValue(w) * 100 + DigitsValue(f);
            ReadAmount(AmountText(neg, w, f)) == Some(if neg then -a else a)
  {
    AmountLayout(neg, w, f);
    ReadAmountOfLayout(AmountText(neg, w, f), neg, w, f);
  }

  /** The rendering loses nothing: reading it back gives the amount. */
  lemma AmountDisplayRoundTrip(cents: int)
    ensures ReadAmount(AmountDisplay(cents)) == Some(cents)
  {
    var a := Abs(cents);
    var w := NatToString(a / 100);
    var f := Pad2(a % 100);
    NatToStringRoundTrip(a / 100);
    ReadAmountOfParts(cents < 0, w, f);
    assert DigitsValue(w) * 100 + DigitsValue(f) == a by {
      assert a == (a / 100) * 100 + a % 100;
    }
  }

  /** Non-negative amounts render as `$`, the whole dollars, a point and
      exactly two digits of cents. */
  lemma AmountDisplayShape(cents: nat)
    ensures var s := AmountDisplay(cents);
            s[0] == '$' && s[|s| - 3] == '.' && AllDigits(s[1..|s| - 3]) && AllDigits(s[|s| - 2..])
            && DigitsValue(s[1..|s| - 3]) * 100 + DigitsValue(s[|s| - 2..]) == cents
  {
    var w := NatToString(cents / 100);
    var f := Pad2(cents % 100);
    NatToStringRoundTrip(cents / 100);
    AmountLayout(false, w, f);
    assert cents == (cents / 100) * 100 + cents % 100;
  }
}
