/**
 * The amount field: what typing keeps of the text, when the field counts as
 * valid, and the amount in cents that submitting passes on. `parseFloat` and
 * `Math.round` are modelled on exact decimals: the text a clean field can
 * hold is a run of digits, an optional point and more digits.
 */
module AmountInput {
  import opened Wrappers
  import opened Text

  /** The characters the field keeps: decimal digits and the point. */
  predicate IsAmountChar(c: char) {
    IsDigit(c) || c == '.'
  }

  predicate IsClean(s: string) {
    forall i :: 0 <= i < |s| ==> IsAmountChar(s[i])
  }

  /** `text.replace(/[^0-9.]/g, '')`. */
  function Clean(text: string): (r: string)
    ensures IsClean(r)
    ensures |r| <= |text|
  {
    if text == [] then []
    else (if IsAmountChar(text[0]) then [text[0]] else []) + Clean(text[1..])
  }

  /** Cleaning works character by character: it distributes over concatenation. */
  lemma {:induction false} CleanAppend(a: string, b: string)
    ensures Clean(a + b) == Clean(a) + Clean(b)
    decreases |a|
  {
    if a != [] {
      assert (a + b)[1..] == a[1..] + b;
      CleanAppend(a[1..], b);
    } else {
      assert a + b == b;
    }
  }

  /**
   * Cleaning only deletes: every kept character occurs as often as in the
   * input, every other character not at all.
   */
  lemma {:induction false} CleanCounts(text: string)
    ensures forall c :: IsAmountChar(c) ==> multiset(Clean(text))[c] == multiset(text)[c]
    ensures forall c :: !IsAmountChar(c) ==> multiset(Clean(text))[c] == 0
    decreases |text|
  {
    if text != [] {
      CleanCounts(text[1..]);
      assert text == [text[0]] + text[1..];
      assert multiset(text) == multiset([text[0]]) + multiset(text[1..]);
    }
  }

  /** Clean text is left as it is. */
  lemma {:induction false} CleanOfClean(text: string)
    requires IsClean(text)
    ensures Clean(text) == text
    decreases |text|
  {
    if text != [] {
      CleanOfClean(text[1..]);
      assert text == [text[0]] + text[1..];
    }
  }

  /** Cleaning twice is cleaning once. */
  lemma CleanIdempotent(text: string)
    ensures Clean(Clean(text)) == Clean(text)
  {
    CleanOfClean(Clean(text));
  }

  /**
   * A decimal number as `parseFloat` reads it: the digits before the point
   * and those after it.
   */
  datatype Decimal = Decimal(whole: string, fraction: string)

  predicate WellFormed(d: Decimal) {
    IsDigits(d.whole) && IsDigits(d.fraction) && |d.whole| + |d.fraction| > 0
  }

  /** The value is `Numerator(d) / 10^|d.fraction|`. */
  function Numerator(d: Decimal): nat
    requires WellFormed(d)
  {
    DigitsToNatAppend(d.whole, d.fraction);
    DigitsToNat(d.whole + d.fraction)
  }

  /**
   * `parseFloat` on clean text: the longest run of leading digits, then,
   * after a point, the longest run of digits that follows it; None stands
   * for NaN, which is exactly when the text starts with neither a digit nor
   * a point followed by a digit.
   */
  function ParseFloat(text: string): (r: Option<Decimal>)
    requires IsClean(text)
    ensures r.None? <==>
      (text == [] || !IsDigit(text[0])) && !(|text| >= 2 && text[0] == '.' && IsDigit(text[1]))
    ensures r.Some? ==> WellFormed(r.value)
    ensures r.Some? ==>
      var d := r.value;
      && d.whole <= text
      && (|d.whole| == |text| || !IsDigit(text[|d.whole|]))
      && (d.fraction == [] || (|d.whole| < |text| && text[|d.whole|] == '.' && d.fraction <= text[|d.whole| + 1..]))
    ensures r.Some? && |r.value.whole| < |text| && text[|r.value.whole|] == '.' ==>
      var j := |r.value.whole| + 1 + |r.value.fraction|;
      j <= |text| && (j == |text| || !IsDigit(text[j]))
  {
    var whole := LeadingDigits(text);
    var rest := text[|whole|..];
    var fraction := if rest != [] && rest[0] == '.' then LeadingDigits(rest[1..]) else [];
    if whole == [] && fraction == [] then None else Some(Decimal(whole, fraction))
  }

  /**
   * `Math.round(value * 100)` for the value `Numerator(d) / 10^|d.fraction|`
   * (see CentsNearest).
   */
  function Cents(d: Decimal): nat
    requires WellFormed(d)
  {
    RoundHalf(200 * Numerator(d), Pow10(|d.fraction|))
  }

  /** `floor(y / (2p) + 1/2)`. */
  function RoundHalf(y: nat, p: nat): nat
    requires p >= 1
  {
    (y + p) / (2 * p)
  }

  /** `RoundHalf(y, p)` is the whole number nearest `y / (2p)`, halves rounding up. */
  lemma RoundHalfNearest(y: nat, p: nat)
    requires p >= 1
    ensures var c := RoundHalf(y, p);
      p * (2 * c - 1) <= y < p * (2 * c + 1)
  {
    var x := y + p;
    var c, r := x / (2 * p), x % (2 * p);
    assert x == (2 * p) * c + r && 0 <= r < 2 * p;
    assert p * (2 * c - 1) == (2 * p) * c - p;
    assert p * (2 * c + 1) == (2 * p) * c + p;
  }

  /**
   * The amount in cents is the whole number nearest 100 times the value:
   * `c - 1/2 <= 100 * value < c + 1/2`.
   */
  lemma CentsNearest(d: Decimal)
    requires WellFormed(d)
    ensures var p, c := Pow10(|d.fraction|), Cents(d);
      p * (2 * c - 1) <= 200 * Numerator(d) < p * (2 * c + 1)
  {
    RoundHalfNearest(200 * Numerator(d), Pow10(|d.fraction|));
  }

  /** A value that is a whole number `c` of cents rounds to `c`. */
  lemma CentsOfWhole(d: Decimal, c: nat)
    requires WellFormed(d) && Numerator(d) * 100 == c * Pow10(|d.fraction|)
    ensures Cents(d) == c
  {
    var p := Pow10(|d.fraction|);
    RoundExact(c, p, Numerator(d));
  }

  /** The field's state: the clean text shown and whether it is a valid amount. */
  datatype Field = Field(text: string, isValid: bool)

  /** The field as first shown. */
  const Empty := Field("", true)

  /** `handleAmountChange`: keep the clean text; valid when it reads as a positive number. */
  function HandleAmountChange(typed: string): (f: Field)
    ensures f.text == Clean(typed)
    ensures f.isValid <==> ParseFloat(f.text).Some? && Numerator(ParseFloat(f.text).value) > 0
  {
    var text := Clean(typed);
    var parsed := ParseFloat(text);
    Field(text, parsed.Some? && Numerator(parsed.value) > 0)
  }

  /**
   * `handleSubmit` as written: None (the alert, no callback) when the text
   * has no number or the number is not positive; otherwise the rounded
   * number of cents.
   */
  function HandleSubmit(text: string): (r: Option<nat>)
    requires IsClean(text)
    ensures r.Some? <==> ParseFloat(text).Some? && Numerator(ParseFloat(text).value) > 0
    ensures r.Some? ==>
      var d := ParseFloat(text).value;
      Pow10(|d.fraction|) * (2 * r.value - 1) <= 200 * Numerator(d) < Pow10(|d.fraction|) * (2 * r.value + 1)
  {
    match ParseFloat(text)
    case None => None
    case Some(d) =>
      if Numerator(d) == 0 then None
      else
        CentsNearest(d);
        Some(Cents(d))
  }

  /** The field is flagged valid exactly when submitting it would call back. */
  lemma ValidIffSubmits(typed: string)
    ensures HandleAmountChange(typed).isValid <==> HandleSubmit(Clean(typed)).Some?
  {
  }

  /** Empty text, a lone point and zero are refused. */
  lemma SubmitRefusesNonPositive()
    ensures HandleSubmit("") == None
    ensures HandleSubmit(".") == None
    ensures HandleSubmit("0.00") == None
  {
    assert HandleSubmit("") == None by {
      assert LeadingDigits("") == [];
    }
    assert HandleSubmit(".") == None by {
      assert LeadingDigits(".") == [];
      assert "."[1..] == "";
    }
    ParseZeroPointZeroZero();
  }

  /** "0.00" reads as digits that are all zero. */
  lemma ParseZeroPointZeroZero()
    ensures IsClean("0.00") && ParseFloat("0.00") == Some(Decimal("0", "00"))
    ensures Numerator(Decimal("0", "00")) == 0
  {
    assert "0.00" == "0" + ".00";
    LeadingDigitsOfDigits("0", ".00");
    LeadingDigitsOfDigits("00", []);
    assert "00" + [] == "00";
    assert "0" + "00" == "000";
    DigitsToNatOfZeros("000");
  }

  /**
   * With at most two digits after the point, the amount passed on is the
   * value in cents exactly: the whole part times 100 plus the fraction
   * scaled to two places.
   */
  lemma CentsExact(whole: string, fraction: string)
    requires IsDigits(whole) && IsDigits(fraction) && |fraction| <= 2
    requires |whole| + |fraction| > 0
    ensures IsClean(whole + "." + fraction)
    ensures var exact := ExactCents(whole, fraction);
      HandleSubmit(whole + "." + fraction) == if exact == 0 then None else Some(exact)
  {
    var d := Decimal(whole, fraction);
    ParsePointed(whole, fraction);
    NumeratorSplits(d);
    ScaleToCents(Numerator(d), DigitsToNat(whole), DigitsToNat(fraction), |fraction|);
    SubmitWholeCents(whole + "." + fraction, d, ExactCents(whole, fraction));
  }

  /**
   * The value of `whole.fraction` in cents, for at most two fraction digits:
   * the whole part times 100 plus the fraction scaled to two places.
   */
  function ExactCents(whole: string, fraction: string): nat
    requires IsDigits(whole) && IsDigits(fraction) && |fraction| <= 2
  {
    DigitsToNat(whole) * 100 + DigitsToNat(fraction) * Pow10(2 - |fraction|)
  }

  /** Digits, a point and digits read as exactly those two runs. */
  lemma ParsePointed(whole: string, fraction: string)
    requires IsDigits(whole) && IsDigits(fraction) && |whole| + |fraction| > 0
    ensures IsClean(whole + "." + fraction)
    ensures ParseFloat(whole + "." + fraction) == Some(Decimal(whole, fraction))
  {
    var text := whole + "." + fraction;
    assert IsClean(text) by {
      forall i | 0 <= i < |text|
        ensures IsAmountChar(text[i])
      {
        if i < |whole| {
          assert text[i] == whole[i];
        } else if i > |whole| {
          assert text[i] == fraction[i - |whole| - 1];
        }
      }
    }
    assert text == whole + ("." + fraction);
    LeadingDigitsOfDigits(whole, "." + fraction);
    assert text[|whole|..] == "." + fraction;
    LeadingDigitsOfDigits(fraction, []);
    assert fraction + [] == fraction;
  }

  /** The numerator is the whole part shifted past the fraction's digits, plus the fraction. */
  lemma NumeratorSplits(d: Decimal)
    requires WellFormed(d)
    ensures Numerator(d) == DigitsToNat(d.whole) * Pow10(|d.fraction|) + DigitsToNat(d.fraction)
  {
    DigitsToNatAppend(d.whole, d.fraction);
  }

  /** Submitting text that reads as exactly `exact` cents passes on `exact`, unless it is 0. */
  lemma SubmitWholeCents(text: string, d: Decimal, exact: nat)
    requires IsClean(text) && ParseFloat(text) == Some(d)
    requires Numerator(d) * 100 == exact * Pow10(|d.fraction|)
    ensures HandleSubmit(text) == if exact == 0 then None else Some(exact)
  {
    var p := Pow10(|d.fraction|);
    if Numerator(d) == 0 {
      assert exact * p == 0;
    } else {
      CentsOfWhole(d, exact);
    }
  }

  /** `k` fraction digits, `k <= 2`: scaling by 100 is a whole number of cents times `10^k`. */
  lemma ScaleToCents(n: nat, w: nat, f: nat, k: nat)
    requires k <= 2 && n == w * Pow10(k) + f
    ensures n * 100 == (w * 100 + f * Pow10(2 - k)) * Pow10(k)
  {
    assert Pow10(1) == 10;
    assert Pow10(2) == 100;
  }

  /** Rounding a value that is already a whole number of cents gives it back. */
  lemma RoundExact(c: nat, p: nat, n: nat)
    requires p >= 1 && n * 100 == c * p
    ensures RoundHalf(200 * n, p) == c
  {
    var x := 200 * n + p;
    assert x == (2 * p) * c + p;
    DivUnique(x, 2 * p, c, p);
  }

  /** The quotient is the only multiplier that leaves a remainder in range. */
  lemma DivUnique(x: nat, m: nat, a: nat, r: nat)
    requires m >= 1 && x == m * a + r && r < m
    ensures x / m == a
  {
    var q, s := x / m, x % m;
    assert x == m * q + s && 0 <= s < m;
    if q > a {
      MulAtLeast(m, q, a + 1);
    } else if q < a {
      MulAtLeast(m, a, q + 1);
    }
  }

  lemma MulAtLeast(m: nat, a: nat, b: nat)
    requires a >= b
    ensures m * a >= m * b
  {
  }

  /** The same for text without a point. */
  lemma CentsExactWhole(whole: string)
    requires IsDigits(whole) && whole != []
    ensures IsClean(whole)
    ensures var exact := DigitsToNat(whole) * 100;
      HandleSubmit(whole) == if exact == 0 then None else Some(exact)
  {
    LeadingDigitsOfDigits(whole, []);
    assert whole + [] == whole;
    var d := Decimal(whole, []);
    assert ParseFloat(whole) == Some(d);
    NumeratorSplits(d);
    assert Pow10(0) == 1;
    SubmitWholeCents(whole, d, DigitsToNat(whole) * 100);
  }

  /**
   * Three places after the point: "0.001" is flagged valid and submitting
   * it passes on 0 cents, since 0.1 rounds to 0.
   */
  lemma SubmitAcceptsZeroCents()
    ensures HandleSubmit("0.001") == Some(0)
    ensures HandleAmountChange("0.001").isValid
  {
    var d := Decimal("0", "001");
    ParseZeroPointOne();
    assert Numerator(d) == 1 by {
      NumeratorZeroPointOne();
    }
    assert Cents(d) == 0 by {
      assert Pow10(3) == 1000;
    }
    assert Clean("0.001") == "0.001" by {
      CleanOfClean("0.001");
    }
  }

  /** "0.001" reads as the digits 0 before the point and 001 after it. */
  lemma ParseZeroPointOne()
    ensures IsClean("0.001") && ParseFloat("0.001") == Some(Decimal("0", "001"))
  {
    var text := "0.001";
    assert text == "0" + ".001";
    LeadingDigitsOfDigits("0", ".001");
    assert text[1..] == ".001";
    LeadingDigitsOfDigits("001", []);
    assert "001" + [] == "001";
  }

  /** The digits 0 and 001 together read as 1 thousandth. */
  lemma NumeratorZeroPointOne()
    ensures Numerator(Decimal("0", "001")) == 1
  {
    NumeratorSplits(Decimal("0", "001"));
    assert DigitsToNat("0") == 0;
    assert DigitsToNat("00") == 0;
    assert DigitsToNat("001") == 1;
  }

  /**
   * `handleSubmit` refusing every amount that rounds to no cents: the
   * callback only ever receives a positive amount, and receives the same
   * amount as before whenever that amount was positive.
   */
  function HandleSubmitChecked(text: string): (r: Option<nat>)
    requires IsClean(text)
    ensures r.Some? ==> r.value > 0
    ensures r.Some? <==> HandleSubmit(text).Some? && HandleSubmit(text).value > 0
    ensures r.Some? ==> r == HandleSubmit(text)
  {
    match HandleSubmit(text)
    case None => None
    case Some(c) => if c == 0 then None else Some(c)
  }
}
