/** Integrality, the canonical text of a decimal, and the JSON spelling of a
    literal. */
module DecimalText {
  import opened Values
  import opened Numbers
  import opened Decimals

  // ----- integrality -----

  lemma {:induction false} PowersWhole(k: nat)
    ensures P10(k) == Pow10(k) as real
  {
    if k > 0 {
      PowersWhole(k - 1);
      P10Step(k - 1);
    } else {
      P10Zero();
    }
  }

  ghost predicate IsWhole(x: real) {
    x.Floor as real == x
  }

  predicate IsInt(d: Decimal) {
    d.digits == "" || d.exp >= |d.digits| - 1
  }

  // A magnitude is its digits as a number, at the power of ten the last carries.
  lemma MagOfNat(digits: string, exp: int)
    requires AllDigits(digits)
    ensures Mag(digits, exp) == NatOf(digits) as real * P10(exp - (|digits| - 1))
  {
    hide Lead, P10, NatOf;
    NatIsLead(digits);
    P10Add(|digits| - 1, exp - (|digits| - 1));
    Regroup(Lead(digits), P10(|digits| - 1), P10(exp - (|digits| - 1)));
  }

  lemma Regroup(x: real, p: real, q: real)
    ensures x * (p * q) == (x * p) * q
  {
  }

  lemma WholeTimes(n: nat, m: nat, x: real)
    requires x == n as real * m as real
    ensures IsWhole(x)
  {
    assert (n * m) as real == x;
  }

  lemma WholeNegates(x: real)
    ensures IsWhole(x) <==> IsWhole(-x)
  {
    if IsWhole(x) { assert (0 - x.Floor) as real == -x; }
    if IsWhole(-x) { assert (0 - (-x).Floor) as real == x; }
  }

  lemma NoMultiple(x: nat, n: int, m: nat)
    requires x % 10 != 0
    ensures x != n * (10 * m)
  {
    assert n * (10 * m) == 10 * (n * m);
  }

  // A magnitude whose last digit, not zero, is below the units is no integer.
  lemma FractionNotWhole(digits: string, exp: int)
    requires AllDigits(digits) && digits != "" && digits[|digits| - 1] != '0' && exp < |digits| - 1
    ensures !IsWhole(Mag(digits, exp))
  {
    hide P10, Mag;
    var k: nat := |digits| - 1 - exp - 1;
    var n := Mag(digits, exp).Floor;
    MagOfNat(digits, exp);
    P10Add(exp - (|digits| - 1), k + 1);
    P10Zero();
    PowersWhole(k + 1);
    Undo(NatOf(digits) as real, P10(exp - (|digits| - 1)), P10(k + 1), Mag(digits, exp));
    WholeProduct(n, Pow10(k + 1));
    NoMultiple(NatOf(digits), n, Pow10(k));
  }

  lemma WholeProduct(n: int, m: nat)
    ensures (n * m) as real == n as real * m as real
  {
  }

  lemma Undo(x: real, p: real, q: real, n: real)
    requires p * q == 1.0 && n == x * p
    ensures x == n * q
  {
    assert n * q == x * (p * q);
  }

  lemma TailWhole(digits: string, exp: int)
    requires AllDigits(digits) && exp >= |digits| - 1
    ensures IsWhole(Mag(digits, exp))
  {
    hide Mag, P10, NatOf, Pow10, IsWhole;
    MagOfNat(digits, exp);
    PowersWhole(exp - (|digits| - 1));
    WholeTimes(NatOf(digits), Pow10(exp - (|digits| - 1)), Mag(digits, exp));
  }

  /** A decimal reads as integral exactly when its value is an integer. */
  lemma IsIntIsWhole(d: Decimal)
    requires Canonical(d)
    ensures IsInt(d) <==> IsWhole(Denoted(d))
  {
    hide Mag;
    WholeNegates(Mag(d.digits, d.exp));
    if d.digits == "" {
      ZeroMag(d.exp);
      assert 0 as real == 0.0;
    } else if d.exp >= |d.digits| - 1 {
      TailWhole(d.digits, d.exp);
    } else {
      FractionNotWhole(d.digits, d.exp);
    }
  }

  /** What a refusal for the range says of integrality is right: a value past the
      top is an integer, one past the bottom is none. */
  lemma RefusedIntegrality(l: Literal)
    requires WellFormed(l) && |l.intPart| + |l.frac| < LITERAL_LIMIT && LeadExp(l).Err?
    ensures LeadExp(l).error.small <==> !IsWhole(Spelled(l))
  {
    hide Mag, P10, ExponentOf, Size, IsWhole;
    RangeIsByValue(l);
    SaturationHarmless(l);
    SmallNotWhole(Spelled(l));
    WholeNegates(Size(l));
    if !LeadExp(l).error.small {
      SizeWhole(l);
    }
  }

  lemma SmallNotWhole(x: real)
    ensures -1.0 < x < 1.0 && x != 0.0 ==> !IsWhole(x)
  {
  }

  lemma SizeWhole(l: Literal)
    requires WellFormed(l) && ExponentOf(l.exponent) >= |l.frac|
    ensures IsWhole(Size(l))
  {
    hide P10, NatOf, Pow10, IsWhole, ExponentOf;
    var power := ExponentOf(l.exponent) - |l.frac|;
    PowersWhole(power);
    WholeTimes(NatOf(l.intPart + l.frac), Pow10(power), Size(l));
  }

  // ----- the canonical text -----

  /** n in decimal. */
  function NatText(n: nat): (t: string) {
    if n < 10 then [DigitChar(n)] else NatText(n / 10) + [DigitChar(n % 10)]
  }

  function DigitChar(n: nat): (c: char)
    requires n < 10
    ensures IsDigit(c) && DigitOf(c) == n
  {
    '0' + n as char
  }

  function IntText(n: int): string {
    if n < 0 then "-" + NatText(-n) else NatText(n)
  }

  lemma {:induction false} NatTextReads(n: nat)
    ensures AllDigits(NatText(n)) && NatText(n) != "" && NatOf(NatText(n)) == n
  {
    if n >= 10 {
      NatTextReads(n / 10);
      NatLast(NatText(n / 10), DigitChar(n % 10));
    } else {
      NatLast("", DigitChar(n));
      assert "" + [DigitChar(n)] == [DigitChar(n)];
    }
  }

  /** A decimal in scientific form, its leading digit before any point; zero, of either
      sign, is "0". */
  function Text(d: Decimal): string {
    if d.digits == "" then "0"
    else
      (if d.neg then "-" else "") + [d.digits[0]] + (if |d.digits| > 1 then "." + d.digits[1..] else "") + "e" + IntText(d.exp)
  }

  // The literal the text spells.
  function TextLiteral(d: Decimal): Literal {
    if d.digits == "" then Literal(false, "0", "", "", false)
    else Literal(d.neg, [d.digits[0]], d.digits[1..], "e" + IntText(d.exp), |d.digits| > 1)
  }

  lemma ExponentText(n: int)
    ensures var e := "e" + IntText(n); IsExponent(e) && ExponentOf(e) == n
  {
    var e := "e" + IntText(n);
    if n < 0 {
      NatTextReads(-n);
      assert e[2..] == NatText(-n);
    } else {
      NatTextReads(n);
      assert e[1..] == NatText(n);
    }
  }

  lemma TextFormed(d: Decimal)
    requires Canonical(d)
    ensures WellFormed(TextLiteral(d))
  {
    hide IsExponent;
    ExponentText(d.exp);
    NoExponent();
  }

  lemma NoExponent()
    ensures IsExponent("")
  {
  }

  lemma TextSpelled(d: Decimal)
    requires Canonical(d)
    ensures Text(d) == Spelling(TextLiteral(d), false)
  {
    hide IntText, AllDigits;
  }

  lemma TextScans(d: Decimal)
    requires Canonical(d)
    ensures WellFormed(TextLiteral(d)) && Scan(Text(d)) == Some(TextLiteral(d))
  {
    hide Scan, Text, TextLiteral, WellFormed, Spelling;
    TextFormed(d);
    TextSpelled(d);
    ScanIsGrammar(Text(d), TextLiteral(d));
  }

  lemma TextPower(d: Decimal)
    requires Canonical(d) && d.digits != "" && WellFormed(TextLiteral(d)) && |d.digits| < LITERAL_LIMIT
    ensures LeadExp(TextLiteral(d)) == Ok(d.exp) && DecimalOf(TextLiteral(d), d.exp) == d
  {
    hide IntText, ExponentOf, IsExponent;
    var l := TextLiteral(d);
    assert l.intPart + l.frac == d.digits;
    ExponentText(d.exp);
    LeadingZerosCount(l);
    assert TrimLeft(d.digits) == d.digits && TrimRight(d.digits) == d.digits;
    SaturationHarmless(l);
  }

  /** Reading a decimal's canonical text gives the decimal back. */
  lemma TextRoundTrips(d: Decimal)
    requires Canonical(d) && |Text(d)| < LITERAL_LIMIT
    ensures Parsed(Text(d)) == Ok(d)
  {
    hide Scan, WellFormed;
    TextScans(d);
    Within(Text(d), TextLiteral(d));
    if d.digits != "" {
      TextPower(d);
    } else {
      ZeroReads();
    }
  }

  lemma ZeroReads()
    ensures var l := Literal(false, "0", "", "", false);
      WellFormed(l) && LeadExp(l) == Ok(0) && DecimalOf(l, 0) == Decimal(false, "", 0)
  {
    var l := Literal(false, "0", "", "", false);
    assert TrimLeft("0") == "" by { assert "0"[1..] == ""; }
    assert l.intPart + l.frac == "0";
  }
}
