/** Arbitrary-precision numbers carried as text: a decimal literal rewritten into
    the JSON number grammar, its value and every significant digit kept. */
module BigVals {
  import opened Values
  import opened Decimals

  // ----- the JSON number grammar (section 6 of RFC 8259) -----

  // int: a zero, or digits opening with none.
  predicate IsJsonInt(s: string) {
    s == "0" || (s != "" && AllDigits(s) && s[0] != '0')
  }

  /** number = [ minus ] int [ frac ] [ exp ]. */
  ghost predicate IsJsonNumber(s: string) {
    exists minus: bool, whole: string, frac: string, exp: string ::
      && IsJsonInt(whole) && (frac == "" || (|frac| > 1 && frac[0] == '.' && AllDigits(frac[1..]))) && IsExponent(exp)
      && s == JsonNumber(minus, whole, frac, exp)
  }

  function JsonNumber(minus: bool, whole: string, frac: string, exp: string): string {
    (if minus then "-" else "") + whole + frac + exp
  }

  // ----- spelling a literal for JSON -----

  /** The literal as JSON spells numbers: an integer part that is never empty or padded,
      and no fraction that is. */
  function JsonLiteral(l: Literal): Literal {
    var whole := TrimLeft(l.intPart);
    l.(intPart := if whole == "" then "0" else whole, point := l.frac != "")
  }

  function JsonText(l: Literal): string {
    Spelling(JsonLiteral(l), false)
  }

  method JsonSpelling(l: Literal) returns (b: string)
    ensures b == JsonText(l)
  {
    b := "";
    if l.neg {
      b := b + "-";
    }
    var whole := TrimLeft(l.intPart);
    if whole != "" {
      b := b + whole;
    } else {
      b := b + "0";
    }
    if l.frac != "" {
      b := b + ".";
      b := b + l.frac;
    }
    b := b + l.exponent;
  }

  /** The no-rewrite test, on a literal beside its text. */
  predicate SpelledForJson(l: Literal, s: string)
    requires s != ""
  {
    var whole := l.intPart == "0" || (l.intPart != "" && l.intPart[0] != '0');
    whole && s[0] != '+' && l.point == (l.frac != "")
  }

  function BigValOf(s: string): Result<string> {
    match Scan(s)
    case None => Err(NotDecimal)
    case Some(l) =>
      assert WellFormed(l) by { ScanIsGrammar(s, l); }
      match LeadExp(l)
      case Err(e) => Err(e)
      case Ok(_) => Ok(JsonText(l))
  }

  /** Accepts what reads as a decimal, and returns its JSON form: the text itself
      where that is one already. */
  method NewBigVal(s: string) returns (r: Result<string>)
    requires |s| < LITERAL_LIMIT
    ensures r == BigValOf(s)
  {
    var l := ScanDecimal(s);
    if l == None {
      return Err(NotDecimal);
    }
    Within(s, l.value);
    var exp := LeadExponent(l.value);
    if exp.Err? {
      return Err(exp.error);
    }
    FormIsSpelling(l.value, s);
    if SpelledForJson(l.value, s) {
      return Ok(s);
    }
    var text := JsonSpelling(l.value);
    return Ok(text);
  }

  // ----- the form -----

  lemma JsonFormed(l: Literal)
    requires WellFormed(l)
    ensures WellFormed(JsonLiteral(l)) && IsJsonInt(JsonLiteral(l).intPart)
  {
    TrimmedLeft(l.intPart);
  }

  lemma TrimKeeps(s: string)
    requires s != "" && s[0] != '0'
    ensures TrimLeft(s) == s
  {
  }

  /** The text is returned as it is exactly when rewriting it would change nothing. */
  lemma FormIsSpelling(l: Literal, s: string)
    requires Scan(s) == Some(l)
    ensures s != "" && (SpelledForJson(l, s) <==> JsonText(l) == s)
  {
    hide Scan;
    ScanIsGrammar(s, l);
    var plus :| s == Spelling(l, plus);
    NoSignFirst(l);
    if SpelledForJson(l, s) {
      SpelledAlready(l, plus);
    }
    if JsonText(l) == s {
      JsonScans(l);
      JsonFormed(l);
      NoSignFirst(JsonLiteral(l));
    }
  }

  lemma SpelledAlready(l: Literal, plus: bool)
    requires WellFormed(l) && Spelling(l, plus) != "" && SpelledForJson(l, Spelling(l, plus))
    ensures JsonLiteral(l) == l && Spelling(l, plus) == Spelling(l, false)
  {
    if l.intPart == "0" {
      assert "0"[1..] == "";
    } else {
      TrimKeeps(l.intPart);
    }
  }

  lemma JsonScans(l: Literal)
    requires WellFormed(l)
    ensures WellFormed(JsonLiteral(l)) && Scan(JsonText(l)) == Some(JsonLiteral(l))
  {
    hide Scan, JsonLiteral, Spelling;
    JsonFormed(l);
    ScanIsGrammar(JsonText(l), JsonLiteral(l));
  }

  /** Whatever is accepted is written as a JSON number. */
  lemma WrittenAsJson(s: string)
    requires BigValOf(s).Ok?
    ensures IsJsonNumber(BigValOf(s).value)
  {
    hide Scan, IsExponent, AllDigits;
    var l := Scan(s).value;
    ScanIsGrammar(s, l);
    JsonFormed(l);
    var j := JsonLiteral(l);
    JsonParts(j);
    assert JsonText(l) == JsonNumber(j.neg, j.intPart, Fraction(j), j.exponent);
  }

  lemma JsonParts(j: Literal)
    requires WellFormed(j) && j.point == (j.frac != "")
    ensures var f := Fraction(j); f == "" || (|f| > 1 && f[0] == '.' && AllDigits(f[1..]))
    ensures Spelling(j, false) == JsonNumber(j.neg, j.intPart, Fraction(j), j.exponent)
  {
    if j.point { assert Fraction(j)[1..] == j.frac; }
  }

  // ----- the value -----

  // The rewrite keeps the digits past leading zeros, and their power.
  lemma SameLead(l: Literal)
    requires WellFormed(l)
    ensures var j := JsonLiteral(l);
      && TrimLeft(j.intPart + j.frac) == TrimLeft(l.intPart + l.frac)
      && |j.intPart| - LeadingZeros(j) == |l.intPart| - LeadingZeros(l)
      && IsZero(j) == IsZero(l)
  {
    var j := JsonLiteral(l);
    TrimmedLeft(l.intPart);
    TrimLeftJoined(l.intPart, l.frac);
    TrimLeftJoined(j.intPart, j.frac);
    LeadingZerosCount(l);
    LeadingZerosCount(j);
    assert TrimLeft("0") == "" by { assert "0"[1..] == ""; }
    if TrimLeft(l.intPart) != "" {
      TrimKeeps(TrimLeft(l.intPart));
    }
  }

  /** The JSON form reads as the same decimal, spells the same value, and is its own
      JSON form. */
  lemma BigValKeepsValue(s: string)
    requires BigValOf(s).Ok?
    ensures var v := BigValOf(s).value;
      && Parsed(v) == Parsed(s) && Parsed(s).Ok?
      && BigValOf(v) == Ok(v)
  {
    hide Scan, TrimLeft, TrimRight, Spelling;
    var l := Scan(s).value;
    ScanIsGrammar(s, l);
    JsonScans(l);
    SameLead(l);
    JsonFormed(l);
    FormTwice(l);
  }

  lemma FormTwice(l: Literal)
    requires WellFormed(l)
    ensures JsonLiteral(JsonLiteral(l)) == JsonLiteral(l)
  {
    TrimmedLeft(l.intPart);
    if TrimLeft(l.intPart) == "" {
      assert "0"[1..] == "";
    } else {
      TrimKeeps(TrimLeft(l.intPart));
    }
  }

  /** v is zero, or its leading digit's power of ten is in the range held. */
  ghost predicate HeldValue(v: real) {
    var size := if v < 0.0 then -v else v;
    v == 0.0 || P10(-MAX_DECIMAL_EXP) <= size < P10(MAX_DECIMAL_EXP + 1)
  }

  /** A text is accepted exactly when it is in the grammar and its value is zero or
      within the range of powers of ten held. */
  lemma AcceptedExactly(s: string)
    requires |s| < LITERAL_LIMIT
    ensures BigValOf(s).Ok? <==> exists l :: Spells(s, l) && HeldValue(Spelled(l))
  {
    hide Scan, P10, Spelled, LeadExp, Spelling;
    forall l | Spells(s, l) || Scan(s) == Some(l) ensures Scan(s) == Some(l) && Spells(s, l) {
      ScanIsGrammar(s, l);
    }
    if Scan(s).Some? {
      Within(s, Scan(s).value);
      RangeIsByValue(Scan(s).value);
    }
  }
}
