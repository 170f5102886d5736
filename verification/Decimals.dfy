/** Exact decimals: scanning a numeric literal and reading its value, held to the real
    number the literal denotes. */
module Decimals {
  import opened Values

  const MAX_DECIMAL_EXP: int := 999_999_999_999_999_999
  const EXP_SATURATION: int := 4_000_000_000_000_000_000
  const MAX_INT64: int := 0x7FFF_FFFF_FFFF_FFFF

  // No literal is this long: Go allocates no string past 2 to the 47.
  const LITERAL_LIMIT: nat := 1_000_000_000_000_000_000

  /** A scanned literal.  `exponent` keeps its letter and sign, and is empty where there
      is none; `point` tells "1." from "1". */
  datatype Literal = Literal(neg: bool, intPart: string, frac: string, exponent: string, point: bool)

  datatype Decimal = Decimal(neg: bool, digits: string, exp: int)

  datatype Error = NotDecimal | ExponentRange(neg: bool, small: bool)

  datatype Result<+T> = Ok(value: T) | Err(error: Error)

  // ----- digits -----

  predicate IsDigit(c: char) {
    '0' <= c <= '9'
  }

  predicate AllDigits(s: string) {
    forall i :: 0 <= i < |s| ==> IsDigit(s[i])
  }

  function DigitOf(c: char): (n: nat)
    requires IsDigit(c)
    ensures n <= 9
  {
    c as int - '0' as int
  }

  /** The number a run of digits spells. */
  function NatOf(s: string): nat
    requires AllDigits(s)
  {
    if s == "" then 0 else 10 * NatOf(s[..|s| - 1]) + DigitOf(s[|s| - 1])
  }

  function TrimLeft(s: string): (t: string)
    ensures |t| <= |s|
  {
    if s != "" && s[0] == '0' then TrimLeft(s[1..]) else s
  }

  function TrimRight(s: string): string {
    if s != "" && s[|s| - 1] == '0' then TrimRight(s[..|s| - 1]) else s
  }

  // ----- the grammar -----

  predicate IsSign(c: char) {
    c == '+' || c == '-'
  }

  /** "" or an e, a sign or none, and digits. */
  predicate IsExponent(e: string) {
    e == "" ||
    (|e| >= 2 && (e[0] == 'e' || e[0] == 'E') &&
     (AllDigits(e[1..]) || (|e| >= 3 && IsSign(e[1]) && AllDigits(e[2..]))))
  }

  predicate WellFormed(l: Literal) {
    && AllDigits(l.intPart) && AllDigits(l.frac) && IsExponent(l.exponent)
    && (l.intPart != "" || l.frac != "") && (l.frac != "" ==> l.point)
  }

  function Fraction(l: Literal): string {
    if l.point then "." + l.frac else ""
  }

  function Body(l: Literal): string {
    l.intPart + Fraction(l) + l.exponent
  }

  function Sign(l: Literal, plus: bool): string {
    if l.neg then "-" else if plus then "+" else ""
  }

  /** How l is spelled, plus saying whether one not negative opens with a "+". */
  function Spelling(l: Literal, plus: bool): string {
    Sign(l, plus) + Body(l)
  }

  /** The grammar, declaratively: some sign and exponent around digits that a point may
      split, spell s, and l is their split. */
  ghost predicate Spells(s: string, l: Literal) {
    WellFormed(l) && exists plus :: s == Spelling(l, plus)
  }

  // ----- scanning -----

  function DigitsEnd(s: string, i: nat): (end: nat)
    requires i <= |s|
    ensures i <= end <= |s| && AllDigits(s[i..end]) && (end < |s| ==> !IsDigit(s[end]))
    decreases |s| - i
  {
    if i < |s| && IsDigit(s[i]) then DigitsEnd(s, i + 1) else i
  }

  method ScanDigits(s: string, from: nat) returns (i: nat)
    requires from <= |s|
    ensures i == DigitsEnd(s, from)
  {
    i := from;
    while i < |s| && IsDigit(s[i])
      invariant from <= i <= |s| && DigitsEnd(s, i) == DigitsEnd(s, from)
    {
      i := i + 1;
    }
  }

  // The exponent from i to the end of s, where that is what follows.
  function ScanExponent(s: string, i: nat): Option<string>
    requires i <= |s|
  {
    if i == |s| then Some("")
    else if s[i] != 'e' && s[i] != 'E' then None
    else
      var c := if i + 1 < |s| && IsSign(s[i + 1]) then i + 2 else i + 1;
      if DigitsEnd(s, c) == c || DigitsEnd(s, c) != |s| then None else Some(s[i..])
  }

  // The literal past its sign, from i on.
  function ScanBody(s: string, neg: bool, i: nat): Option<Literal>
    requires i <= |s|
  {
    var a := DigitsEnd(s, i);
    var point := a < |s| && s[a] == '.';
    var b := if point then DigitsEnd(s, a + 1) else a;
    var frac := if point then s[a + 1..b] else "";
    if s[i..a] == "" && frac == "" then None
    else match ScanExponent(s, b)
      case None => None
      case Some(e) => Some(Literal(neg, s[i..a], frac, e, point))
  }

  function Scan(s: string): Option<Literal> {
    if s != "" && IsSign(s[0]) then ScanBody(s, s[0] == '-', 1) else ScanBody(s, false, 0)
  }

  method ScanDecimal(s: string) returns (r: Option<Literal>)
    ensures r == Scan(s)
  {
    hide ScanExponent, IsDigit;
    var i := 0;
    var neg := false;
    if i < |s| && IsSign(s[i]) {
      neg := s[i] == '-';
      i := i + 1;
    }
    var end := ScanDigits(s, i);
    var intPart := s[i..end];
    i := end;
    var frac, point := "", false;
    if i < |s| && s[i] == '.' {
      end := ScanDigits(s, i + 1);
      frac, point, i := s[i + 1..end], true, end;
    }
    if intPart == "" && frac == "" {
      return None;
    }
    var exponent := ScanTail(s, i);
    if exponent == None {
      return None;
    }
    return Some(Literal(neg, intPart, frac, exponent.value, point));
  }

  method ScanTail(s: string, from: nat) returns (exponent: Option<string>)
    requires from <= |s|
    ensures exponent == ScanExponent(s, from)
  {
    var i := from;
    if i < |s| && (s[i] == 'e' || s[i] == 'E') {
      i := i + 1;
      if i < |s| && IsSign(s[i]) {
        i := i + 1;
      }
      var end := ScanDigits(s, i);
      if end == i {
        return None;
      }
      i := end;
    }
    if i != |s| {
      return None;
    }
    assert s[from..|s|] == s[from..];
    return Some(s[from..i]);
  }

  // A run of digits ends where something else follows.
  lemma {:induction false} RunEnds(s: string, i: nat, end: nat)
    requires i <= end <= |s| && AllDigits(s[i..end]) && (end < |s| ==> !IsDigit(s[end]))
    ensures DigitsEnd(s, i) == end
    decreases end - i
  {
    if i < end {
      assert s[i] == s[i..end][0];
      assert s[i + 1..end] == s[i..end][1..];
      RunEnds(s, i + 1, end);
    }
  }

  lemma ExponentScans(s: string, i: nat, e: string)
    requires i <= |s| && s[i..] == e && IsExponent(e)
    ensures ScanExponent(s, i) == Some(e)
  {
    if e != "" {
      var c := if IsSign(e[1]) then 2 else 1;
      assert forall k :: 0 <= k < |e| ==> e[k] == s[i + k];
      assert s[i + c..|s|] == e[c..];
      RunEnds(s, i + c, |s|);
    }
  }

  lemma ExponentRead(s: string, i: nat)
    requires i <= |s| && ScanExponent(s, i).Some?
    ensures ScanExponent(s, i) == Some(s[i..]) && IsExponent(s[i..])
  {
    if i < |s| {
      var e := s[i..];
      if i + 1 < |s| && IsSign(s[i + 1]) {
        assert e[2..] == s[i + 2..|s|] && AllDigits(s[i + 2..|s|]);
        assert e[0] == s[i] && e[1] == s[i + 1];
      } else {
        assert e[1..] == s[i + 1..|s|] && AllDigits(s[i + 1..|s|]);
        assert e[0] == s[i];
      }
    } else {
      assert s[i..] == "";
    }
  }

  lemma Parts(s: string, n: nat, a: string, b: string, c: string)
    requires n <= |s| && s[n..] == a + b + c
    ensures n + |a| + |b| + |c| == |s|
    ensures s[n..n + |a|] == a && s[n + |a|..n + |a| + |b|] == b && s[n + |a| + |b|..] == c
  {
    var rest := s[n..];
    assert rest[..|a|] == a && rest[|a|..|a| + |b|] == b && rest[|a| + |b|..] == c;
  }

  lemma ExponentOpens(e: string)
    requires IsExponent(e) && e != ""
    ensures !IsDigit(e[0]) && e[0] != '.'
  {
  }

  lemma NoDigitInDot()
    ensures !IsDigit('.')
  {
  }

  // Where the scan finds the literal's parts, past a sign of n characters.
  lemma PartsScan(s: string, l: Literal, n: nat)
    requires WellFormed(l) && n <= |s| && s[n..] == Body(l)
    ensures var a := n + |l.intPart|; var b := a + |Fraction(l)|;
      && b <= |s| && DigitsEnd(s, n) == a && s[n..a] == l.intPart && (a < |s| && s[a] == '.' <==> l.point)
      && (l.point ==> DigitsEnd(s, a + 1) == b && s[a + 1..b] == l.frac)
      && s[b..] == l.exponent
  {
    hide IsExponent, AllDigits, IsDigit, DigitsEnd;
    Parts(s, n, l.intPart, Fraction(l), l.exponent);
    AfterInteger(s, l, n + |l.intPart|);
    RunEnds(s, n, n + |l.intPart|);
  }

  // What follows a literal's integer part is no digit: its fraction, or its exponent.
  lemma AfterInteger(s: string, l: Literal, a: nat)
    requires WellFormed(l) && a + |Fraction(l)| + |l.exponent| == |s|
    requires s[a..a + |Fraction(l)|] == Fraction(l) && s[a + |Fraction(l)|..] == l.exponent
    ensures a < |s| ==> !IsDigit(s[a])
    ensures a < |s| && s[a] == '.' <==> l.point
    ensures l.point ==> DigitsEnd(s, a + 1) == a + |Fraction(l)| && s[a + 1..a + |Fraction(l)|] == l.frac
  {
    NoDigitInDot();
    hide IsExponent, AllDigits, IsDigit, DigitsEnd;
    var b := a + |Fraction(l)|;
    if b < |s| {
      assert s[b] == s[b..][0];
      ExponentOpens(l.exponent);
    }
    if l.point {
      FractionScans(s, a, l.frac);
    }
  }

  // Text spelled by the grammar past a sign of n characters scans to its parts.
  lemma BodyScans(s: string, l: Literal, n: nat)
    requires WellFormed(l) && n <= |s| && s[n..] == Body(l)
    ensures ScanBody(s, l.neg, n) == Some(l)
  {
    hide IsExponent, AllDigits, ScanExponent, Body, DigitsEnd;
    PartsScan(s, l, n);
    ExponentScans(s, n + |l.intPart| + |Fraction(l)|, l.exponent);
  }

  lemma FractionScans(s: string, a: nat, frac: string)
    requires a + 1 + |frac| <= |s| && s[a..a + 1 + |frac|] == "." + frac && AllDigits(frac)
    requires a + 1 + |frac| < |s| ==> !IsDigit(s[a + 1 + |frac|])
    ensures s[a] == '.' && DigitsEnd(s, a + 1) == a + 1 + |frac| && s[a + 1..a + 1 + |frac|] == frac
  {
    var b := a + 1 + |frac|;
    assert s[a] == s[a..b][0];
    assert s[a + 1..b] == s[a..b][1..];
    RunEnds(s, a + 1, b);
  }

  lemma Joined(s: string, n: nat, a: nat, b: nat)
    requires n <= a <= b <= |s|
    ensures s[n..] == s[n..a] + s[a..b] + s[b..]
  {
  }

  // What the scan splits past a sign joins again, and is the grammar's.
  lemma BodyRead(s: string, neg: bool, n: nat, l: Literal)
    requires n <= |s| && ScanBody(s, neg, n) == Some(l)
    ensures WellFormed(l) && l.neg == neg && s[n..] == Body(l)
  {
    hide IsExponent, ScanExponent, IsDigit;
    var a := DigitsEnd(s, n);
    var b := if l.point then DigitsEnd(s, a + 1) else a;
    ExponentRead(s, b);
    Joined(s, n, a, b);
    if l.point {
      assert s[a..b] == "." + s[a + 1..b];
    }
  }

  // What follows a sign opens with none.
  lemma NoSignFirst(l: Literal)
    requires WellFormed(l)
    ensures Body(l) != "" && !IsSign(Body(l)[0])
  {
    if l.intPart != "" { assert IsDigit(l.intPart[0]) && Body(l)[0] == l.intPart[0]; }
  }

  lemma SpelledScans(s: string, l: Literal)
    requires Spells(s, l)
    ensures Scan(s) == Some(l)
  {
    var plus :| s == Spelling(l, plus);
    hide ScanBody, Body, IsExponent, AllDigits, WellFormed;
    NoSignFirst(l);
    var n := |Sign(l, plus)|;
    assert s[n..] == Body(l);
    BodyScans(s, l, n);
    ScanPastSign(s, l, plus);
  }

  lemma ScanPastSign(s: string, l: Literal, plus: bool)
    requires s == Sign(l, plus) + Body(l) && Body(l) != "" && !IsSign(Body(l)[0])
    ensures Scan(s) == ScanBody(s, l.neg, |Sign(l, plus)|)
  {
    hide ScanBody, Body;
    if Sign(l, plus) == "" {
      assert s == Body(l);
    } else {
      assert s[0] == Sign(l, plus)[0];
    }
  }

  lemma ScannedSpells(s: string, l: Literal)
    requires Scan(s) == Some(l)
    ensures Spells(s, l)
  {
    hide ScanBody;
    if s != "" && IsSign(s[0]) {
      BodyRead(s, s[0] == '-', 1, l);
      assert s == [s[0]] + s[1..];
      assert s == Spelling(l, s[0] == '+');
    } else {
      BodyRead(s, false, 0, l);
      assert s == s[0..];
      assert s == Spelling(l, false);
    }
  }

  /** The scan accepts exactly the grammar, and splits a literal one way. */
  lemma ScanIsGrammar(s: string, l: Literal)
    ensures Scan(s) == Some(l) <==> Spells(s, l)
  {
    hide *;
    if Spells(s, l) { SpelledScans(s, l); }
    if Scan(s) == Some(l) { ScannedSpells(s, l); }
  }

  // ----- reading the exponent and the leading digit's power of ten -----

  /** The number an exponent spells. */
  function ExponentOf(e: string): int
    requires IsExponent(e)
  {
    if e == "" then 0
    else if e[1] == '-' then 0 - NatOf(e[2..])
    else if e[1] == '+' then NatOf(e[2..])
    else NatOf(e[1..])
  }

  /** n, no farther from zero than the saturation. */
  function Saturated(n: int): int {
    if n > EXP_SATURATION then EXP_SATURATION else if n < -EXP_SATURATION then -EXP_SATURATION else n
  }

  lemma {:induction false} NatGrows(s: string, n: nat)
    requires AllDigits(s) && n <= |s|
    ensures NatOf(s[..n]) <= NatOf(s)
    decreases |s| - n
  {
    if n == |s| {
      assert s[..n] == s;
    } else {
      NatGrows(s[..|s| - 1], n);
      assert s[..|s| - 1][..n] == s[..n];
    }
  }

  /** Reads an exponent digit by digit with every intermediate sum within int64, however
      long it is. */
  method ExponentValue(exponent: string) returns (e: int)
    requires IsExponent(exponent)
    ensures e == Saturated(ExponentOf(exponent))
  {
    if exponent == "" {
      return 0;
    }
    var body := exponent[1..];
    var neg := body[0] == '-';
    if neg || body[0] == '+' {
      assert body[1..] == exponent[2..];
      body := body[1..];
    }
    e := 0;
    var i := 0;
    while i < |body|
      invariant 0 <= i <= |body| && 0 <= e <= EXP_SATURATION
      invariant if e < EXP_SATURATION then e == NatOf(body[..i]) else NatOf(body[..i]) >= EXP_SATURATION
    {
      NatGrows(body, i + 1);
      assert body[..i + 1][..i] == body[..i];
      if e >= EXP_SATURATION / 10 {
        e := EXP_SATURATION;
        NatPast(body, i);
        break;
      }
      assert 10 * e + 9 <= MAX_INT64;
      e := e * 10 + DigitOf(body[i]);
      i := i + 1;
    }
    if i == |body| { assert body[..i] == body; }
    if neg {
      e := -e;
    }
  }

  // A prefix an order below the saturation, with a digit to come, is past it.
  lemma NatPast(s: string, i: nat)
    requires AllDigits(s) && i < |s| && NatOf(s[..i]) >= EXP_SATURATION / 10
    ensures NatOf(s) >= EXP_SATURATION
  {
    NatGrows(s, i + 1);
    assert s[..i + 1][..i] == s[..i];
  }

  // ----- the value -----

  /** Ten to the k. */
  ghost function P10(k: int): real
    decreases if k < 0 then -k else k
  {
    if k == 0 then 1.0 else if k > 0 then 10.0 * P10(k - 1) else P10(k + 1) / 10.0
  }

  lemma P10Step(k: int)
    ensures P10(k + 1) == 10.0 * P10(k)
  {
  }

  lemma {:induction false} P10Positive(k: int)
    ensures P10(k) > 0.0
    decreases if k < 0 then -k else k
  {
    if k > 0 { P10Positive(k - 1); } else if k < 0 { P10Positive(k + 1); }
  }

  lemma {:induction false} P10Add(a: int, b: int)
    ensures P10(a + b) == P10(a) * P10(b)
    decreases if b < 0 then -b else b
  {
    hide P10;
    if b > 0 {
      P10Add(a, b - 1);
      TenTimes(a, b, b - 1);
    } else if b < 0 {
      P10Add(a, b + 1);
      TenTimes(a, b + 1, b);
    } else {
      P10Zero();
    }
  }

  lemma P10Zero()
    ensures P10(0) == 1.0
  {
  }

  // Adding at one of two neighbouring powers adds at the other.
  lemma TenTimes(a: int, m: int, n: int)
    requires m == n + 1
    requires P10(a + n) == P10(a) * P10(n) || P10(a + m) == P10(a) * P10(m)
    ensures P10(a + n) == P10(a) * P10(n) && P10(a + m) == P10(a) * P10(m)
  {
    hide P10;
    P10Step(n);
    P10Step(a + n);
    TenIn(P10(a), P10(n));
  }

  lemma TenIn(x: real, y: real)
    ensures x * (10.0 * y) == 10.0 * (x * y)
  {
  }

  lemma {:induction false} P10Rises(a: int, b: int)
    requires a <= b
    ensures P10(a) <= P10(b) && (a < b ==> 10.0 * P10(a) <= P10(b))
    decreases b - a
  {
    P10Positive(a);
    if a < b {
      P10Rises(a, b - 1);
      P10Step(b - 1);
    }
  }

  /** The digits read as a decimal fraction, the first of them in the units place. */
  ghost function Lead(s: string): real
    requires AllDigits(s)
  {
    if s == "" then 0.0 else DigitOf(s[0]) as real + Lead(s[1..]) / 10.0
  }

  ghost function Signed(neg: bool, magnitude: real): real {
    if neg then -magnitude else magnitude
  }

  ghost function Mag(digits: string, exp: int): real
    requires AllDigits(digits)
  {
    Lead(digits) * P10(exp)
  }

  /** The value a decimal denotes. */
  ghost function Denoted(d: Decimal): real
    requires AllDigits(d.digits)
  {
    Signed(d.neg, Mag(d.digits, d.exp))
  }

  // Its digits as a number, at the power its exponent gives.
  ghost function Size(l: Literal): real
    requires WellFormed(l)
  {
    NatOf(l.intPart + l.frac) as real * P10(ExponentOf(l.exponent) - |l.frac|)
  }

  /** The value a literal spells: its digits, at the power its exponent gives. */
  ghost function Spelled(l: Literal): real
    requires WellFormed(l)
  {
    Signed(l.neg, Size(l))
  }

  lemma {:induction false} LeadJoined(a: string, b: string)
    requires AllDigits(a) && AllDigits(b)
    ensures AllDigits(a + b) && Lead(a + b) == Lead(a) + Lead(b) * P10(-|a|)
  {
    if a == "" {
      assert a + b == b;
    } else {
      LeadJoined(a[1..], b);
      OneMoreJoined(a, b);
    }
  }

  lemma OneMoreJoined(a: string, b: string)
    requires AllDigits(a) && AllDigits(b) && a != "" && AllDigits(a[1..]) && AllDigits(a[1..] + b)
    requires Lead(a[1..] + b) == Lead(a[1..]) + Lead(b) * P10(-|a[1..]|)
    ensures AllDigits(a + b) && Lead(a + b) == Lead(a) + Lead(b) * P10(-|a|)
  {
    hide P10, Lead, DigitOf;
    assert (a + b)[1..] == a[1..] + b && (a + b)[0] == a[0];
    assert AllDigits(a + b);
    LeadSplits(a + b);
    LeadSplits(a);
    P10Step(-|a|);
    JoinStep(DigitOf(a[0]) as real, Lead(a[1..]), Lead(b), P10(-|a[1..]|), P10(-|a|));
  }

  // One digit more before what is joined.
  lemma JoinStep(d: real, x: real, y: real, p: real, q: real)
    requires p == 10.0 * q
    ensures d + (x + y * p) / 10.0 == d + x / 10.0 + y * q
  {
    Scale(x, y, p, q);
  }

  lemma LeadSplits(s: string)
    requires AllDigits(s) && s != ""
    ensures AllDigits(s[1..]) && Lead(s) == DigitOf(s[0]) as real + Lead(s[1..]) / 10.0
  {
  }

  lemma Scale(x: real, y: real, p: real, q: real)
    requires p == 10.0 * q
    ensures (x + y * p) / 10.0 == x / 10.0 + y * q
  {
    assert y * p == 10.0 * (y * q);
  }

  lemma LeadOne(c: char)
    requires IsDigit(c)
    ensures AllDigits([c]) && Lead([c]) == DigitOf(c) as real && Lead("") == 0.0 && NatOf("") == 0
  {
    assert [c][1..] == "";
  }

  lemma LeadLast(front: string, c: char)
    requires AllDigits(front) && IsDigit(c)
    ensures Lead(front + [c]) == Lead(front) + DigitOf(c) as real * P10(0 - |front|)
  {
    hide Lead, P10;
    LeadOne(c);
    LeadJoined(front, [c]);
  }

  lemma NatLast(front: string, c: char)
    requires AllDigits(front) && IsDigit(c)
    ensures NatOf(front + [c]) == 10 * NatOf(front) + DigitOf(c)
  {
    assert (front + [c])[..|front|] == front;
  }

  lemma NoDigits()
    ensures AllDigits("") && NatOf("") as real == Lead("") * P10(-1)
  {
    hide P10;
    assert 0.0 * P10(-1) == 0.0;
  }

  lemma NatIsLeadOn(front: string, c: char)
    requires AllDigits(front) && IsDigit(c) && AllDigits(front + [c])
    requires NatOf(front) as real == Lead(front) * P10(|front| - 1)
    ensures NatOf(front + [c]) as real == Lead(front + [c]) * P10(|front|)
  {
    hide *;
    LeadLast(front, c);
    NatLast(front, c);
    PowersCancel(|front|);
    NatLead(NatOf(front), DigitOf(c), Lead(front), P10(|front| - 1), P10(|front|), P10(0 - |front|), NatOf(front + [c]), Lead(front + [c]));
  }

  /** A run of digits is its fraction, scaled to its length. */
  lemma {:induction false} NatIsLead(s: string)
    requires AllDigits(s)
    ensures NatOf(s) as real == Lead(s) * P10(|s| - 1)
  {
    hide *;
    if s == "" {
      NoDigits();
    } else {
      DigitsSplit(s);
      NatIsLead(s[..|s| - 1]);
      NatIsLeadOn(s[..|s| - 1], s[|s| - 1]);
    }
  }

  lemma DigitsSplit(s: string)
    requires AllDigits(s) && s != ""
    ensures var front, c := s[..|s| - 1], s[|s| - 1]; AllDigits(front) && IsDigit(c) && s == front + [c]
  {
  }

  lemma PowersCancel(n: int)
    ensures P10(n) * P10(0 - n) == 1.0 && P10(n) == 10.0 * P10(n - 1)
  {
    P10Add(n, 0 - n);
    P10Zero();
    P10Step(n - 1);
  }

  lemma NatLead(f: nat, d: nat, lead: real, p: real, q: real, r: real, n: nat, whole: real)
    requires f as real == lead * p && q * r == 1.0 && q == 10.0 * p
    requires n == 10 * f + d && whole == lead + d as real * r
    ensures n as real == whole * q
  {
    assert (lead + d as real * r) * q == lead * q + (d as real) * (r * q);
    assert lead * q == 10.0 * (lead * p);
  }

  // ----- trimming zeros -----

  function Zeros(s: string): nat {
    |s| - |TrimLeft(s)|
  }

  lemma {:induction false} TrimmedLeft(s: string)
    requires AllDigits(s)
    ensures var t := TrimLeft(s); AllDigits(t) && |t| <= |s| && (t != "" ==> t[0] != '0')
    ensures Lead(s) == Lead(TrimLeft(s)) * P10(|TrimLeft(s)| - |s|)
  {
    if s != "" && s[0] == '0' {
      TrimmedLeft(s[1..]);
      P10Step(|TrimLeft(s)| - |s|);
      TenIn(Lead(TrimLeft(s)), P10(|TrimLeft(s)| - |s|));
    } else {
      P10Zero();
    }
  }

  lemma {:induction false} TrimmedRight(s: string)
    requires AllDigits(s)
    ensures var t := TrimRight(s);
      && AllDigits(t) && |t| <= |s| && Lead(t) == Lead(s)
      && (t != "" ==> t[|t| - 1] != '0' && t[0] == s[0])
      && (s != "" && s[0] != '0' ==> t != "")
  {
    if s != "" && s[|s| - 1] == '0' {
      var front := s[..|s| - 1];
      TrimmedRight(front);
      assert s == front + ['0'];
      LeadLast(front, '0');
      NothingAdded(P10(0 - |front|));
    }
  }

  lemma NothingAdded(x: real)
    ensures 0.0 * x == 0.0
  {
  }

  lemma {:induction false} TrimLeftJoined(a: string, b: string)
    ensures TrimLeft(a + b) == if TrimLeft(a) == "" then TrimLeft(b) else TrimLeft(a) + b
  {
    if a == "" {
      assert a + b == b;
    } else if a[0] == '0' {
      assert (a + b)[1..] == a[1..] + b;
      TrimLeftJoined(a[1..], b);
    }
  }

  // ----- the leading digit's power of ten -----

  function LeadingZeros(l: Literal): nat {
    if Zeros(l.intPart) == |l.intPart| then Zeros(l.intPart) + Zeros(l.frac) else Zeros(l.intPart)
  }

  lemma LeadingZerosCount(l: Literal)
    ensures LeadingZeros(l) == Zeros(l.intPart + l.frac)
  {
    TrimLeftJoined(l.intPart, l.frac);
  }

  /** The power of ten at which l's number starts, were its exponent e. */
  function LeadPower(l: Literal, e: int): int {
    e + |l.intPart| - LeadingZeros(l) - 1
  }

  function IsZero(l: Literal): bool {
    LeadingZeros(l) == |l.intPart| + |l.frac|
  }

  predicate InRange(exp: int) {
    -MAX_DECIMAL_EXP <= exp <= MAX_DECIMAL_EXP
  }

  /** Zero reads at any exponent; any other value is held to the range. */
  function LeadExp(l: Literal): Result<int>
    requires WellFormed(l)
  {
    if IsZero(l) then Ok(0)
    else
      var exp := LeadPower(l, Saturated(ExponentOf(l.exponent)));
      if InRange(exp) then Ok(exp) else Err(ExponentRange(l.neg, exp < 0))
  }

  /** No sum leaves int64 for a literal within the limit. */
  method LeadExponent(l: Literal) returns (r: Result<int>)
    requires WellFormed(l) && |l.intPart| + |l.frac| < LITERAL_LIMIT
    ensures r == LeadExp(l)
  {
    var zeros := |l.intPart| - |TrimLeft(l.intPart)|;
    if zeros == |l.intPart| {
      zeros := zeros + |l.frac| - |TrimLeft(l.frac)|;
    }
    if zeros == |l.intPart| + |l.frac| {
      return Ok(0);
    }
    var e := ExponentValue(l.exponent);
    TrimmedLeft(l.intPart);
    TrimmedLeft(l.frac);
    assert -MAX_INT64 <= |l.intPart| - zeros - 1 <= MAX_INT64;
    assert -MAX_INT64 <= e + (|l.intPart| - zeros - 1) <= MAX_INT64;
    var exp := e + (|l.intPart| - zeros - 1);
    if exp > MAX_DECIMAL_EXP || exp < -MAX_DECIMAL_EXP {
      return Err(ExponentRange(l.neg, exp < 0));
    }
    return Ok(exp);
  }

  /** Reading a saturated exponent for the exact one leaves each verdict, and which side
      of the range it names, as it was. */
  lemma SaturationHarmless(l: Literal)
    requires WellFormed(l) && |l.intPart| + |l.frac| < LITERAL_LIMIT && !IsZero(l)
    ensures var exact := LeadPower(l, ExponentOf(l.exponent));
      LeadExp(l) == if InRange(exact) then Ok(exact) else Err(ExponentRange(l.neg, exact < 0))
  {
    TrimmedLeft(l.intPart);
    TrimmedLeft(l.frac);
  }

  // ----- parsing -----

  predicate Canonical(d: Decimal) {
    && AllDigits(d.digits)
    && (d.digits == "" ==> !d.neg && d.exp == 0)
    && (d.digits != "" ==> d.digits[0] != '0' && d.digits[|d.digits| - 1] != '0' && InRange(d.exp))
  }

  function DecimalOf(l: Literal, exp: int): Decimal {
    var lead := TrimLeft(l.intPart + l.frac);
    if lead == "" then Decimal(false, "", 0) else Decimal(l.neg, TrimRight(lead), exp)
  }

  function Parsed(s: string): Result<Decimal> {
    match Scan(s)
    case None => Err(NotDecimal)
    case Some(l) =>
      assert WellFormed(l) by { ScanIsGrammar(s, l); }
      match LeadExp(l)
      case Err(e) => Err(e)
      case Ok(exp) => Ok(DecimalOf(l, exp))
  }

  method ParseDecimal(s: string) returns (r: Result<Decimal>)
    requires |s| < LITERAL_LIMIT
    ensures r == Parsed(s)
  {
    var l := ScanDecimal(s);
    if l == None {
      return Err(NotDecimal);
    }
    ScanIsGrammar(s, l.value);
    var exp := LeadExponent(l.value);
    match exp
    case Err(e) => return Err(e);
    case Ok(n) => return Ok(DecimalOf(l.value, n));
  }

  lemma {:induction false} LeadBounds(s: string)
    requires AllDigits(s)
    ensures 0.0 <= Lead(s) < 10.0 && (s != "" && s[0] != '0' ==> Lead(s) >= 1.0)
    ensures s != "" && s[|s| - 1] != '0' ==> Lead(s) > 0.0
  {
    if s != "" {
      LeadBounds(s[1..]);
    }
  }

  /** A nonzero decimal's magnitude: from its power of ten up to the next. */
  lemma Magnitude(digits: string, exp: int)
    requires AllDigits(digits) && digits != "" && digits[0] != '0'
    ensures P10(exp) <= Mag(digits, exp) < P10(exp + 1)
  {
    hide Lead, P10;
    LeadBounds(digits);
    P10Positive(exp);
    P10Step(exp);
    Between(Lead(digits), P10(exp), Mag(digits, exp), P10(exp + 1));
  }

  lemma Between(x: real, p: real, m: real, q: real)
    requires 1.0 <= x < 10.0 && p > 0.0 && m == x * p && q == 10.0 * p
    ensures p <= m < q
  {
    assert (x - 1.0) * p >= 0.0;
    assert (10.0 - x) * p > 0.0;
  }

  // The digits, shifted as the literal spells them, are the trimmed ones at the
  // leading digit's power.
  lemma SpelledLead(l: Literal)
    requires WellFormed(l)
    ensures var lead := TrimLeft(l.intPart + l.frac); var e := ExponentOf(l.exponent);
      AllDigits(lead) &&
      Size(l) == Mag(lead, LeadPower(l, e))
  {
    hide Lead, P10, NatOf, TrimLeft, ExponentOf;
    var all := l.intPart + l.frac;
    var e := ExponentOf(l.exponent);
    var zeros: int := Zeros(all);
    LeadingZerosCount(l);
    NatIsLead(all);
    TrimmedLeft(all);
    P10Add(0 - zeros, |all| - 1);
    P10Add(|all| - 1 - zeros, e - |l.frac|);
    Shifted(NatOf(all) as real, Lead(all), Lead(TrimLeft(all)), P10(|all| - 1), P10(0 - zeros), P10(|all| - 1 - zeros), P10(e - |l.frac|));
  }

  lemma Shifted(n: real, lead: real, trimmed: real, p: real, z: real, pz: real, q: real)
    requires n == lead * p && lead == trimmed * z && pz == z * p
    ensures n * q == trimmed * (pz * q)
  {
    assert n == trimmed * pz;
  }

  /** What parsing accepts keeps the value the literal spells, in the one form that
      denotes it. */
  lemma ParsedValue(s: string, l: Literal)
    requires |s| < LITERAL_LIMIT && Scan(s) == Some(l) && Parsed(s).Ok?
    ensures WellFormed(l) && Canonical(Parsed(s).value) && Denoted(Parsed(s).value) == Spelled(l)
  {
    ScanIsGrammar(s, l);
    var plus :| s == Spelling(l, plus);
    ParsedLiteral(l);
  }

  lemma ZeroMag(exp: int)
    ensures AllDigits("") && Mag("", exp) == 0.0
  {
    hide P10;
    NothingAdded(P10(exp));
  }

  lemma SameMag(a: string, b: string, exp: int)
    requires AllDigits(a) && AllDigits(b) && Lead(a) == Lead(b)
    ensures Mag(a, exp) == Mag(b, exp)
  {
  }

  lemma ParsedLiteral(l: Literal)
    requires WellFormed(l) && |l.intPart| + |l.frac| < LITERAL_LIMIT && LeadExp(l).Ok?
    ensures var d := DecimalOf(l, LeadExp(l).value); Canonical(d) && Denoted(d) == Spelled(l)
  {
    hide P10, NatOf, ExponentOf, Lead, Mag, Size, TrimLeft, TrimRight;
    var all := l.intPart + l.frac;
    var lead, power := TrimLeft(all), LeadPower(l, ExponentOf(l.exponent));
    SpelledLead(l);
    LeadingZerosCount(l);
    TrimmedLeft(all);
    TrimmedRight(lead);
    SameMag(TrimRight(lead), lead, power);
    if lead == "" {
      ZeroMag(power);
      ZeroMag(0);
    } else {
      SaturationHarmless(l);
    }
  }

  // ----- order -----

  function CompareText(a: string, b: string): int {
    if a == "" then (if b == "" then 0 else -1)
    else if b == "" then 1
    else if a[0] < b[0] then -1
    else if a[0] > b[0] then 1
    else CompareText(a[1..], b[1..])
  }

  function CompareInt(a: int, b: int): int {
    if a < b then -1 else if a > b then 1 else 0
  }

  ghost function CompareReal(a: real, b: real): int {
    if a < b then -1 else if a > b then 1 else 0
  }

  function SignOf(d: Decimal): int {
    if d.digits == "" then 0 else if d.neg then -1 else 1
  }

  /** The three-way comparison, by parts; `CmpIsNumeric` says what it comes to. */
  function Cmp(d: Decimal, e: Decimal): int {
    if SignOf(d) != SignOf(e) then CompareInt(SignOf(d), SignOf(e))
    else if d.digits == "" then 0
    else
      var order := if d.exp != e.exp then CompareInt(d.exp, e.exp) else CompareText(d.digits, e.digits);
      if d.neg then -order else order
  }

  // Digits ending in no zero compare as their fractions do.
  lemma {:induction false} TextOrder(a: string, b: string)
    requires AllDigits(a) && AllDigits(b)
    requires (a != "" ==> a[|a| - 1] != '0') && (b != "" ==> b[|b| - 1] != '0')
    ensures CompareText(a, b) == CompareReal(Lead(a), Lead(b))
    ensures CompareText(a, b) == 0 <==> a == b
  {
    LeadBounds(a);
    LeadBounds(b);
    if a != "" && b != "" {
      LeadBounds(a[1..]);
      LeadBounds(b[1..]);
      if a[0] == b[0] {
        TextOrder(a[1..], b[1..]);
        assert a == [a[0]] + a[1..] && b == [b[0]] + b[1..];
      }
    }
  }

  lemma ScaledOrder(x: real, y: real, p: real)
    requires p > 0.0
    ensures CompareReal(x * p, y * p) == CompareReal(x, y)
  {
    assert (x - y) * p == x * p - y * p;
    if x < y { assert (y - x) * p > 0.0; }
    if x > y { assert (x - y) * p > 0.0; }
  }

  lemma MagScaled(a: string, b: string, exp: int)
    requires AllDigits(a) && AllDigits(b)
    ensures CompareReal(Mag(a, exp), Mag(b, exp)) == CompareReal(Lead(a), Lead(b))
  {
    hide Lead, P10;
    P10Positive(exp);
    ScaledOrder(Lead(a), Lead(b), P10(exp));
  }

  // Of two magnitudes, the greater power of ten or, at one power, the later digits.
  lemma MagnitudeOrder(d: Decimal, e: Decimal)
    requires Canonical(d) && Canonical(e) && d.digits != "" && e.digits != ""
    ensures var order := if d.exp != e.exp then CompareInt(d.exp, e.exp) else CompareText(d.digits, e.digits);
      order == CompareReal(Mag(d.digits, d.exp), Mag(e.digits, e.exp))
  {
    hide Lead, P10, Mag;
    Magnitude(d.digits, d.exp);
    Magnitude(e.digits, e.exp);
    if d.exp < e.exp {
      P10Rises(d.exp + 1, e.exp);
    } else if d.exp > e.exp {
      P10Rises(e.exp + 1, d.exp);
    } else {
      TextOrder(d.digits, e.digits);
      MagScaled(d.digits, e.digits, d.exp);
    }
  }

  lemma SignShows(d: Decimal)
    requires Canonical(d)
    ensures SignOf(d) == CompareReal(Denoted(d), 0.0)
    ensures if d.digits == "" then Mag(d.digits, d.exp) == 0.0 else Mag(d.digits, d.exp) > 0.0
  {
    hide Lead, P10, Mag;
    if d.digits == "" {
      ZeroMag(d.exp);
    } else {
      Magnitude(d.digits, d.exp);
      P10Positive(d.exp);
    }
  }

  /** The order is exact: it is that of the values denoted. */
  lemma CmpIsNumeric(d: Decimal, e: Decimal)
    requires Canonical(d) && Canonical(e)
    ensures Cmp(d, e) == CompareReal(Denoted(d), Denoted(e))
  {
    hide Lead, P10, Mag, CompareText;
    SignShows(d);
    SignShows(e);
    if SignOf(d) == SignOf(e) && d.digits != "" {
      MagnitudeOrder(d, e);
    }
  }

  /** Two decimals are equal exactly when they denote one value. */
  lemma EqualIsValue(d: Decimal, e: Decimal)
    requires Canonical(d) && Canonical(e)
    ensures d == e <==> Denoted(d) == Denoted(e)
  {
    hide Lead, P10, Mag;
    CmpIsNumeric(d, e);
    if Cmp(d, e) == 0 && d.digits != "" {
      TextOrder(d.digits, e.digits);
    }
  }

  // ----- acceptance by value -----

  /** Text is refused for its range exactly when it spells a nonzero value below
      the least power of ten held or at or above the one past the greatest. */
  lemma RangeIsByValue(l: Literal)
    requires WellFormed(l) && |l.intPart| + |l.frac| < LITERAL_LIMIT
    ensures var v := Spelled(l); var size := if v < 0.0 then -v else v;
      && (LeadExp(l).Ok? <==> v == 0.0 || P10(-MAX_DECIMAL_EXP) <= size < P10(MAX_DECIMAL_EXP + 1))
      && (LeadExp(l).Err? ==> LeadExp(l).error == ExponentRange(v < 0.0, size < 1.0))
  {
    hide P10, NatOf, ExponentOf, Lead, Mag, Size, TrimLeft;
    var all := l.intPart + l.frac;
    var lead, power := TrimLeft(all), LeadPower(l, ExponentOf(l.exponent));
    SpelledLead(l);
    LeadingZerosCount(l);
    TrimmedLeft(all);
    if lead == "" {
      ZeroMag(power);
    } else {
      SaturationHarmless(l);
      Magnitude(lead, power);
      PowerWithin(power);
      P10Positive(power);
    }
  }

  // A power of ten is in range just when the next is above the least held and it
  // is below the one past the greatest.
  lemma PowerWithin(exp: int)
    ensures if exp < -MAX_DECIMAL_EXP then P10(exp + 1) <= P10(-MAX_DECIMAL_EXP) < 1.0 else P10(-MAX_DECIMAL_EXP) <= P10(exp)
    ensures if exp > MAX_DECIMAL_EXP then 1.0 < P10(MAX_DECIMAL_EXP + 1) <= P10(exp) else P10(exp + 1) <= P10(MAX_DECIMAL_EXP + 1)
  {
    hide P10;
    P10Zero();
    P10Positive(-MAX_DECIMAL_EXP);
    P10Positive(0);
    P10Rises(-MAX_DECIMAL_EXP, 0);
    P10Rises(0, MAX_DECIMAL_EXP + 1);
    if exp < -MAX_DECIMAL_EXP { P10Rises(exp + 1, -MAX_DECIMAL_EXP); } else { P10Rises(-MAX_DECIMAL_EXP, exp); }
    if exp > MAX_DECIMAL_EXP { P10Rises(MAX_DECIMAL_EXP + 1, exp); } else { P10Rises(exp + 1, MAX_DECIMAL_EXP + 1); }
  }

  /** How a number is spelled decides nothing: literals equal in value parse to equal
      results, refusals among them. */
  lemma ByValueAlone(s: string, l: Literal, t: string, m: Literal)
    requires |s| < LITERAL_LIMIT && |t| < LITERAL_LIMIT && Scan(s) == Some(l) && Scan(t) == Some(m)
    requires WellFormed(l) && WellFormed(m)
    ensures Spelled(l) == Spelled(m) ==> Parsed(s) == Parsed(t)
    ensures Parsed(s).Ok? && Parsed(s) == Parsed(t) ==> Spelled(l) == Spelled(m)
  {
    hide P10, Spelled, Denoted, WellFormed, Canonical, DecimalOf;
    Within(s, l);
    Within(t, m);
    RangeIsByValue(l);
    RangeIsByValue(m);
    if Parsed(s).Ok? && Parsed(t).Ok? {
      ParsedValue(s, l);
      ParsedValue(t, m);
      EqualIsValue(Parsed(s).value, Parsed(t).value);
    }
  }

  lemma Within(s: string, l: Literal)
    requires Scan(s) == Some(l)
    ensures WellFormed(l) && |l.intPart| + |l.frac| <= |s|
  {
    ScanIsGrammar(s, l);
    var plus :| s == Spelling(l, plus);
  }

  // ----- literals, as they are written -----

  /** A literal written out: a sign or none, digits that a point may follow or split, and
      an exponent or none, itself with a sign or none. */
  function Written(sign: string, a: string, point: bool, f: string, letter: string, expSign: string, d: string): string {
    sign + a + (if point then "." + f else "") + letter + expSign + d
  }

  predicate MayWrite(sign: string, a: string, point: bool, f: string, letter: string, expSign: string, d: string) {
    && AllDigits(a) && AllDigits(f) && AllDigits(d) && (a != "" || f != "") && (f != "" ==> point)
    && (sign == "" || sign == "+" || sign == "-") && MayPower(letter, expSign, d)
  }

  predicate MayPower(letter: string, expSign: string, d: string) {
    && AllDigits(d)
    && (if letter == "" then expSign == "" && d == ""
        else (letter == "e" || letter == "E") && d != "" && (expSign == "" || expSign == "+" || expSign == "-"))
  }

  /** What is written is read as such: the number of its digits, at the power of ten its
      exponent gives less one for each digit past the point; negative after "-" alone. */
  lemma ReadsAsWritten(sign: string, a: string, point: bool, f: string, letter: string, expSign: string, d: string)
    requires MayWrite(sign, a, point, f, letter, expSign, d)
    ensures var s, l := Written(sign, a, point, f, letter, expSign, d), Literal(sign == "-", a, f, letter + expSign + d, point);
      && Scan(s) == Some(l) && WellFormed(l) && AllDigits(a + f)
      && Spelled(l) == (if sign == "-" then -1.0 else 1.0) * NatOf(a + f) as real
                       * P10((if expSign == "-" then 0 - NatOf(d) else NatOf(d)) - |f|)
  {
    hide P10, NatOf, Scan, IsExponent, ExponentOf, Written, Spelling, AllDigits, Spelled;
    var s, l := Written(sign, a, point, f, letter, expSign, d), Literal(sign == "-", a, f, letter + expSign + d, point);
    ExponentWritten(letter, expSign, d);
    WrittenSpells(sign, a, point, f, letter, expSign, d);
    assert WellFormed(l);
    hide WellFormed, MayWrite;
    ScanIsGrammar(s, l);
    SpelledAsWritten(l, if expSign == "-" then 0 - NatOf(d) else NatOf(d));
  }

  lemma SpelledAsWritten(l: Literal, e: int)
    requires WellFormed(l) && ExponentOf(l.exponent) == e
    ensures AllDigits(l.intPart + l.frac)
    ensures Spelled(l) == (if l.neg then -1.0 else 1.0) * NatOf(l.intPart + l.frac) as real * P10(e - |l.frac|)
  {
    hide P10, NatOf, ExponentOf, IsExponent;
  }

  lemma WrittenSpells(sign: string, a: string, point: bool, f: string, letter: string, expSign: string, d: string)
    requires MayWrite(sign, a, point, f, letter, expSign, d)
    ensures Written(sign, a, point, f, letter, expSign, d)
         == Spelling(Literal(sign == "-", a, f, letter + expSign + d, point), sign == "+")
  {
    hide AllDigits;
    var rest := if point then "." + f else "";
    assert sign + a + rest + letter + expSign + d == sign + (a + rest + (letter + expSign + d));
  }

  lemma ExponentWritten(letter: string, expSign: string, d: string)
    requires MayPower(letter, expSign, d)
    ensures var e := letter + expSign + d;
      IsExponent(e) && ExponentOf(e) == if expSign == "-" then 0 - NatOf(d) else NatOf(d)
  {
    var e := letter + expSign + d;
    if letter != "" {
      if expSign == "" {
        assert e[1..] == d && d[0] != '-' && d[0] != '+';
      } else {
        assert e[2..] == d && e[1] == expSign[0];
      }
    }
  }

  // No letter of an exponent is before its first.
  lemma OneLetter(s: string, l: Literal, body: string, tail: string, c: char)
    requires WellFormed(l) && (exists plus :: s == Spelling(l, plus)) && s == body + [c] + tail
    requires (c == 'e' || c == 'E') && forall i :: 0 <= i < |tail| ==> IsDigit(tail[i]) || IsSign(tail[i])
    ensures l.exponent == [c] + tail && exists plus :: body == Spelling(l.(exponent := ""), plus)
  {
    var plus :| s == Spelling(l, plus);
    var front := Spelling(l.(exponent := ""), plus);
    FrontHasNone(l, plus);
    ExponentHasOne(l.exponent);
    hide Spelling, WellFormed, IsExponent, AllDigits;
    OneCut(front, l.exponent, body, [c] + tail);
  }

  predicate IsLetter(c: char) {
    c == 'e' || c == 'E'
  }

  lemma FrontHasNone(l: Literal, plus: bool)
    requires WellFormed(l)
    ensures var front := Spelling(l.(exponent := ""), plus);
      Spelling(l, plus) == front + l.exponent && forall i :: 0 <= i < |front| ==> !IsLetter(front[i])
  {
    var sign, body, rest := Sign(l, plus), l.intPart + Fraction(l), l.exponent;
    assert body + "" == body;
    assert sign + (body + rest) == (sign + body) + rest;
    forall i | 0 <= i < |sign + body| ensures !IsLetter((sign + body)[i]) {
      assert i >= |sign| ==> (sign + body)[i] == body[i - |sign|];
    }
  }

  lemma ExponentHasOne(e: string)
    requires IsExponent(e)
    ensures e != "" ==> IsLetter(e[0]) && forall i :: 0 < i < |e| ==> !IsLetter(e[i])
  {
    if e != "" {
      forall i | 0 < i < |e| ensures !IsLetter(e[i]) {
        if AllDigits(e[1..]) {
          assert e[i] == e[1..][i - 1];
        } else {
          assert i > 1 ==> e[i] == e[2..][i - 2];
        }
      }
    }
  }

  // A letter in neither front cuts a string in one place.
  lemma OneCut(a: string, x: string, b: string, y: string)
    requires a + x == b + y && (forall i :: 0 <= i < |a| ==> !IsLetter(a[i]))
    requires x == "" || (IsLetter(x[0]) && forall i :: 0 < i < |x| ==> !IsLetter(x[i]))
    requires y != "" && IsLetter(y[0])
    ensures a == b && x == y
  {
    var s := a + x;
    assert s[|b|] == y[0];
    assert forall i :: 0 <= i < |a| ==> s[i] == a[i];
    assert |a| <= |b|;
    assert s[|b|] == x[|b| - |a|];
    assert |a| == |b|;
    assert a == s[..|a|] && b == s[..|b|] && x == s[|a|..] && y == s[|b|..];
  }

  lemma FrontThen(l: Literal, e: string, plus: bool)
    requires l.exponent == ""
    ensures Spelling(l.(exponent := e), plus) == Spelling(l, plus) + e
  {
    var sign, body := Sign(l, plus), l.intPart + Fraction(l);
    assert body + "" == body && sign + (body + e) == (sign + body) + e;
  }

  /** A plus sign before an exponent says nothing: with it and without, whatever stands
      before, the same is read. */
  lemma PlusSaysNothing(body: string, c: char, d: string)
    requires (c == 'e' || c == 'E') && AllDigits(d) && d != "" && |body| + |d| + 2 < LITERAL_LIMIT
    ensures Parsed(body + [c] + "+" + d) == Parsed(body + [c] + d)
  {
    hide P10, Spelled;
    var s, t := body + [c] + "+" + d, body + [c] + d;
    assert s == body + [c] + ("+" + d);
    if Scan(s).Some? {
      var l := Scan(s).value;
      ScanIsGrammar(s, l);
      OneLetter(s, l, body, "+" + d, c);
      SameRead(body, c, d, l.(exponent := ""));
    } else if Scan(t).Some? {
      var l := Scan(t).value;
      ScanIsGrammar(t, l);
      OneLetter(t, l, body, d, c);
      SameRead(body, c, d, l.(exponent := ""));
    }
  }

  // body with an exponent spelled out after it, read where body is read without.
  lemma PowerAfter(body: string, l: Literal, c: char, expSign: string, d: string)
    requires WellFormed(l) && l.exponent == "" && (exists plus :: body == Spelling(l, plus)) && MayPower([c], expSign, d)
    ensures var s, m := body + ([c] + expSign + d), l.(exponent := [c] + expSign + d);
      Scan(s) == Some(m) && WellFormed(m) && ExponentOf(m.exponent) == if expSign == "-" then 0 - NatOf(d) else NatOf(d)
  {
    hide NatOf, Scan, ExponentOf, Spelling;
    var m := l.(exponent := [c] + expSign + d);
    var plus :| body == Spelling(l, plus);
    ExponentWritten([c], expSign, d);
    FrontThen(l, [c] + expSign + d, plus);
    assert Spells(body + ([c] + expSign + d), m);
    ScanIsGrammar(body + ([c] + expSign + d), m);
  }

  lemma SameRead(body: string, c: char, d: string, l: Literal)
    requires (c == 'e' || c == 'E') && AllDigits(d) && d != "" && |body| + |d| + 2 < LITERAL_LIMIT
    requires WellFormed(l) && l.exponent == "" && exists plus :: body == Spelling(l, plus)
    ensures Parsed(body + [c] + "+" + d) == Parsed(body + [c] + d)
    ensures Scan(body + [c] + "+" + d).Some? && Scan(body + [c] + d).Some?
  {
    hide P10, NatOf, Scan, ExponentOf, Parsed, Spelling, WellFormed, AllDigits, Spelled;
    var s, t := body + [c] + "+" + d, body + [c] + d;
    var p, m := l.(exponent := [c] + "+" + d), l.(exponent := [c] + "" + d);
    assert body + ([c] + "+" + d) == s && body + ([c] + "" + d) == t;
    PowerAfter(body, l, c, "+", d);
    PowerAfter(body, l, c, "", d);
    SpelledAsWritten(p, NatOf(d));
    SpelledAsWritten(m, NatOf(d));
    ByValueAlone(s, p, t, m);
  }
}
