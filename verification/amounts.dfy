/** Decoding the amount line of a transaction block (utils.py, `extract_transactions`):
    the regex `([−\-+]?\s?[\d\s,]+)\s₸`, the chain of `replace` calls that normalises the
    captured text, Python's `float()` on the result, and the sign rule. Amounts are exact
    reals, not binary floating point. */
module Amounts {
  import opened Wrappers
  import opened Text

  const MinusSign: char := '\U{2212}'   // "−"
  const EnDash: char := '\U{2013}'      // "–"
  const Tenge: char := '\U{20B8}'       // "₸"

  /** The sign class `[−\-+]`; the en dash is not in it. */
  predicate IsSign(c: char) {
    c == MinusSign || c == '-' || c == '+'
  }

  predicate IsNegativeSign(c: char) {
    c == MinusSign || c == '-'
  }

  /** The class `[\d\s,]`. */
  predicate InAmountClass(c: char) {
    IsDigit(c) || IsSpace(c) || c == ','
  }

  /** 1 when `line` starts with a sign, else 0. */
  function SignLength(line: string): (j: nat)
    ensures j <= |line|
  {
    if |line| > 0 && IsSign(line[0]) then 1 else 0
  }

  /** The regex matches at the start of `line` with a group of length `len`: an optional
      sign, then at least one character of the class, then whitespace and the tenge sign.
      The optional `\s?` adds nothing, since whitespace is in the class. */
  predicate AmountShape(line: string, len: nat) {
    && SignLength(line) < len && len + 1 < |line|
    && (forall i :: SignLength(line) <= i < len ==> InAmountClass(line[i]))
    && IsSpace(line[len]) && line[len + 1] == Tenge
  }

  /** Length of the run of class characters starting at index `j`. */
  function ClassRun(line: string, j: nat): (n: nat)
    requires j <= |line|
    ensures j + n <= |line|
    ensures forall i :: j <= i < j + n ==> InAmountClass(line[i])
    ensures j + n < |line| ==> !InAmountClass(line[j + n])
    decreases |line| - j
  {
    if j < |line| && InAmountClass(line[j]) then 1 + ClassRun(line, j + 1) else 0
  }

  /** Group 1 of `re.match(r"([−\-+]?\s?[\d\s,]+)\s₸", line)`. The greedy class run can
      only give back its last character, which must be the `\s` before the tenge sign,
      so there is at most one way to match. */
  function AmountGroup(line: string): (r: Option<string>)
    ensures r.Some? ==> AmountShape(line, |r.value|) && r.value == line[..|r.value|]
    ensures r.None? ==> forall len: nat :: !AmountShape(line, len)
  {
    var j := SignLength(line);
    var n := ClassRun(line, j);
    var e := j + n;
    if n >= 2 && IsSpace(line[e - 1]) && e < |line| && line[e] == Tenge then
      Some(line[..e - 1])
    else
      assert forall len: nat :: !AmountShape(line, len) by {
        forall len: nat | AmountShape(line, len) ensures false {
        }
      }
      None
  }

  /** The `replace` chain on one character: "−" and "–" become "-", "+" and " " are
      dropped, "," becomes ".". No replacement produces a character a later one
      rewrites, so the chain acts character by character. */
  function CleanChar(c: char): string {
    if c == MinusSign || c == EnDash then "-"
    else if c == '+' || c == ' ' then ""
    else if c == ',' then "."
    else [c]
  }

  function CleanAmount(raw: string): string {
    if raw == [] then [] else CleanChar(raw[0]) + CleanAmount(raw[1..])
  }

  /** The number written by a string of decimal digits. */
  function Num(s: string): nat
    requires AllDigits(s)
  {
    if s == [] then 0 else 10 * Num(s[..|s| - 1]) + ((s[|s| - 1] as int) - ('0' as int))
  }

  function Pow10(n: nat): (p: nat)
    ensures p >= 1
  {
    if n == 0 then 1 else 10 * Pow10(n - 1)
  }

  /** A string of `n` decimal digits writes a number below `10^n`. */
  lemma {:induction false} NumBelowPow10(s: string)
    requires AllDigits(s)
    ensures Num(s) < Pow10(|s|)
    decreases |s|
  {
    if s != [] {
      var t := s[..|s| - 1];
      assert AllDigits(t) by { assert forall i :: 0 <= i < |t| ==> t[i] == s[i]; }
      NumBelowPow10(t);
    }
  }

  /** Length of the run of digits at the start of `s`. */
  function DigitRun(s: string): (k: nat)
    ensures k <= |s| && AllDigits(s[..k])
    ensures k < |s| ==> !IsDigit(s[k])
  {
    if |s| > 0 && IsDigit(s[0]) then
      var k' := DigitRun(s[1..]);
      assert s[..k' + 1] == [s[0]] + s[1..][..k'];
      k' + 1
    else 0
  }

  /** The value of the decimal `whole.frac` whose fraction has `scale` digits. */
  function Decimal(whole: nat, frac: nat, scale: nat): (v: real)
    ensures v >= 0.0
  {
    whole as real + (frac as real) / (Pow10(scale) as real)
  }

  /** The digits after the point only ever add a fraction below one to the whole part. */
  lemma DecimalFraction(whole: nat, fraction: string)
    requires AllDigits(fraction)
    ensures whole as real <= Decimal(whole, Num(fraction), |fraction|) < whole as real + 1.0
  {
    NumBelowPow10(fraction);
    QuotientBelowOne(Num(fraction) as real, Pow10(|fraction|) as real);
  }

  lemma QuotientBelowOne(x: real, q: real)
    requires 0.0 <= x < q
    ensures 0.0 <= x / q < 1.0
  {
    assert x / q * q == x;
  }

  /** An unsigned decimal literal `digits[.digits]` or `.digits`, at least one digit. */
  function DecimalLiteral(s: string): (r: Option<real>)
    ensures r.Some? ==> r.value >= 0.0
  {
    var k := DigitRun(s);
    if k == |s| then
      if k > 0 then Some(Num(s) as real) else None
    else if s[k] != '.' then None
    else
      var frac := s[k + 1..];
      if AllDigits(frac) && (k > 0 || frac != []) then
        Some(Decimal(Num(s[..k]), Num(frac), |frac|))
      else None
  }

  /** Python's `float(s)` on the strings `CleanAmount` can produce: surrounding
      whitespace is ignored, then an optional sign and a decimal literal. */
  function ParseFloat(s: string): (r: Option<real>)
  {
    var t := Strip(s);
    if |t| > 0 && (t[0] == '-' || t[0] == '+') then
      match DecimalLiteral(t[1..])
      case None => None
      case Some(v) => Some(if t[0] == '-' then -v else v)
    else DecimalLiteral(t)
  }

  function Abs(x: real): real {
    if x < 0.0 then -x else x
  }

  /** `float(clean_amount)` and the sign rule: `-abs(amount)` when the captured text
      contains "-", else `amount`. `None` stands for the `ValueError` of `float`. */
  function SignedAmount(raw: string): Option<real> {
    match ParseFloat(CleanAmount(raw))
    case None => None
    case Some(v) => Some(if '-' in raw then -Abs(v) else v)
  }

  /** The amount of an amount line, or `None` when the line does not match or its number
      does not parse. */
  function DecodeAmount(line: string): Option<real> {
    match AmountGroup(line)
    case None => None
    case Some(raw) => SignedAmount(raw)
  }

  /** The en dash is not a sign the regex accepts, so its `replace` never applies to a
      sign: a line that starts with it decodes to nothing. */
  lemma EnDashRejected(line: string)
    requires |line| > 0 && line[0] == EnDash
    ensures DecodeAmount(line) == None
  {
    assert SignLength(line) == 0;
    assert !InAmountClass(line[0]);
  }

  /** Characters outside "−", "-", "+" are never turned into a minus. */
  lemma {:induction false} CleanAmountNoMinus(raw: string)
    requires MinusSign !in raw && '-' !in raw && EnDash !in raw
    ensures '-' !in CleanAmount(raw)
  {
    if raw != [] {
      assert raw[0] in raw && raw[1..] <= raw[1..];
      assert forall c :: c in raw[1..] ==> c in raw;
      CleanAmountNoMinus(raw[1..]);
    }
  }

  /** The number of points after cleaning is the number of commas and points before. */
  function Count(s: string, c: char): nat {
    if s == [] then 0 else (if s[0] == c then 1 else 0) + Count(s[1..], c)
  }

  lemma {:induction false} CountAppend(a: string, b: string, c: char)
    ensures Count(a + b, c) == Count(a, c) + Count(b, c)
  {
    if a == [] {
      assert a + b == b;
    } else {
      assert (a + b)[0] == a[0];
      assert (a + b)[1..] == a[1..] + b;
      CountAppend(a[1..], b, c);
    }
  }

  lemma {:induction false} CleanCountsPoints(raw: string)
    ensures Count(CleanAmount(raw), '.') == Count(raw, ',') + Count(raw, '.')
  {
    if raw != [] {
      CountAppend(CleanChar(raw[0]), CleanAmount(raw[1..]), '.');
      CleanCountsPoints(raw[1..]);
    }
  }

  lemma {:induction false} AllDigitsNoPoint(s: string)
    requires AllDigits(s)
    ensures Count(s, '.') == 0
  {
    if s != [] {
      AllDigitsNoPoint(s[1..]);
    }
  }

  /** A decimal literal has at most one point. */
  lemma DecimalLiteralOnePoint(s: string)
    requires DecimalLiteral(s).Some?
    ensures Count(s, '.') <= 1
  {
    var k := DigitRun(s);
    assert s == s[..k] + s[k..];
    CountAppend(s[..k], s[k..], '.');
    AllDigitsNoPoint(s[..k]);
    if k < |s| {
      assert s[k..] == [s[k]] + s[k + 1..];
      AllDigitsNoPoint(s[k + 1..]);
    }
  }

  lemma {:induction false} AllSpaceNoPoint(s: string)
    requires AllSpace(s)
    ensures Count(s, '.') == 0
  {
    if s != [] {
      AllSpaceNoPoint(s[1..]);
    }
  }

  /** Stripping keeps every point. */
  lemma StripCountsPoints(s: string)
    ensures Count(Strip(s), '.') == Count(s, '.')
  {
    var lo := LeadingSpace(s);
    var t := Strip(s);
    assert s == s[..lo] + t + s[lo + |t|..];
    CountAppend(s[..lo] + t, s[lo + |t|..], '.');
    CountAppend(s[..lo], t, '.');
    AllSpaceNoPoint(s[..lo]);
    AllSpaceNoPoint(s[lo + |t|..]);
  }

  /** Whatever `float` accepts has at most one point once stripped. */
  lemma ParseFloatOnePoint(s: string)
    requires ParseFloat(s).Some?
    ensures Count(Strip(s), '.') <= 1
  {
    var t := Strip(s);
    if |t| > 0 && (t[0] == '-' || t[0] == '+') {
      DecimalLiteralOnePoint(t[1..]);
      assert t == [t[0]] + t[1..];
    } else {
      DecimalLiteralOnePoint(t);
    }
  }

  /** A number written with two or more decimal commas fails to parse. */
  lemma TwoCommasRejected(raw: string)
    requires Count(raw, ',') >= 2
    ensures SignedAmount(raw) == None
  {
    var clean := CleanAmount(raw);
    CleanCountsPoints(raw);
    StripCountsPoints(clean);
    if ParseFloat(clean).Some? {
      ParseFloatOnePoint(clean);
    }
  }

  /** After its optional sign, the captured text holds neither a sign nor an en dash. */
  lemma GroupUnsigned(line: string)
    requires AmountGroup(line).Some?
    ensures var raw := AmountGroup(line).value;
      && SignLength(line) <= |raw|
      && (SignLength(line) == 1 ==> raw == [line[0]] + raw[1..])
      && (SignLength(line) == 0 ==> |line| == 0 || !IsSign(line[0]))
      && forall c :: c in raw[SignLength(line)..] ==> !IsSign(c) && c != EnDash
  {
    var raw := AmountGroup(line).value;
    var j := SignLength(line);
    forall c | c in raw[j..] ensures !IsSign(c) && c != EnDash {
      var i :| 0 <= i < |raw[j..]| && raw[j..][i] == c;
      assert c == line[j + i] && InAmountClass(line[j + i]);
    }
  }

  /** A decoded amount is never positive after "−" or "-", and never negative otherwise. */
  lemma DecodedSign(line: string)
    requires DecodeAmount(line).Some?
    ensures |line| > 0 && IsNegativeSign(line[0]) ==> DecodeAmount(line).value <= 0.0
    ensures !(|line| > 0 && IsNegativeSign(line[0])) ==> DecodeAmount(line).value >= 0.0
  {
    var raw := AmountGroup(line).value;
    assert DecodeAmount(line) == SignedAmount(raw);
    GroupUnsigned(line);
    var rest := raw[SignLength(line)..];
    if |line| > 0 && line[0] == MinusSign {
      assert raw == [MinusSign] + rest;
      SignedAfterMinusSign(rest);
    } else if |line| > 0 && line[0] == '-' {
      assert raw[0] == '-';
      assert '-' in raw;
    } else {
      assert forall c :: c in raw ==> c != MinusSign && c != '-' && c != EnDash by {
        if SignLength(line) == 1 {
          assert raw == [line[0]] + rest;
        } else {
          assert raw == rest;
        }
      }
      SignedNoMinus(raw);
    }
  }

  /** The amount of "−" followed by unsigned text is never positive. */
  lemma SignedAfterMinusSign(rest: string)
    requires forall c :: c in rest ==> !IsSign(c) && c != EnDash
    requires SignedAmount([MinusSign] + rest).Some?
    ensures SignedAmount([MinusSign] + rest).value <= 0.0
  {
    var raw := [MinusSign] + rest;
    assert raw[1..] == rest;
    assert '-' !in raw;
    CleanAmountNoMinus(rest);
    assert CleanAmount(raw) == "-" + CleanAmount(rest);
    ParseFloatNegative(CleanAmount(rest));
  }

  /** The amount of text without "−", "-" or "–" is never negative. */
  lemma SignedNoMinus(raw: string)
    requires forall c :: c in raw ==> c != MinusSign && c != '-' && c != EnDash
    requires SignedAmount(raw).Some?
    ensures SignedAmount(raw).value >= 0.0
  {
    CleanAmountNoMinus(raw);
    ParseFloatNoMinus(CleanAmount(raw));
  }

  /** `float` of "-" followed by text without a minus is never positive. */
  lemma ParseFloatNegative(s: string)
    requires '-' !in s
    requires ParseFloat("-" + s).Some?
    ensures ParseFloat("-" + s).value <= 0.0
  {
    assert LeadingSpace("-" + s) == 0;
  }

  /** `float` of text without a minus is never negative. */
  lemma ParseFloatNoMinus(s: string)
    requires '-' !in s
    requires ParseFloat(s).Some?
    ensures ParseFloat(s).value >= 0.0
  {
    var t := Strip(s);
    if |t| > 0 {
      assert t[0] == s[LeadingSpace(s)];
    }
  }

  /** Digits and spaces: a whole part as statements show it, with thousands groups. */
  predicate DigitsAndSpaces(s: string) {
    forall i :: 0 <= i < |s| ==> IsDigit(s[i]) || s[i] == ' '
  }

  /** `s` with its ASCII spaces removed. */
  function RemoveSpaces(s: string): (r: string)
    ensures DigitsAndSpaces(s) ==> AllDigits(r)
  {
    if s == [] then [] else (if s[0] == ' ' then "" else [s[0]]) + RemoveSpaces(s[1..])
  }

  lemma {:induction false} CleanAmountAppend(a: string, b: string)
    ensures CleanAmount(a + b) == CleanAmount(a) + CleanAmount(b)
  {
    if a == [] {
      assert a + b == b;
    } else {
      assert (a + b)[0] == a[0] && (a + b)[1..] == a[1..] + b;
      CleanAmountAppend(a[1..], b);
    }
  }

  /** On digits and spaces, cleaning only removes the spaces. */
  lemma {:induction false} CleanWholePart(s: string)
    requires DigitsAndSpaces(s)
    ensures CleanAmount(s) == RemoveSpaces(s) && AllDigits(RemoveSpaces(s))
    ensures (exists i :: 0 <= i < |s| && IsDigit(s[i])) ==> RemoveSpaces(s) != []
  {
    CleanSpaced(s);
    if exists i :: 0 <= i < |s| && IsDigit(s[i]) {
      var i :| 0 <= i < |s| && IsDigit(s[i]);
      RemoveSpacesKeepsDigit(s, i);
    }
  }

  lemma {:induction false} CleanSpaced(s: string)
    requires DigitsAndSpaces(s)
    ensures CleanAmount(s) == RemoveSpaces(s)
  {
    if s != [] {
      CleanSpaced(s[1..]);
    }
  }

  lemma {:induction false} RemoveSpacesKeepsDigit(s: string, i: nat)
    requires i < |s| && IsDigit(s[i])
    ensures RemoveSpaces(s) != []
  {
    if i > 0 {
      assert s[1..][i - 1] == s[i];
      RemoveSpacesKeepsDigit(s[1..], i - 1);
    }
  }

  /** The digit run of digits followed by a non-digit, or by nothing, is those digits. */
  lemma {:induction false} DigitRunOfDigits(d: string, rest: string)
    requires AllDigits(d)
    requires rest == [] || !IsDigit(rest[0])
    ensures DigitRun(d + rest) == |d|
  {
    if d == [] {
      assert d + rest == rest;
    } else {
      assert (d + rest)[1..] == d[1..] + rest;
      DigitRunOfDigits(d[1..], rest);
    }
  }

  /** The value of a decimal literal without a point. */
  lemma DecimalLiteralWhole(whole: string)
    requires whole != [] && AllDigits(whole)
    ensures DecimalLiteral(whole) == Some(Num(whole) as real)
  {
    DigitRunOfDigits(whole, "");
    assert whole + "" == whole;
  }

  /** The value of a decimal literal `whole.frac`. */
  lemma DecimalLiteralPoint(whole: string, frac: string)
    requires whole != [] && AllDigits(whole) && AllDigits(frac)
    ensures DecimalLiteral(whole + "." + frac)
      == Some(Decimal(Num(whole), Num(frac), |frac|))
  {
    var s := whole + "." + frac;
    assert s == whole + ("." + frac);
    DigitRunOfDigits(whole, "." + frac);
    var k := DigitRun(s);
    assert k == |whole|;
    assert s[k] == '.';
    assert s[..k] == whole;
    assert s[k + 1..] == frac;
  }

  /** The sign a statement may show before an amount. */
  predicate PrintedSign(sign: string) {
    sign == "" || sign == [MinusSign] || sign == "-" || sign == "+"
  }

  /** A whole part as printed: digits with spaces between thousands groups. */
  predicate PrintedWhole(whole: string) {
    DigitsAndSpaces(whole) && exists i :: 0 <= i < |whole| && IsDigit(whole[i])
  }

  /** The decimal comma and the fraction digits, or nothing. */
  function FractionText(frac: string): string {
    if frac == [] then "" else "," + frac
  }

  /** The regex captures everything before the space and the tenge sign. */
  lemma {:induction false} AmountGroupOfPrinted(sign: string, whole: string, frac: string)
    requires PrintedSign(sign) && PrintedWhole(whole) && AllDigits(frac)
    ensures AmountGroup(sign + whole + FractionText(frac) + " " + [Tenge])
      == Some(sign + whole + FractionText(frac))
  {
    var tail := FractionText(frac);
    var raw := sign + whole + tail;
    var line := raw + " " + [Tenge];
    assert SignLength(line) == |sign| by {
      if sign == "" {
        assert line[0] == whole[0];
      }
    }
    assert AmountShape(line, |raw|) by {
      forall i | |sign| <= i < |raw| ensures InAmountClass(line[i]) {
        if i < |sign| + |whole| {
          assert line[i] == whole[i - |sign|];
        } else {
          assert line[i] == tail[i - |sign| - |whole|];
        }
      }
      assert line[|raw|] == ' ' && line[|raw| + 1] == Tenge;
    }
    var g := AmountGroup(line);
    AmountShapeUnique(line, |g.value|, |raw|);
    assert line[..|raw|] == raw;
  }

  /** The text cleaning leaves of a printed sign. */
  function CleanSignText(sign: string): string {
    if sign == [MinusSign] || sign == "-" then "-" else ""
  }

  lemma CleanSign(sign: string)
    requires PrintedSign(sign)
    ensures CleanAmount(sign) == CleanSignText(sign)
  {
    if sign != "" {
      assert sign[1..] == [];
    }
  }

  lemma CleanFraction(frac: string)
    requires AllDigits(frac)
    ensures CleanAmount(FractionText(frac)) == (if frac == [] then "" else "." + frac)
  {
    if frac != [] {
      var tail := FractionText(frac);
      assert tail[0] == ',' && tail[1..] == frac;
      CleanDigits(frac);
    }
  }

  /** Cleaning a printed amount keeps a "-" for a minus sign, drops "+" and the spaces,
      and turns the comma into a point. */
  lemma {:induction false} CleanPrinted(sign: string, whole: string, frac: string)
    requires PrintedSign(sign) && PrintedWhole(whole) && AllDigits(frac)
    ensures CleanAmount(sign + whole + FractionText(frac))
      == CleanSignText(sign) + PlainDecimal(RemoveSpaces(whole), frac)
  {
    CleanThree(sign, whole, FractionText(frac));
    CleanSign(sign);
    CleanSpaced(whole);
    CleanFraction(frac);
  }

  /** Cleaning works piece by piece on a text of three pieces. */
  lemma CleanThree(x: string, y: string, z: string)
    ensures CleanAmount(x + y + z) == CleanAmount(x) + (CleanAmount(y) + CleanAmount(z))
  {
    CleanAmountAppend(x + y, z);
    CleanAmountAppend(x, y);
    ConcatAssoc(CleanAmount(x), CleanAmount(y), CleanAmount(z));
  }

  lemma ConcatAssoc(a: string, b: string, c: string)
    ensures a + b + c == a + (b + c)
  {
  }

  /** The cleaned text of a printed amount's number: digits, then a point and the
      fraction digits when there are any. */
  function PlainDecimal(d: string, frac: string): string {
    d + (if frac == [] then "" else "." + frac)
  }

  lemma {:induction false} PlainDecimalValue(d: string, frac: string)
    requires d != [] && AllDigits(d) && AllDigits(frac)
    ensures DecimalLiteral(PlainDecimal(d, frac)) == Some(Decimal(Num(d), Num(frac), |frac|))
    ensures |PlainDecimal(d, frac)| > 0 && IsDigit(PlainDecimal(d, frac)[0])
    ensures Trimmed(PlainDecimal(d, frac))
  {
    var body := PlainDecimal(d, frac);
    if frac == [] {
      assert body == d;
      DecimalLiteralWhole(d);
      assert body[|body| - 1] == d[|d| - 1];
    } else {
      assert body == d + "." + frac;
      DecimalLiteralPoint(d, frac);
      assert body[|body| - 1] == frac[|frac| - 1];
    }
    assert body[0] == d[0];
  }

  /** `float` of a cleaned printed amount: an optional "-" and a decimal literal with at
      least one whole digit. */
  lemma {:induction false} ParseFloatPrinted(sign: string, d: string, frac: string)
    requires d != [] && AllDigits(d) && AllDigits(frac)
    ensures ParseFloat(CleanSignText(sign) + PlainDecimal(d, frac))
      == Some(Signed(sign, Decimal(Num(d), Num(frac), |frac|)))
  {
    PlainDecimalValue(d, frac);
    ParseFloatSigned(sign, PlainDecimal(d, frac), Decimal(Num(d), Num(frac), |frac|));
  }

  /** `float` of the cleaned sign and a trimmed literal starting with a digit. */
  lemma ParseFloatSigned(sign: string, body: string, v: real)
    requires |body| > 0 && IsDigit(body[0]) && Trimmed(body)
    requires DecimalLiteral(body) == Some(v)
    ensures ParseFloat(CleanSignText(sign) + body) == Some(Signed(sign, v))
  {
    if CleanSignText(sign) == "-" {
      ParseFloatMinus(body);
    } else {
      assert "" + body == body;
      ParseFloatUnsigned(body);
    }
  }

  /** `float` of a trimmed text starting with a digit is its decimal literal. */
  lemma ParseFloatUnsigned(body: string)
    requires |body| > 0 && IsDigit(body[0]) && Trimmed(body)
    ensures ParseFloat(body) == DecimalLiteral(body)
  {
    StripTrimmed(body);
  }

  /** `float` of "-" and a trimmed text starting with a digit is the negated literal. */
  lemma ParseFloatMinus(body: string)
    requires |body| > 0 && IsDigit(body[0]) && Trimmed(body)
    ensures DecimalLiteral(body).Some? ==> ParseFloat("-" + body) == Some(-DecimalLiteral(body).value)
  {
    var clean := "-" + body;
    assert clean[|clean| - 1] == body[|body| - 1];
    StripTrimmed(clean);
    assert clean[1..] == body;
  }

  /** `m` with the printed sign applied. */
  function Signed(sign: string, m: real): real {
    if sign == [MinusSign] || sign == "-" then -m else m
  }

  /** Only a "-" sign puts a "-" into a printed amount. */
  lemma PrintedMinus(sign: string, whole: string, frac: string)
    requires PrintedSign(sign) && PrintedWhole(whole) && AllDigits(frac)
    ensures '-' in sign + whole + FractionText(frac) <==> sign == "-"
  {
    var raw := sign + whole + FractionText(frac);
    if sign != "-" {
      forall i | 0 <= i < |raw| ensures raw[i] != '-' {
        if i < |sign| {
          assert raw[i] == sign[i];
        } else if i < |sign| + |whole| {
          assert raw[i] == whole[i - |sign|];
        } else {
          assert raw[i] == FractionText(frac)[i - |sign| - |whole|];
        }
      }
    } else {
      assert raw[0] == '-';
    }
  }

  /** A printed amount decodes to its value: an optional sign ("−", "-" or "+"), a whole
      part of digits with spaces between thousands groups, a decimal comma and fraction
      digits when there are any, a space and the tenge sign. */
  lemma {:induction false} AmountRoundTrip(sign: string, whole: string, frac: string)
    requires PrintedSign(sign) && PrintedWhole(whole) && AllDigits(frac)
    ensures DecodeAmount(sign + whole + FractionText(frac) + " " + [Tenge])
      == Some(Signed(sign, Decimal(Num(RemoveSpaces(whole)), Num(frac), |frac|)))
  {
    var raw := sign + whole + FractionText(frac);
    AmountGroupOfPrinted(sign, whole, frac);
    CleanWholePart(whole);
    CleanPrinted(sign, whole, frac);
    ParseFloatPrinted(sign, RemoveSpaces(whole), frac);
    PrintedMinus(sign, whole, frac);
    SignRule(raw, sign, Decimal(Num(RemoveSpaces(whole)), Num(frac), |frac|));
  }

  /** The sign rule on a printed amount: `float` already gave the signed value, and
      `-abs` of it changes nothing. */
  lemma SignRule(raw: string, sign: string, m: real)
    requires m >= 0.0 && ParseFloat(CleanAmount(raw)) == Some(Signed(sign, m))
    requires '-' in raw <==> sign == "-"
    ensures SignedAmount(raw) == Some(Signed(sign, m))
  {
  }

  /** The regex can match in at most one way. */
  lemma AmountShapeUnique(line: string, a: nat, b: nat)
    requires AmountShape(line, a) && AmountShape(line, b)
    ensures a == b
  {
  }

  lemma {:induction false} CleanDigits(s: string)
    requires AllDigits(s)
    ensures CleanAmount(s) == s
  {
    if s != [] {
      CleanDigits(s[1..]);
      assert s == [s[0]] + s[1..];
    }
  }
}
