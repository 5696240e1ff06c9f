/**
 * The few string operations the backends rely on: Python's `str.lower()` for rule keys and
 * patient tags, and the decimal text accepted by Python's `int(str)` and `float(str)`.
 * Only the ASCII subset of each is modelled (see README, "Left out").
 */
module Text {
  import opened Basics

  // ---------------------------------------------------------------------------
  // Case folding
  // ---------------------------------------------------------------------------

  predicate IsUpper(c: char) {
    'A' <= c <= 'Z'
  }

  /** Lower-case one character: ASCII capitals move to their small letter, all else stays. */
  function LowerChar(c: char): (r: char)
    ensures !IsUpper(r)
    ensures IsUpper(c) ==> 'a' <= r <= 'z' && r as int - 'a' as int == c as int - 'A' as int
    ensures !IsUpper(c) ==> r == c
  {
    if IsUpper(c) then (c as int - 'A' as int + 'a' as int) as char else c
  }

  /** Python's `s.lower()`, restricted to ASCII letters. */
  function Lower(s: string): (r: string)
    ensures |r| == |s|
    ensures forall i :: 0 <= i < |r| ==> !IsUpper(r[i])
    ensures forall i :: 0 <= i < |s| && !IsUpper(s[i]) ==> r[i] == s[i]
    ensures forall i :: 0 <= i < |s| && IsUpper(s[i]) ==> r[i] as int == s[i] as int + 32
  {
    seq(|s|, i requires 0 <= i < |s| => LowerChar(s[i]))
  }

  /** A string already in lower case is left alone, so lowering twice is lowering once. */
  lemma LowerFixesLowerCase(s: string)
    requires forall i :: 0 <= i < |s| ==> !IsUpper(s[i])
    ensures Lower(s) == s
  {
  }

  lemma LowerIdempotent(s: string)
    ensures Lower(Lower(s)) == Lower(s)
  {
    LowerFixesLowerCase(Lower(s));
  }

  // ---------------------------------------------------------------------------
  // Whitespace
  // ---------------------------------------------------------------------------

  /** The ASCII characters Python's `int()` and `float()` strip from both ends. */
  predicate IsSpace(c: char) {
    c == ' ' || 9 <= c as int <= 13 || 28 <= c as int <= 31
  }

  function TrimLeft(s: string): (r: string)
    ensures |r| <= |s| && r == s[|s| - |r|..]
    ensures |r| == 0 || !IsSpace(r[0])
  {
    if |s| > 0 && IsSpace(s[0]) then TrimLeft(s[1..]) else s
  }

  function TrimRight(s: string): (r: string)
    ensures |r| <= |s| && r == s[..|r|]
    ensures |r| == 0 || !IsSpace(r[|r| - 1])
  {
    if |s| > 0 && IsSpace(s[|s| - 1]) then TrimRight(s[..|s| - 1]) else s
  }

  /** Python's `s.strip()` over the ASCII whitespace above. */
  function Strip(s: string): (r: string)
    ensures |r| <= |s|
    ensures |r| == 0 || (!IsSpace(r[0]) && !IsSpace(r[|r| - 1]))
  {
    var l := TrimLeft(s);
    var r := TrimRight(l);
    assert |r| == 0 || r[0] == l[0];
    r
  }

  /** Text that neither starts nor ends in whitespace is not changed by stripping. */
  lemma StripKeepsTrimmed(s: string)
    requires |s| > 0 && !IsSpace(s[0]) && !IsSpace(s[|s| - 1])
    ensures Strip(s) == s
  {
  }

  // ---------------------------------------------------------------------------
  // Decimal digits
  // ---------------------------------------------------------------------------

  predicate IsDigit(c: char) {
    '0' <= c <= '9'
  }

  predicate AllDigits(s: string) {
    forall i :: 0 <= i < |s| ==> IsDigit(s[i])
  }

  function DigitValue(c: char): (d: nat)
    requires IsDigit(c)
    ensures d < 10
  {
    c as int - '0' as int
  }

  function DigitChar(d: nat): (c: char)
    requires d < 10
    ensures IsDigit(c) && DigitValue(c) == d
  {
    ('0' as int + d) as char
  }

  /** The number a string of decimal digits denotes, most significant digit first. */
  function DigitsValue(s: string): nat
    requires AllDigits(s)
  {
    if |s| == 0 then 0 else DigitsValue(s[..|s| - 1]) * 10 + DigitValue(s[|s| - 1])
  }

  function Pow10(k: nat): (p: nat)
    ensures p >= 1
  {
    if k == 0 then 1 else 10 * Pow10(k - 1)
  }

  /** The canonical decimal rendering of a natural number (Python's `str(n)`). */
  function ShowNat(n: nat): (s: string)
    ensures |s| > 0 && AllDigits(s)
    ensures DigitsValue(s) == n
    ensures s[0] != '0' || n == 0
    decreases n
  {
    if n < 10 then [DigitChar(n)]
    else
      var prefix := ShowNat(n / 10);
      var s := prefix + [DigitChar(n % 10)];
      assert s[..|s| - 1] == prefix;
      s
  }

  /** The canonical decimal rendering of an integer (Python's `str(n)`). */
  function ShowInt(n: int): (s: string)
    ensures |s| > 0 && !IsSpace(s[0]) && !IsSpace(s[|s| - 1])
  {
    if n < 0 then "-" + ShowNat(-n) else ShowNat(n)
  }

  // ---------------------------------------------------------------------------
  // Parsing numbers
  // ---------------------------------------------------------------------------

  /** Splits an optional leading `+` or `-` off a string: (is negative, the rest). */
  function SplitSign(t: string): (r: (bool, string))
    ensures |r.1| <= |t|
    ensures r.0 ==> |t| > 0 && t[0] == '-'
  {
    if |t| > 0 && (t[0] == '+' || t[0] == '-') then (t[0] == '-', t[1..]) else (false, t)
  }

  /**
   * Python's `int(s)` on a string: surrounding whitespace, an optional sign, then one or more
   * decimal digits; anything else is refused (`ValueError`).
   */
  function ParseInt(s: string): (r: Option<int>)
    ensures r.Some? ==> |Strip(s)| > 0
    ensures r.Some? && r.value < 0 ==> Strip(s)[0] == '-'
  {
    var (neg, body) := SplitSign(Strip(s));
    if |body| > 0 && AllDigits(body) then
      Some(if neg then -(DigitsValue(body) as int) else DigitsValue(body))
    else None
  }

  /**
   * What `int()` accepts: after stripping and an optional sign, one or more decimal digits and
   * nothing else.
   */
  lemma ParseIntAccepts(s: string)
    ensures ParseInt(s).Some? <==> |SplitSign(Strip(s)).1| > 0 && AllDigits(SplitSign(Strip(s)).1)
  {
  }

  /** Every integer's own rendering reads back as that integer. */
  lemma ParseShowInt(n: int)
    ensures ParseInt(ShowInt(n)) == Some(n)
  {
    var s := ShowInt(n);
    StripKeepsTrimmed(s);
    if n < 0 {
      assert SplitSign(s) == (true, ShowNat(-n));
    } else {
      assert SplitSign(s) == (false, ShowNat(n));
    }
  }

  /** Position of the first `.` in `s`, or `|s|` when there is none. */
  function DotIndex(s: string): (k: nat)
    ensures k <= |s|
    ensures k < |s| ==> s[k] == '.'
    ensures forall i :: 0 <= i < k ==> s[i] != '.'
  {
    if |s| == 0 then 0
    else if s[0] == '.' then 0
    else 1 + DotIndex(s[1..])
  }

  /** The text before the first `.` (all of it when there is none). */
  function Whole(b: string): string {
    b[..DotIndex(b)]
  }

  /** The text after the first `.` (nothing when there is none). */
  function Fraction(b: string): string {
    if DotIndex(b) < |b| then b[DotIndex(b) + 1..] else ""
  }

  /**
   * Python's `float(s)` for plain decimal text: surrounding whitespace, an optional sign, digits
   * with at most one `.`, and at least one digit in all.
   */
  function ParseDecimal(s: string): (r: Option<real>)
    ensures r.Some? ==> |Strip(s)| > 0
    ensures r.Some? && r.value < 0.0 ==> Strip(s)[0] == '-'
  {
    var (neg, body) := SplitSign(Strip(s));
    var whole, frac := Whole(body), Fraction(body);
    if AllDigits(whole) && AllDigits(frac) && |whole| + |frac| > 0 then
      var magnitude := DigitsValue(whole) as real + FractionValue(frac);
      Some(if neg then -magnitude else magnitude)
    else None
  }

  /**
   * The text after the sign that `float()` reads as a plain decimal: digits and at most one `.`,
   * with at least one digit (so neither the empty text nor a lone `.`).
   */
  predicate DecimalBody(b: string) {
    && |b| > 0 && b != "."
    && (forall i :: 0 <= i < |b| ==> IsDigit(b[i]) || b[i] == '.')
    && (forall i, j :: 0 <= i < j < |b| && b[i] == '.' ==> b[j] != '.')
  }

  /** What `float()` accepts as plain decimal text: a decimal body after stripping and a sign. */
  lemma ParseDecimalAccepts(s: string)
    ensures ParseDecimal(s).Some? <==> DecimalBody(SplitSign(Strip(s)).1)
  {
    ParseDecimalSplits(s);
    DecimalBodyIsSplit(SplitSign(Strip(s)).1);
  }

  lemma ParseDecimalSplits(s: string)
    ensures var body := SplitSign(Strip(s)).1;
            ParseDecimal(s).Some? <==> AllDigits(Whole(body)) && AllDigits(Fraction(body)) && |Whole(body)| + |Fraction(body)| > 0
  {
  }

  lemma DecimalBodyIsSplit(b: string)
    ensures DecimalBody(b) <==> AllDigits(Whole(b)) && AllDigits(Fraction(b)) && |Whole(b)| + |Fraction(b)| > 0
  {
    if DecimalBody(b) {
      SplitOfDecimalBody(b);
    } else if AllDigits(Whole(b)) && AllDigits(Fraction(b)) && |Whole(b)| + |Fraction(b)| > 0 {
      DecimalBodyOfSplit(b);
    }
  }

  /** Digits on both sides of the first `.`, and at least one digit, make a decimal body. */
  lemma DecimalBodyOfSplit(b: string)
    requires AllDigits(Whole(b)) && AllDigits(Fraction(b)) && |Whole(b)| + |Fraction(b)| > 0
    ensures DecimalBody(b)
  {
    var k, frac := DotIndex(b), Fraction(b);
    forall i | 0 <= i < |b|
      ensures IsDigit(b[i]) || b[i] == '.'
    {
      if i < k {
        assert Whole(b)[i] == b[i];
      } else if i > k {
        assert frac[i - k - 1] == b[i];
      }
    }
    forall i, j | 0 <= i < j < |b| && b[i] == '.'
      ensures b[j] != '.'
    {
      assert frac[j - k - 1] == b[j];
    }
  }

  /** A decimal body has digits on both sides of its first `.`, and at least one digit. */
  lemma SplitOfDecimalBody(b: string)
    requires DecimalBody(b)
    ensures AllDigits(Whole(b)) && AllDigits(Fraction(b)) && |Whole(b)| + |Fraction(b)| > 0
  {
    var k, frac := DotIndex(b), Fraction(b);
    forall i | 0 <= i < k
      ensures IsDigit(Whole(b)[i])
    {
      assert Whole(b)[i] == b[i];
    }
    forall i | 0 <= i < |frac|
      ensures IsDigit(frac[i])
    {
      assert frac[i] == b[k + 1 + i];
      assert b[k] == '.';
    }
  }

  /** The value of the digits after the point: `d1 d2 ... dk` is `d1 d2 ... dk / 10^k`. */
  function FractionValue(frac: string): (f: real)
    requires AllDigits(frac)
    ensures 0.0 <= f
  {
    var n, p := DigitsValue(frac) as real, Pow10(|frac|) as real;
    assert 0.0 <= n / p by {
      assert 0.0 < p;
    }
    n / p
  }

  /** Text that `int()` accepts is accepted by `float()` with the same value. */
  lemma ParseDecimalExtendsParseInt(s: string)
    requires ParseInt(s).Some?
    ensures ParseDecimal(s) == Some(ParseInt(s).value as real)
  {
    var (neg, body) := SplitSign(Strip(s));
    assert DotIndex(body) == |body|;
    assert Whole(body) == body;
  }

  /** Surrounding whitespace is stripped before the digits are read. */
  lemma ParsePaddedFive()
    ensures ParseInt(" 5 ") == Some(5)
  {
    StripPaddedFive();
    ParseFive();
    ParseSeesStrippedText(" 5 ", "5");
  }

  /** `int()` of a string depends only on the string with its surrounding whitespace stripped. */
  lemma ParseSeesStrippedText(x: string, y: string)
    requires Strip(x) == Strip(y)
    ensures ParseInt(x) == ParseInt(y)
  {
  }

  lemma StripPaddedFive()
    ensures Strip(" 5 ") == "5"
  {
    TrimLeftPaddedFive();
    assert "5 "[..1] == "5";
  }

  lemma TrimLeftPaddedFive()
    ensures TrimLeft(" 5 ") == "5 "
  {
    var s := " 5 ";
    assert IsSpace(s[0]) && s[1..] == "5 ";
    assert !IsSpace("5 "[0]);
  }

  lemma ParseFive()
    ensures ParseInt("5") == Some(5)
  {
    assert Strip("5") == "5";
    assert SplitSign("5") == (false, "5");
    assert "5"[..0] == [];
  }

  /** A word is not an integer. */
  lemma ParseRefusesWord()
    ensures ParseInt("high") == None
  {
    ParseRefusesNonNumeral("high");
  }

  /** Trimmed text that starts with neither a sign nor a digit is refused. */
  lemma ParseRefusesNonNumeral(s: string)
    requires |s| > 0 && !IsSpace(s[0]) && !IsSpace(s[|s| - 1])
    requires !IsDigit(s[0]) && s[0] != '+' && s[0] != '-'
    ensures ParseInt(s) == None
  {
    StripKeepsTrimmed(s);
    assert SplitSign(s) == (false, s);
  }

  /** Text starting with a digit and ending in no whitespace is read without strip or sign. */
  lemma UnsignedText(s: string)
    requires |s| > 0 && IsDigit(s[0]) && !IsSpace(s[|s| - 1])
    ensures SplitSign(Strip(s)) == (false, s)
  {
    StripKeepsTrimmed(s);
  }

  /** Unsigned text with a character that is not a digit is no integer. */
  lemma ParseRefusesNonDigit(s: string, i: nat)
    requires |s| > 0 && IsDigit(s[0]) && !IsSpace(s[|s| - 1])
    requires i < |s| && !IsDigit(s[i])
    ensures ParseInt(s) == None
  {
    UnsignedText(s);
  }

  /** A numeral with a trailing letter is refused, as `int("12x")` raises. */
  lemma ParseRefusesTrailingJunk()
    ensures ParseInt("12x") == None
  {
    ParseRefusesNonDigit("12x", 2);
  }

  /** Unsigned text with two points is no decimal. */
  lemma ParseRefusesTwoPoints(s: string, i: nat, j: nat)
    requires |s| > 0 && IsDigit(s[0]) && !IsSpace(s[|s| - 1])
    requires i < j < |s| && s[i] == '.' && s[j] == '.'
    ensures ParseDecimal(s) == None
  {
    UnsignedText(s);
    ParseDecimalAccepts(s);
  }

  /** A second point is refused, as `float("1.2.3")` raises. */
  lemma ParseRefusesSecondPoint()
    ensures ParseDecimal("1.2.3") == None
  {
    ParseRefusesTwoPoints("1.2.3", 1, 3);
  }

  /** A run of `k` zeros. */
  function Zeros(k: nat): (z: string)
    ensures |z| == k && AllDigits(z)
  {
    seq(k, _ => '0')
  }

  /** Reading digits appended to digits: the prefix is shifted by the length of the suffix. */
  lemma {:induction false} DigitsValueAppend(a: string, b: string)
    requires AllDigits(a) && AllDigits(b)
    ensures DigitsValue(a + b) == DigitsValue(a) * Pow10(|b|) + DigitsValue(b)
    decreases |b|
  {
    var ab := a + b;
    if |b| == 0 {
      assert ab == a;
    } else {
      var b', d := b[..|b| - 1], DigitValue(b[|b| - 1]);
      assert ab[..|ab| - 1] == a + b';
      assert ab[|ab| - 1] == b[|b| - 1];
      DigitsValueAppend(a, b');
      ShiftDigit(DigitsValue(a), Pow10(|b'|), DigitsValue(b'), d);
    }
  }

  /** Appending digit `d` multiplies by ten and adds `d`, also for a prefix read as `x * p + y`. */
  lemma ShiftDigit(x: int, p: int, y: int, d: int)
    ensures (x * p + y) * 10 + d == x * (p * 10) + (y * 10 + d)
  {
  }

  lemma {:induction false} ZerosValue(k: nat)
    ensures DigitsValue(Zeros(k)) == 0
  {
    if k > 0 {
      assert Zeros(k)[..k - 1] == Zeros(k - 1);
      ZerosValue(k - 1);
    }
  }

  /**
   * `int()` reads any sign, any leading zeros and then a number's digits as that number, with
   * the sign applied: `int("007") == 7`, `int("+5") == 5`, `int("-0") == 0`.
   */
  lemma ParseSignedNumeral(sign: string, zeros: nat, n: nat)
    requires sign == "" || sign == "+" || sign == "-"
    ensures ParseInt(sign + (Zeros(zeros) + ShowNat(n))) == Some(if sign == "-" then -(n as int) else n as int)
  {
    var digits := Zeros(zeros) + ShowNat(n);
    PaddedValue(zeros, n);
    ParseSignedDigits(sign, digits);
  }

  /** Leading zeros do not change the value of a number's digits. */
  lemma PaddedValue(zeros: nat, n: nat)
    ensures |Zeros(zeros) + ShowNat(n)| > 0 && AllDigits(Zeros(zeros) + ShowNat(n))
    ensures DigitsValue(Zeros(zeros) + ShowNat(n)) == n
  {
    DigitsValueAppend(Zeros(zeros), ShowNat(n));
    ZerosValue(zeros);
  }

  /** A sign and one or more digits read as the digits' value with the sign applied. */
  lemma ParseSignedDigits(sign: string, digits: string)
    requires sign == "" || sign == "+" || sign == "-"
    requires |digits| > 0 && AllDigits(digits)
    ensures ParseInt(sign + digits) == Some(if sign == "-" then -(DigitsValue(digits) as int) else DigitsValue(digits) as int)
  {
    SignedTextOf(sign, digits);
    ParseSplitText(sign + digits, sign == "-", digits);
  }

  /** Text whose stripped, sign-split form is known reads as its digits, signed. */
  lemma ParseSplitText(s: string, neg: bool, digits: string)
    requires SplitSign(Strip(s)) == (neg, digits)
    requires |digits| > 0 && AllDigits(digits)
    ensures ParseInt(s) == Some(if neg then -(DigitsValue(digits) as int) else DigitsValue(digits) as int)
  {
  }

  lemma SignedTextOf(sign: string, digits: string)
    requires sign == "" || sign == "+" || sign == "-"
    requires |digits| > 0 && AllDigits(digits)
    ensures SplitSign(Strip(sign + digits)) == (sign == "-", digits)
  {
    if sign == "" {
      assert sign + digits == digits;
      UnsignedText(digits);
    } else {
      assert sign == [sign[0]];
      SignedText(sign[0], digits);
    }
  }

  /** Stripping leaves a sign followed by digits alone, and the sign split takes the sign off. */
  lemma SignedText(c: char, digits: string)
    requires c == '+' || c == '-'
    requires |digits| > 0 && AllDigits(digits)
    ensures SplitSign(Strip([c] + digits)) == (c == '-', digits)
  {
    var s := [c] + digits;
    assert s[|s| - 1] == digits[|digits| - 1];
    StripKeepsTrimmed(s);
    assert s[1..] == digits;
  }

  /**
   * `float()` of whole digits, a point and fraction digits is the whole plus the fraction
   * digits over 10^k, k being how many there are: `float("12.05") == 12 + 5/100`.
   */
  lemma ParseDecimalReadsPoint(s: string, w: string, f: string)
    requires s == w + "." + f
    requires |w| > 0 && AllDigits(w) && |f| > 0 && AllDigits(f)
    ensures ParseDecimal(s) == Some(DigitsValue(w) as real + DigitsValue(f) as real / Pow10(|f|) as real)
  {
    PointTextUnsigned(w, f);
    PointTextParts(w, f);
    ParseUnsignedDecimal(s, w, f);
  }

  /** Digits, a point and digits need no stripping and carry no sign. */
  lemma PointTextUnsigned(a: string, f: string)
    requires |a| > 0 && AllDigits(a) && |f| > 0 && AllDigits(f)
    ensures SplitSign(Strip(a + "." + f)) == (false, a + "." + f)
  {
    var s := a + "." + f;
    assert s[0] == a[0] && s[|s| - 1] == f[|f| - 1];
    UnsignedText(s);
  }

  /** The point after a run of digits splits the text into those digits and the rest. */
  lemma PointTextParts(a: string, f: string)
    requires AllDigits(a)
    ensures Whole(a + "." + f) == a && Fraction(a + "." + f) == f
  {
    var s := a + "." + f;
    DotIndexAfterDigits(a, f);
    assert s[..|a|] == a;
    assert s[|a| + 1..] == f;
  }

  /** Unsigned text with digits around its first point reads as the whole plus the fraction. */
  lemma ParseUnsignedDecimal(s: string, w: string, f: string)
    requires SplitSign(Strip(s)) == (false, s)
    requires Whole(s) == w && Fraction(s) == f && AllDigits(w) && AllDigits(f) && |w| + |f| > 0
    ensures ParseDecimal(s) == Some(DigitsValue(w) as real + DigitsValue(f) as real / Pow10(|f|) as real)
  {
  }

  lemma {:induction false} DotIndexAfterDigits(a: string, f: string)
    requires AllDigits(a)
    ensures DotIndex(a + "." + f) == |a|
  {
    if |a| > 0 {
      assert (a + "." + f)[1..] == a[1..] + "." + f;
      DotIndexAfterDigits(a[1..], f);
    }
  }

  /** `float("2.5")` is 2.5: the digits after the point count. */
  lemma ParseTwoAndAHalf(s: string)
    requires s == "2.5"
    ensures ParseDecimal(s) == Some(2.5)
  {
    TwoPointFiveParts();
    ParseDecimalReadsPoint(s, "2", "5");
    TwoPointFiveValue();
  }

  lemma TwoPointFiveValue()
    requires DigitsValue("2") == 2 && DigitsValue("5") == 5 && Pow10(|"5"|) == 10
    ensures DigitsValue("2") as real + DigitsValue("5") as real / Pow10(|"5"|) as real == 2.5
  {
  }

  lemma TwoPointFiveParts()
    ensures "2.5" == "2" + "." + "5" && AllDigits("2") && AllDigits("5")
    ensures DigitsValue("2") == 2 && DigitsValue("5") == 5 && Pow10(|"5"|) == 10
  {
    assert AllDigits("2") && AllDigits("5");
    assert "2"[..0] == "5"[..0] == [];
  }
}
