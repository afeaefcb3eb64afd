/** The number printer of omai/map_data.py: _js_number writes a float as section 6.1.6.1.20 (Number::toString) of
    ECMA-262 does, _card_number rounds it to six significant digits first. A number is a sign, a digit string and a
    power of ten. For _js_number it is the decimal the float's shortest text denotes, for _card_number the decimal of
    the float's exact binary value, which can have more digits; every theorem below holds for any decimal. */
module Numbers {
  import opened Wrappers

  datatype Decimal = Decimal(neg: bool, digits: string, exp: int)

  // What the printer is given: a float, or something else that str() prints.
  datatype Value = Zero | Number(d: Decimal) | Other(text: string)

  predicate IsDigit(c: char) { '0' <= c <= '9' }

  predicate AllDigits(s: string) {
    forall i :: 0 <= i < |s| ==> IsDigit(s[i])
  }

  /** No leading and no trailing zero digit, as Decimal.normalize leaves a non-zero number. */
  predicate Normal(d: Decimal) {
    d.digits != "" && AllDigits(d.digits) && d.digits[0] != '0' && d.digits[|d.digits| - 1] != '0'
  }

  function DigitOf(k: nat): (c: char)
    requires k < 10
    ensures IsDigit(c)
  {
    "0123456789"[k]
  }

  function DigitValue(c: char): (k: nat)
    requires IsDigit(c)
    ensures k < 10
  {
    c as int - '0' as int
  }

  /** The number a digit string denotes. */
  function Nat(s: string): nat
    requires AllDigits(s)
  {
    if s == "" then 0 else 10 * Nat(s[..|s| - 1]) + DigitValue(s[|s| - 1])
  }

  function NatText(n: nat): (s: string)
    ensures s != "" && AllDigits(s)
  {
    if n < 10 then [DigitOf(n)] else NatText(n / 10) + [DigitOf(n % 10)]
  }

  lemma {:induction false} NatRoundTrip(n: nat)
    ensures Nat(NatText(n)) == n
  {
    if n >= 10 {
      NatRoundTrip(n / 10);
      assert NatText(n)[..|NatText(n)| - 1] == NatText(n / 10);
    } else {
      assert Nat("") == 0;
      assert NatText(n)[..0] == "";
    }
  }

  function Zeros(n: nat): (s: string)
    ensures |s| == n && AllDigits(s)
    ensures forall i :: 0 <= i < n ==> s[i] == '0'
  {
    if n == 0 then "" else Zeros(n - 1) + "0"
  }

  function TenTo(n: nat): (t: nat)
    ensures t > 0
  {
    if n == 0 then 1 else 10 * TenTo(n - 1)
  }

  lemma {:induction false} TrailingZeros(s: string, n: nat)
    requires AllDigits(s)
    ensures AllDigits(s + Zeros(n)) && Nat(s + Zeros(n)) == Nat(s) * TenTo(n)
  {
    if n == 0 {
      assert s + Zeros(0) == s;
    } else {
      TrailingZeros(s, n - 1);
      assert (s + Zeros(n))[..|s| + n - 1] == s + Zeros(n - 1);
      assert (s + Zeros(n))[|s| + n - 1] == '0';
      MulAssoc(Nat(s), TenTo(n - 1));
    }
  }

  lemma MulAssoc(a: nat, b: nat)
    ensures 10 * (a * b) == a * (10 * b)
  {
  }

  lemma {:induction false} LeadingZeros(n: nat, s: string)
    requires AllDigits(s)
    ensures AllDigits(Zeros(n) + s) && Nat(Zeros(n) + s) == Nat(s)
  {
    if s != "" {
      LeadingZeros(n, s[..|s| - 1]);
      assert (Zeros(n) + s)[..n + |s| - 1] == Zeros(n) + s[..|s| - 1];
    } else {
      assert Zeros(n) + "" == "" + Zeros(n);
      TrailingZeros("", n);
    }
  }

  // ---------------------------------------------------------------- values

  /** n * 10^e */
  function Scaled(n: nat, e: int): real
    decreases if e < 0 then -e else e
  {
    if e == 0 then n as real else if e > 0 then 10.0 * Scaled(n, e - 1) else Scaled(n, e + 1) / 10.0
  }

  function Signed(neg: bool, x: real): real { if neg then -x else x }

  function ValueOf(d: Decimal): real
    requires AllDigits(d.digits)
  {
    Signed(d.neg, Scaled(Nat(d.digits), d.exp))
  }

  lemma {:induction false} ScaledTen(n: nat, e: int)
    ensures Scaled(10 * n, e) == Scaled(n, e + 1)
    decreases if e < 0 then -e else e
  {
    if e > 0 { ScaledTen(n, e - 1); } else if e < 0 { ScaledTen(n, e + 1); }
  }

  /** n with k more zeros, k places lower, is the same value. */
  lemma {:induction false} ScaledShift(n: nat, k: nat, e: int)
    ensures Scaled(n * TenTo(k), e) == Scaled(n, e + k)
    decreases k
  {
    if k > 0 {
      MulAssoc(n, TenTo(k - 1));
      ScaledTen(n * TenTo(k - 1), e);
      ScaledShift(n, k - 1, e + 1);
    }
  }

  // ---------------------------------------------------------------- reading a numeral

  function Find(s: string, c: char): (i: nat)
    ensures i <= |s|
  {
    if s == "" || s[0] == c then 0 else 1 + Find(s[1..], c)
  }

  /** digits, or digits '.' digits: the digits as one number, and how many follow the point. */
  function ReadMantissa(s: string): Option<(nat, nat)> {
    var i := Find(s, '.');
    if i == |s| then
      if s != "" && AllDigits(s) then Some((Nat(s), 0)) else None
    else if 0 < i < |s| - 1 && AllDigits(s[..i]) && AllDigits(s[i + 1..]) then
      Some((Nat(s[..i] + s[i + 1..]), |s| - i - 1))
    else None
  }

  /** ('+' | '-') digits */
  function ReadExponent(s: string): Option<int> {
    if |s| >= 2 && AllDigits(s[1..]) && (s[0] == '+' || s[0] == '-') then
      Some(if s[0] == '+' then Nat(s[1..]) else 0 - Nat(s[1..]))
    else None
  }

  /** An integer and a power of ten. */
  function ReadUnsigned(s: string): Option<(nat, int)> {
    var j := Find(s, 'e');
    var m := ReadMantissa(s[..j]);
    var e := if j == |s| then Some(0) else ReadExponent(s[j + 1..]);
    if m.Some? && e.Some? then Some((m.value.0, e.value - m.value.1)) else None
  }

  /** The value of a decimal numeral. */
  function Read(s: string): Option<real> {
    var neg := s != "" && s[0] == '-';
    var r := ReadUnsigned(if neg then s[1..] else s);
    if r.Some? then Some(Signed(neg, Scaled(r.value.0, r.value.1))) else None
  }

  lemma {:induction false} FindAfterDigits(a: string, c: char, b: string)
    requires AllDigits(a) && !IsDigit(c) && (b == "" || b[0] == c)
    ensures Find(a + b, c) == |a|
  {
    if a != "" {
      FindAfterDigits(a[1..], c, b);
      assert (a + b)[1..] == a[1..] + b;
    } else {
      assert a + b == b;
    }
  }

  lemma {:induction false} FindAbsent(s: string, c: char)
    requires forall i :: 0 <= i < |s| ==> s[i] != c
    ensures Find(s, c) == |s|
  {
    if s != "" { FindAbsent(s[1..], c); }
  }

  lemma {:induction false} FindPast(a: string, c: char, b: string)
    requires (forall i :: 0 <= i < |a| ==> a[i] != c) && (b == "" || b[0] == c)
    ensures Find(a + b, c) == |a|
  {
    if a != "" {
      FindPast(a[1..], c, b);
      assert (a + b)[1..] == a[1..] + b;
    } else {
      assert a + b == b;
    }
  }

  // ---------------------------------------------------------------- printing

  /** The five branches of _js_number for a non-zero number, without the sign. */
  function Unsigned(digits: string, exp: int): string
    requires digits != ""
  {
    var k := |digits|;
    var n := exp + k;
    if k <= n <= 21 then digits + Zeros(n - k)
    else if 0 < n <= 21 then digits[..n] + "." + digits[n..]
    else if -6 < n <= 0 then "0." + Zeros(-n) + digits
    else
      var e := n - 1;
      Mantissa(digits) + ExponentPart(e)
  }

  function JsNumber(v: Value): string
    requires v.Number? ==> Normal(v.d)
  {
    match v
    case Other(text) => text
    case Zero => "0"
    case Number(d) => (if d.neg then "-" else "") + Unsigned(d.digits, d.exp)
  }

  lemma ReadPlain(m: string)
    requires m != "" && AllDigits(m)
    ensures ReadMantissa(m) == Some((Nat(m), 0))
  {
    FindAbsent(m, '.');
  }

  lemma ReadPoint(s: string, a: string, b: string)
    requires s == a + "." + b && a != "" && b != "" && AllDigits(a) && AllDigits(b)
    ensures AllDigits(a + b) && ReadMantissa(s) == Some((Nat(a + b), |b|))
  {
    SplitAtPoint(s, a, b);
  }

  lemma SplitAtPoint(s: string, a: string, b: string)
    requires s == a + "." + b && AllDigits(a) && AllDigits(b)
    ensures Find(s, '.') == |a| && s[..|a|] == a && s[|a| + 1..] == b && NoE(s)
  {
    FindAfterDigits(a, '.', "." + b);
    assert s == a + ("." + b);
  }

  predicate NoE(s: string) {
    forall i :: 0 <= i < |s| ==> s[i] != 'e'
  }

  predicate ReadsAs(s: string, n: nat, e: int) {
    ReadUnsigned(s) == Some((n, e))
  }

  /** The text denotes n * 10^e. */
  predicate Denotes(s: string, n: nat, e: int) {
    var r := ReadUnsigned(s);
    r.Some? && Scaled(r.value.0, r.value.1) == Scaled(n, e)
  }

  lemma ReadWithoutExponent(s: string, n: nat, places: nat)
    requires NoE(s) && ReadMantissa(s) == Some((n, places))
    ensures ReadsAs(s, n, 0 - places)
  {
    FindAbsent(s, 'e');
    assert s[..|s|] == s;
  }

  lemma ReadWithExponent(s: string, m: string, n: nat, places: nat, tail: string, e: int)
    requires s == m + ("e" + tail) && NoE(m)
    requires ReadMantissa(m) == Some((n, places)) && ReadExponent(tail) == Some(e)
    ensures ReadsAs(s, n, e - places)
  {
    FindPast(m, 'e', "e" + tail);
    assert s[..|m|] == m;
    assert s[|m| + 1..] == tail;
  }

  lemma IntegerBranch(s: string, digits: string, exp: nat)
    requires s == digits + Zeros(exp) && digits != "" && AllDigits(digits)
    ensures Denotes(s, Nat(digits), exp)
  {
    TrailingZeros(digits, exp);
    ReadPlain(s);
    ReadWithoutExponent(s, Nat(s), 0);
    ScaledShift(Nat(digits), exp, 0);
  }

  /** A text with a point and no exponent. */
  lemma PointReads(s: string, a: string, b: string)
    requires s == a + "." + b && a != "" && b != "" && AllDigits(a) && AllDigits(b)
    ensures AllDigits(a + b) && ReadsAs(s, Nat(a + b), 0 - |b|)
  {
    ReadPoint(s, a, b);
    SplitAtPoint(s, a, b);
    ReadWithoutExponent(s, Nat(a + b), |b|);
  }

  lemma PointBranch(s: string, digits: string, n: nat)
    requires 0 < n < |digits| && s == digits[..n] + "." + digits[n..] && AllDigits(digits)
    ensures ReadsAs(s, Nat(digits), n - |digits|)
  {
    DigitsSplit(digits, n);
    PointReads(s, digits[..n], digits[n..]);
  }

  lemma DigitsSplit(digits: string, n: nat)
    requires n <= |digits| && AllDigits(digits)
    ensures AllDigits(digits[..n]) && AllDigits(digits[n..]) && digits[..n] + digits[n..] == digits
  {
  }

  lemma SmallDigits(s: string, digits: string, z: nat) returns (b: string)
    requires digits != "" && AllDigits(digits) && s == "0." + Zeros(z) + digits
    ensures s == "0" + "." + b && |b| == z + |digits|
    ensures AllDigits(b) && AllDigits("0" + b) && Nat("0" + b) == Nat(digits)
  {
    b := Zeros(z) + digits;
    LeadingZeros(z, digits);
    ZeroPointZeros(digits, z);
  }

  lemma ZeroPointZeros(digits: string, z: nat)
    requires AllDigits(digits)
    ensures AllDigits("0" + (Zeros(z) + digits)) && Nat("0" + (Zeros(z) + digits)) == Nat(digits)
  {
    LeadingZeros(z, digits);
    LeadingZeros(1, Zeros(z) + digits);
    assert Zeros(1) == Zeros(0) + "0" == "0";
  }

  lemma SmallBranch(s: string, n: nat, b: string, e: int)
    requires s == "0" + "." + b && b != "" && AllDigits(b) && AllDigits("0" + b) && Nat("0" + b) == n
    requires e == 0 - |b|
    ensures ReadsAs(s, n, e)
  {
    PointReads(s, "0", b);
  }

  function Mantissa(digits: string): string
    requires digits != ""
  {
    digits[..1] + (if |digits| > 1 then "." + digits[1..] else "")
  }

  lemma MantissaReads(m: string, digits: string)
    requires digits != "" && AllDigits(digits) && m == Mantissa(digits)
    ensures ReadMantissa(m) == Some((Nat(digits), |digits| - 1)) && NoE(m)
    ensures m != "" && IsDigit(m[0])
  {
    if |digits| > 1 {
      var a, b := digits[..1], digits[1..];
      assert m == a + "." + b;
      ReadPoint(m, a, b);
      SplitAtPoint(m, a, b);
      assert a + b == digits;
    } else {
      assert m == digits;
      ReadPlain(m);
    }
  }

  function ExponentPart(e: int): string {
    (if e > 0 then "e+" else "e-") + NatText(if e < 0 then -e else e)
  }

  lemma ExponentReads(e: int, tail: string)
    requires "e" + tail == ExponentPart(e)
    ensures ReadExponent(tail) == Some(e)
  {
    var sign := if e > 0 then '+' else '-';
    var x := NatText(if e < 0 then -e else e);
    NatRoundTrip(if e < 0 then -e else e);
    assert tail == ("e" + tail)[1..] == [sign] + x;
  }

  lemma ExponentTail(e: int) returns (tail: string)
    ensures ExponentPart(e) == "e" + tail && ReadExponent(tail) == Some(e)
  {
    tail := ExponentPart(e)[1..];
    assert ExponentPart(e)[0] == 'e';
    assert ExponentPart(e) == "e" + tail;
    ExponentReads(e, tail);
  }

  lemma MantissaThenExponent(s: string, m: string, n: nat, places: nat, part: string, tail: string, e: int)
    requires s == m + part && part == "e" + tail && NoE(m)
    requires ReadMantissa(m) == Some((n, places)) && ReadExponent(tail) == Some(e)
    ensures ReadsAs(s, n, e - places)
  {
    ReadWithExponent(s, m, n, places, tail, e);
  }

  lemma ExponentParts(digits: string, e: int) returns (m: string, part: string, tail: string)
    requires digits != "" && AllDigits(digits)
    ensures m == Mantissa(digits) && part == ExponentPart(e) && part == "e" + tail
    ensures ReadMantissa(m) == Some((Nat(digits), |digits| - 1)) && NoE(m) && ReadExponent(tail) == Some(e)
  {
    m, part := Mantissa(digits), ExponentPart(e);
    MantissaReads(m, digits);
    tail := ExponentTail(e);
  }

  // The four places the point can go.

  lemma IntegerRange(s: string, digits: string, exp: int)
    requires digits != "" && AllDigits(digits) && s == Unsigned(digits, exp)
    requires |digits| <= exp + |digits| <= 21
    ensures Denotes(s, Nat(digits), exp)
  {
    IntegerBranch(s, digits, exp);
  }

  lemma PointRange(s: string, digits: string, exp: int)
    requires digits != "" && AllDigits(digits) && s == Unsigned(digits, exp)
    requires 0 < exp + |digits| <= 21 && exp < 0
    ensures ReadsAs(s, Nat(digits), exp)
  {
    PointBranch(s, digits, exp + |digits|);
  }

  lemma SmallRange(s: string, digits: string, exp: int)
    requires digits != "" && AllDigits(digits) && s == Unsigned(digits, exp)
    requires -6 < exp + |digits| <= 0
    ensures ReadsAs(s, Nat(digits), exp)
  {
    var z := 0 - (exp + |digits|);
    UnsignedSmall(digits, exp, z);
    SmallReads(s, digits, z, exp);
  }

  lemma SmallReads(s: string, digits: string, z: nat, e: int)
    requires digits != "" && AllDigits(digits) && s == "0." + Zeros(z) + digits && e == 0 - (z + |digits|)
    ensures ReadsAs(s, Nat(digits), e)
  {
    var b := SmallDigits(s, digits, z);
    SmallBranch(s, Nat(digits), b, e);
  }

  lemma UnsignedSmall(digits: string, exp: int, z: nat)
    requires digits != "" && exp + |digits| == 0 - z && z < 6
    ensures Unsigned(digits, exp) == "0." + Zeros(z) + digits
  {
  }

  lemma ExponentRange(s: string, digits: string, exp: int)
    requires digits != "" && AllDigits(digits) && s == Unsigned(digits, exp)
    requires exp + |digits| > 21 || exp + |digits| <= -6
    ensures ReadsAs(s, Nat(digits), exp)
  {
    var m, part, tail := ExponentParts(digits, exp + |digits| - 1);
    MantissaThenExponent(s, m, Nat(digits), |digits| - 1, part, tail, exp + |digits| - 1);
  }

  lemma UnsignedReads(s: string, digits: string, exp: int)
    requires digits != "" && AllDigits(digits) && s == Unsigned(digits, exp)
    ensures Denotes(s, Nat(digits), exp)
  {
    var n := exp + |digits|;
    if |digits| <= n <= 21 {
      IntegerRange(s, digits, exp);
    } else if 0 < n <= 21 {
      PointRange(s, digits, exp);
    } else if -6 < n <= 0 {
      SmallRange(s, digits, exp);
    } else {
      ExponentRange(s, digits, exp);
    }
  }

  /** An exponent form: k digits, a point after the first of several, the exponent signed with no zero in front. */
  predicate Scientific(s: string, k: nat, e: int)
    requires k > 0
  {
    var m := if k == 1 then 1 else k + 1;
    && |s| > m + 2 && IsDigit(s[0]) && (k > 1 ==> s[1] == '.' && AllDigits(s[2..m])) && s[m] == 'e'
    && s[m + 1] == (if e > 0 then '+' else '-') && AllDigits(s[m + 2..]) && s[m + 2] != '0'
    && Nat(s[m + 2..]) == (if e < 0 then -e else e)
  }

  lemma ScientificParts(s: string, digits: string, e: int)
    requires digits != "" && AllDigits(digits) && e != 0 && s == Mantissa(digits) + ExponentPart(e)
    ensures Scientific(s, |digits|, e)
  {
    var a: nat := if e < 0 then -e else e;
    var m, text := Mantissa(digits), NatText(a);
    NatRoundTrip(a);
    NatTextLeads(a);
    assert s == m + ['e', if e > 0 then '+' else '-'] + text;
    assert s[|m| + 2..] == text;
    if |digits| > 1 { assert s[2..|m|] == digits[1..]; }
  }

  /** Which form a number takes, by the place n of its point and the number k of its digits. */
  lemma UnsignedForm(digits: string, exp: int)
    requires digits != "" && AllDigits(digits)
    ensures var s, k, n := Unsigned(digits, exp), |digits|, exp + |digits|;
            && (k <= n <= 21 ==> |s| == n && AllDigits(s))
            && (0 < n < k && n <= 21 ==>
                |s| == k + 1 && s[n] == '.' && AllDigits(s[..n]) && AllDigits(s[n + 1..]))
            && (-6 < n <= 0 ==> |s| == 2 - n + k && s[..2] == "0." && AllDigits(s[2..]))
            && (n > 21 || n <= -6 ==> Scientific(s, k, n - 1))
  {
    var s, k, n := Unsigned(digits, exp), |digits|, exp + |digits|;
    if n > 21 || n <= -6 {
      ScientificParts(s, digits, n - 1);
    } else if -6 < n <= 0 {
      UnsignedSmall(digits, exp, -n);
      assert s[2..] == Zeros(-n) + digits;
    } else if n < k {
      assert s[n + 1..] == digits[n..];
    }
  }

  lemma UnsignedStartsWithDigit(digits: string, exp: int)
    requires digits != "" && AllDigits(digits)
    ensures Unsigned(digits, exp) != "" && IsDigit(Unsigned(digits, exp)[0])
  {
  }

  /** Reading the printed text back gives exactly the number, in every branch. */
  lemma PrintedTextReadsBack(d: Decimal)
    requires Normal(d)
    ensures Read(JsNumber(Number(d))) == Some(ValueOf(d))
  {
    var u := Unsigned(d.digits, d.exp);
    UnsignedReads(u, d.digits, d.exp);
    UnsignedStartsWithDigit(d.digits, d.exp);
    if d.neg {
      assert ("-" + u)[1..] == u;
    } else {
      assert "" + u == u;
    }
  }

  // ---------------------------------------------------------------- six significant digits

  /** The number of powers of ten in one unit of the sixth significant digit. */
  function UnitExp(d: Decimal): int { d.exp + |d.digits| - 6 }

  /** Decimal.quantize with ROUND_HALF_UP: the coefficient at the unit exponent. */
  function Quantized(d: Decimal): nat
    requires AllDigits(d.digits)
  {
    if |d.digits| <= 6 then Nat(d.digits) * TenTo(6 - |d.digits|)
    else RoundHalfUp(Nat(d.digits), TenTo(|d.digits| - 6))
  }

  function RoundHalfUp(n: nat, t: nat): (c: nat)
    requires t > 0
    ensures 2 * (c * t) <= 2 * n + t && 2 * n < 2 * (c * t) + t
  {
    DivideBy(n, t);
    var c := n / t;
    if 2 * (n % t) >= t then NextMultiple(c, t); c + 1 else c
  }

  lemma DivideBy(n: nat, t: nat)
    requires t > 0
    ensures n == (n / t) * t + n % t
  {
  }

  lemma NextMultiple(c: nat, t: nat)
    ensures (c + 1) * t == c * t + t
  {
  }

  /** Drop trailing zero digits, as the shortest text of the rounded float does. */
  function Trim(neg: bool, digits: string, exp: int): Decimal {
    if |digits| > 1 && digits[|digits| - 1] == '0' then Trim(neg, digits[..|digits| - 1], exp + 1)
    else Decimal(neg, digits, exp)
  }

  /** The rounded number; d is the exact value of the float, as Decimal(v) makes it. */
  function Card(d: Decimal): Decimal
    requires AllDigits(d.digits)
  {
    Trim(d.neg, NatText(Quantized(d)), UnitExp(d))
  }

  /** _card_number */
  function CardNumber(v: Value): string
    requires v.Number? ==> Normal(v.d)
  {
    match v
    case Number(d) => CardNormal(d); JsNumber(Number(Card(d)))
    case _ => JsNumber(v)
  }

  lemma {:induction false} NatPositive(s: string)
    requires s != "" && AllDigits(s) && s[0] != '0'
    ensures Nat(s) > 0
  {
    if |s| > 1 {
      NatPositive(s[..|s| - 1]);
    } else {
      assert s[..0] == "";
    }
  }

  lemma {:induction false} NatTextLeads(n: nat)
    requires n > 0
    ensures NatText(n)[0] != '0'
  {
    if n >= 10 { NatTextLeads(n / 10); }
  }

  lemma {:induction false} TrimNormal(neg: bool, digits: string, exp: int)
    requires digits != "" && AllDigits(digits) && digits[0] != '0'
    ensures Normal(Trim(neg, digits, exp)) && Trim(neg, digits, exp).neg == neg
    ensures |Trim(neg, digits, exp).digits| <= |digits|
    ensures Scaled(Nat(Trim(neg, digits, exp).digits), Trim(neg, digits, exp).exp) == Scaled(Nat(digits), exp)
    decreases |digits|
  {
    if |digits| > 1 && digits[|digits| - 1] == '0' {
      TrimNormal(neg, digits[..|digits| - 1], exp + 1);
      assert Nat(digits) == 10 * Nat(digits[..|digits| - 1]);
      ScaledTen(Nat(digits[..|digits| - 1]), exp);
    }
  }

  lemma QuantizedPositive(d: Decimal)
    requires Normal(d)
    ensures Quantized(d) > 0
  {
    NatPositive(d.digits);
    if |d.digits| > 6 {
      NatAtLeast(d.digits);
      TenToGrows(|d.digits| - 6);
    } else {
      TimesPositive(Nat(d.digits), TenTo(6 - |d.digits|));
    }
  }

  lemma TimesPositive(a: nat, b: nat)
    requires a > 0 && b > 0
    ensures a * b > 0
  {
  }

  lemma {:induction false} NatAtLeast(s: string)
    requires s != "" && AllDigits(s) && s[0] != '0'
    ensures Nat(s) >= TenTo(|s| - 1)
  {
    if |s| > 1 {
      NatAtLeast(s[..|s| - 1]);
    } else {
      NatPositive(s);
    }
  }

  lemma {:induction false} NatBelow(s: string)
    requires AllDigits(s)
    ensures Nat(s) < TenTo(|s|)
  {
    if s != "" { NatBelow(s[..|s| - 1]); }
  }

  lemma TenToGrows(k: nat)
    ensures TenTo(k + 5) >= TenTo(k)
  {
    assert TenTo(k + 5) == 10 * TenTo(k + 4) && TenTo(k + 4) == 10 * TenTo(k + 3);
    assert TenTo(k + 3) == 10 * TenTo(k + 2) && TenTo(k + 2) == 10 * TenTo(k + 1);
  }

  /** The rounded number is again a float without superfluous digits, of the same sign and of value c * 10^unit. */
  lemma CardNormal(d: Decimal)
    requires Normal(d)
    ensures Normal(Card(d)) && Card(d).neg == d.neg
    ensures ValueOf(Card(d)) == Signed(d.neg, Scaled(Quantized(d), UnitExp(d)))
  {
    QuantizedPositive(d);
    NatTextLeads(Quantized(d));
    NatRoundTrip(Quantized(d));
    TrimNormal(d.neg, NatText(Quantized(d)), UnitExp(d));
  }

  lemma {:induction false} ScaledSign(a: nat, e: int)
    ensures Scaled(a, e) >= 0.0 && (a > 0 ==> Scaled(a, e) > 0.0)
    decreases if e < 0 then -e else e
  {
    if e > 0 { ScaledSign(a, e - 1); } else if e < 0 { ScaledSign(a, e + 1); }
  }

  /** Rounding to k fewer digits moves the scaled value by at most half a unit, and by less when it goes down. */
  lemma RoundingMoves(n: nat, k: nat, e: int)
    ensures var c := RoundHalfUp(n, TenTo(k));
            && 2.0 * (Scaled(c, e + k) - Scaled(n, e)) <= Scaled(1, e + k)
            && 2.0 * (Scaled(n, e) - Scaled(c, e + k)) < Scaled(1, e + k)
  {
    var t := TenTo(k);
    var c := RoundHalfUp(n, t);
    var m := c * t;
    ScaledShift(c, k, e);
    ScaledShift(1, k, e);
    RoundingGap(m, n, t, e);
  }

  lemma RoundingGap(m: nat, n: nat, t: nat, e: int)
    requires 2 * m <= 2 * n + t && 2 * n < 2 * m + t
    ensures 2.0 * (Scaled(m, e) - Scaled(n, e)) <= Scaled(t, e)
    ensures 2.0 * (Scaled(n, e) - Scaled(m, e)) < Scaled(t, e)
  {
    DoubleBound(m, n, t, e);
    DoubleBound(n, m, t, e);
  }

  lemma {:induction false} DoubleBound(a: nat, b: nat, t: nat, e: int)
    ensures 2 * a <= 2 * b + t ==> 2.0 * (Scaled(a, e) - Scaled(b, e)) <= Scaled(t, e)
    ensures 2 * a < 2 * b + t ==> 2.0 * (Scaled(a, e) - Scaled(b, e)) < Scaled(t, e)
    decreases if e < 0 then -e else e
  {
    if e > 0 { DoubleBound(a, b, t, e - 1); } else if e < 0 { DoubleBound(a, b, t, e + 1); }
  }

  /** The size of a number, as the sign-free value. */
  function Size(d: Decimal): real
    requires AllDigits(d.digits)
  {
    Scaled(Nat(d.digits), d.exp)
  }

  /** The card shows the nearest multiple of the sixth significant digit's unit, a tie going away from zero. */
  lemma CardWithinHalfUnit(d: Decimal)
    requires Normal(d)
    ensures var shown, unit := Scaled(Quantized(d), UnitExp(d)), Scaled(1, UnitExp(d));
            && Read(CardNumber(Number(d))) == Some(Signed(d.neg, shown))
            && 2.0 * (shown - Size(d)) <= unit
            && 2.0 * (Size(d) - shown) < unit
  {
    CardNormal(d);
    PrintedTextReadsBack(Card(d));
    CardMoves(d);
  }

  lemma {:induction false} ScaledOrder(a: nat, b: nat, e: int)
    ensures a <= b ==> Scaled(a, e) <= Scaled(b, e)
    ensures a < b ==> Scaled(a, e) < Scaled(b, e)
    decreases if e < 0 then -e else e
  {
    if e > 0 { ScaledOrder(a, b, e - 1); } else if e < 0 { ScaledOrder(a, b, e + 1); }
  }

  /** The unit is that of the sixth significant digit: a number is at least 100000 and under 1000000 of it. */
  lemma SixthDigit(d: Decimal)
    requires Normal(d)
    ensures Scaled(100000, UnitExp(d)) <= Size(d) < Scaled(1000000, UnitExp(d))
  {
    var k, u := |d.digits|, UnitExp(d);
    NatAtLeast(d.digits);
    NatBelow(d.digits);
    ScaledOrder(TenTo(k - 1), Nat(d.digits), d.exp);
    ScaledOrder(Nat(d.digits), TenTo(k), d.exp);
    ScaledShift(1, k - 1, d.exp);
    ScaledShift(1, k, d.exp);
    ScaledShift(1, 5, u);
    ScaledShift(1, 6, u);
    assert TenTo(3) == 1000 && TenTo(5) == 100 * TenTo(3) && TenTo(6) == 10 * TenTo(5);
  }

  lemma CardMoves(d: Decimal)
    requires AllDigits(d.digits)
    ensures var shown, unit := Scaled(Quantized(d), UnitExp(d)), Scaled(1, UnitExp(d));
            2.0 * (shown - Size(d)) <= unit && 2.0 * (Size(d) - shown) < unit
  {
    var n, u := Nat(d.digits), UnitExp(d);
    if |d.digits| <= 6 {
      ScaledShift(n, 6 - |d.digits|, u);
      ScaledSign(1, u);
    } else {
      RoundingMoves(n, |d.digits| - 6, d.exp);
    }
  }
}
