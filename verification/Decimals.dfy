// Numeric bounds as finite decimals, the text strconv prints for them, and the number a JSON literal denotes.
module Decimals {
  import opened JsonReader

  // mantissa / 10^scale, in lowest terms: 1.5 is Decimal(15, 1), never Decimal(150, 2).
  datatype RawDecimal = Decimal(mantissa: int, scale: nat)
  type Decimal = d: RawDecimal | d.scale == 0 || d.mantissa % 10 != 0 witness Decimal(0, 0)

  function Pow10(k: nat): (r: int)
    ensures r > 0
  {
    if k == 0 then 1 else 10 * Pow10(k - 1)
  }

  function Real(d: Decimal): real {
    d.mantissa as real / Pow10(d.scale) as real
  }

  function OfInt(n: int): Decimal {
    Decimal(n, 0)
  }

  // d + n
  function Plus(d: Decimal, n: int): (r: Decimal)
    ensures Real(r) == Real(d) + n as real
  {
    var p := Pow10(d.scale);
    assert d.scale > 0 ==> (d.mantissa + n * p) % 10 == d.mantissa % 10 by {
      if d.scale > 0 {
        Mod10(d.mantissa, n * Pow10(d.scale - 1));
        assert n * p == 10 * (n * Pow10(d.scale - 1));
      }
    }
    SplitFraction(d.mantissa, n, p);
    Decimal(d.mantissa + n * p, d.scale)
  }

  lemma Mod10(a: int, b: int)
    ensures (a + 10 * b) % 10 == a % 10
  {
  }

  lemma SplitFraction(m: int, n: int, p: int)
    requires p > 0
    ensures (m + n * p) as real / p as real == m as real / p as real + n as real
  {
    assert (m + n * p) as real == m as real + n as real * p as real;
  }

  function Abs(n: int): nat {
    if n < 0 then -n else n
  }

  // The digits before the point, without the sign.
  function WholePart(d: Decimal): nat {
    Divide(Abs(d.mantissa), Pow10(d.scale)).0
  }

  function FractionPart(d: Decimal): nat {
    Divide(Abs(d.mantissa), Pow10(d.scale)).1
  }

  function Divide(a: nat, p: int): (r: (nat, nat))
    requires p > 0
    ensures r.1 < p && a == r.0 * p + r.1
  {
    var q, r := a / p, a % p;
    assert q >= 0 by {
      if q < 0 { NegativeProduct(q, p); }
    }
    (q, r)
  }

  lemma NegativeProduct(q: int, p: int)
    requires q < 0 < p
    ensures q * p <= -p
  {
  }

  // Truncation toward zero, as int(v) does.
  function Trunc(d: Decimal): int {
    var w: int := WholePart(d);
    if d.mantissa >= 0 then w else -w
  }

  predicate IsInteger(d: Decimal) {
    d.scale == 0
  }

  lemma Quotient(a: nat, q: nat, r: nat, p: int)
    requires p > 0 && r < p && a == q * p + r
    ensures q as real <= a as real / p as real < q as real + 1.0
    ensures q as real == a as real / p as real <==> r == 0
  {
    var x := r as real / p as real;
    assert a as real == q as real * p as real + r as real;
    assert a as real / p as real == q as real + x;
    assert 0.0 <= x < 1.0;
    assert x * p as real == r as real;
  }

  lemma EndsInZero(m: int, q: int, p: int)
    requires Abs(m) == q * (10 * p)
    ensures m % 10 == 0
  {
    assert Abs(m) == 10 * (q * p);
  }

  // A fraction in lowest terms with digits behind the point has a remainder.
  lemma HasFraction(d: Decimal)
    ensures FractionPart(d) == 0 <==> IsInteger(d)
  {
    if d.scale > 0 && FractionPart(d) == 0 {
      EndsInZero(d.mantissa, WholePart(d), Pow10(d.scale - 1));
    }
  }

  lemma AbsReal(d: Decimal)
    ensures Abs(d.mantissa) as real / Pow10(d.scale) as real == if d.mantissa < 0 then -Real(d) else Real(d)
  {
    var p := Pow10(d.scale) as real;
    assert (-d.mantissa) as real == -(d.mantissa as real);
    assert -(d.mantissa as real) / p == -(d.mantissa as real / p);
  }

  // Truncation keeps the sign, moves toward zero, by less than one, and leaves exactly the integers alone.
  lemma TruncMeans(d: Decimal)
    ensures d.mantissa >= 0 ==> Trunc(d) as real <= Real(d) < Trunc(d) as real + 1.0
    ensures d.mantissa < 0 ==> Trunc(d) as real - 1.0 < Real(d) <= Trunc(d) as real
    ensures Trunc(d) as real == Real(d) <==> IsInteger(d)
    ensures Trunc(d) >= 0 <==> Real(d) > -1.0
    ensures Real(d) >= 0.0 ==> Trunc(d) >= 0
    ensures Real(d) < 0.0 ==> d.mantissa < 0 && Trunc(d) <= 0
  {
    var a, q, r, p := Abs(d.mantissa), WholePart(d), FractionPart(d), Pow10(d.scale);
    Quotient(a, q, r, p);
    HasFraction(d);
    AbsReal(d);
  }

  // ---- printing ----

  function Digit(n: int): (c: char)
    requires 0 <= n < 10
    ensures IsDigit(c)
  {
    ('0' as int + n) as char
  }

  function Digits(n: nat): string {
    if n < 10 then [Digit(n)] else Digits(n / 10) + [Digit(n % 10)]
  }

  // n in exactly k digits.
  function Padded(n: nat, k: nat): string {
    if k == 0 then "" else Padded(n / 10, k - 1) + [Digit(n % 10)]
  }

  function Spell(negative: bool, whole: string, fraction: string): string {
    (if negative then "-" else "") + (whole + if fraction == [] then "" else "." + fraction)
  }

  // strconv.Itoa
  function Itoa(n: int): string {
    Spell(n < 0, Digits(Abs(n)), "")
  }

  // strconv.FormatFloat(v, 'f', -1, 64)
  function FormatFloat(d: Decimal): string {
    Spell(d.mantissa < 0, Digits(WholePart(d)), Padded(FractionPart(d), d.scale))
  }

  // ---- reading ----

  predicate AllDigits(s: string) {
    forall i | 0 <= i < |s| :: IsDigit(s[i])
  }

  function DigitsValue(s: string): nat
    requires AllDigits(s)
  {
    if s == [] then 0
    else
      assert IsDigit(s[|s| - 1]);
      10 * DigitsValue(s[..|s| - 1]) + (s[|s| - 1] as int - '0' as int)
  }

  function LeadingDigits(s: string): (r: string)
    ensures AllDigits(r) && r + DropDigits(s) == s
  {
    if s != [] && IsDigit(s[0]) then [s[0]] + LeadingDigits(s[1..]) else ""
  }

  function ExponentValue(s: string): int {
    if s == [] then 0
    else
      var a := if |s| > 1 && (s[1] == '+' || s[1] == '-') then s[2..] else s[1..];
      var e: int := DigitsValue(LeadingDigits(a));
      if |s| > 1 && s[1] == '-' then -e else e
  }

  function Scaled(x: real, e: int): real {
    if e >= 0 then x * Pow10(e) as real else x / Pow10(-e) as real
  }

  // int [ frac ] [ exp ]
  function Unsigned(a: string): real {
    var whole, rest := LeadingDigits(a), DropDigits(a);
    var fraction := if rest != [] && rest[0] == '.' then LeadingDigits(rest[1..]) else "";
    var exponent := if rest != [] && rest[0] == '.' then DropDigits(rest[1..]) else rest;
    Scaled(DigitsValue(whole + fraction) as real / Pow10(|fraction|) as real, ExponentValue(exponent))
  }

  // The number a literal denotes (section 6 of RFC 8259); 0 for anything else.
  function NumberOf(s: string): real {
    if !ValidNumber(s) then 0.0 else if s[0] == '-' then -Unsigned(s[1..]) else Unsigned(s)
  }

  // ---- reading undoes printing ----

  lemma {:induction false} DigitsMean(n: nat)
    ensures Digits(n) != [] && AllDigits(Digits(n)) && DigitsValue(Digits(n)) == n
    ensures Digits(n)[0] == '0' ==> n == 0 && |Digits(n)| == 1
  {
    if n >= 10 {
      DigitsMean(n / 10);
      var a := Digits(n / 10);
      assert (a + [Digit(n % 10)])[..|a|] == a;
    } else {
      assert [Digit(n)][..0] == [];
    }
  }

  lemma {:induction false} PaddedMeans(a: string, n: nat, k: nat)
    requires AllDigits(a) && n < Pow10(k)
    ensures |Padded(n, k)| == k && AllDigits(Padded(n, k)) && AllDigits(a + Padded(n, k))
    ensures DigitsValue(a + Padded(n, k)) == DigitsValue(a) * Pow10(k) + n
  {
    if k == 0 {
      assert a + "" == a;
    } else {
      PaddedMeans(a, n / 10, k - 1);
      var b, c := Padded(n / 10, k - 1), Digit(n % 10);
      assert a + (b + [c]) == (a + b) + [c];
      SnocDigit(a + b, c);
      TimesTen(DigitsValue(a), Pow10(k - 1), n / 10, n);
    }
  }

  lemma SnocDigit(s: string, c: char)
    requires AllDigits(s) && IsDigit(c)
    ensures AllDigits(s + [c]) && DigitsValue(s + [c]) == 10 * DigitsValue(s) + (c as int - '0' as int)
  {
    assert (s + [c])[..|s|] == s;
  }

  lemma TimesTen(v: int, p: int, m: int, n: int)
    requires m == n / 10
    ensures 10 * (v * p + m) + n % 10 == v * (10 * p) + n
  {
  }

  lemma {:induction false} DigitsThen(a: string, rest: string)
    requires AllDigits(a) && (rest == [] || !IsDigit(rest[0]))
    ensures DropDigits(a + rest) == rest && LeadingDigits(a + rest) == a
  {
    if a == [] {
      assert a + rest == rest;
    } else {
      assert (a + rest)[1..] == a[1..] + rest;
      DigitsThen(a[1..], rest);
    }
  }

  ghost predicate PlainParts(whole: string, fraction: string) {
    whole != [] && AllDigits(whole) && (whole[0] == '0' ==> |whole| == 1) && AllDigits(fraction)
  }

  // What the reader sees behind the sign: sign, whole part, optional fraction is the shape both printers produce.
  lemma PlainSplit(whole: string, fraction: string)
    requires PlainParts(whole, fraction)
    ensures
      var tail := if fraction == [] then "" else "." + fraction;
      && LeadingDigits(whole + tail) == whole && DropDigits(whole + tail) == tail
      && ValidFraction(tail) && (whole[0] == '0' ==> (whole + tail)[1..] == tail)
      && (fraction != [] ==> LeadingDigits(tail[1..]) == fraction && DropDigits(tail[1..]) == [])
  {
    var tail := if fraction == [] then "" else "." + fraction;
    DigitsThen(whole, tail);
    if fraction != [] {
      assert tail[1..] == fraction && fraction + "" == fraction;
      DigitsThen(fraction, "");
    }
  }

  lemma PlainUnsigned(whole: string, fraction: string)
    requires PlainParts(whole, fraction)
    ensures Unsigned(whole + if fraction == [] then "" else "." + fraction)
         == DigitsValue(whole + fraction) as real / Pow10(|fraction|) as real
  {
    PlainSplit(whole, fraction);
    TimesOne(DigitsValue(whole + fraction) as real / Pow10(|fraction|) as real);
  }

  lemma TimesOne(x: real)
    ensures Scaled(x, 0) == x
  {
  }

  lemma PlainNumber(negative: bool, whole: string, fraction: string)
    requires PlainParts(whole, fraction)
    ensures
      var x := DigitsValue(whole + fraction) as real / Pow10(|fraction|) as real;
      ValidNumber(Spell(negative, whole, fraction))
          && NumberOf(Spell(negative, whole, fraction)) == if negative then -x else x
  {
    var tail := if fraction == [] then "" else "." + fraction;
    var s := Spell(negative, whole, fraction);
    assert (whole + tail)[0] == whole[0];
    assert (if s[0] == '-' then s[1..] else s) == whole + tail && (s[0] == '-' <==> negative);
    PlainUnsigned(whole, fraction);
    assert ValidNumber(s) by {
      PlainSplit(whole, fraction);
    }
  }

  lemma ItoaMeans(n: int)
    ensures ValidNumber(Itoa(n)) && NumberOf(Itoa(n)) == n as real
  {
    var whole := Digits(Abs(n));
    assert PlainParts(whole, "") && DigitsValue(whole + "") == Abs(n) by {
      DigitsMean(Abs(n));
      assert whole + "" == whole;
    }
    PlainNumber(n < 0, whole, "");
    OverOne(Abs(n));
  }

  lemma OverOne(n: int)
    ensures n as real / Pow10(|""|) as real == n as real
    ensures -(n as real) == (-n) as real
  {
  }

  // The printed digits, point aside, are the mantissa's.
  lemma MantissaDigits(d: Decimal)
    ensures
      var whole, fraction := Digits(WholePart(d)), Padded(FractionPart(d), d.scale);
      && PlainParts(whole, fraction) && |fraction| == d.scale
      && AllDigits(whole + fraction) && DigitsValue(whole + fraction) == Abs(d.mantissa)
  {
    DigitsMean(WholePart(d));
    PaddedMeans(Digits(WholePart(d)), FractionPart(d), d.scale);
  }

  lemma FormatFloatMeans(d: Decimal)
    ensures ValidNumber(FormatFloat(d)) && NumberOf(FormatFloat(d)) == Real(d)
  {
    MantissaDigits(d);
    PlainNumber(d.mantissa < 0, Digits(WholePart(d)), Padded(FractionPart(d), d.scale));
    AbsReal(d);
  }
}
