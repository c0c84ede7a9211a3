/** Decimal text: `std::to_string` on one side, `std::stoll` and `std::stod` on the other. */
module Numbers {
  import opened Chars

  const INT64_MIN: int := -0x8000_0000_0000_0000
  const INT64_MAX: int := 0x7FFF_FFFF_FFFF_FFFF

  type int64 = i: int | INT64_MIN <= i <= INT64_MAX

  type Magnitude = r: real | 0.0 <= r

  /** A finite `double`, its sign apart from its magnitude so that zero keeps a sign.
      Magnitudes are exact: rounding to 53 bits is not part of this model. */
  datatype Float = Float(neg: bool, mag: Magnitude)

  /** The conversion exceptions of the standard library. */
  datatype Error = InvalidArgument | OutOfRange

  datatype Result<+T> = Ok(value: T) | Err(error: Error)

  // Digits and their value.

  function DigitChar(d: nat): (c: char)
    requires d < 10
    ensures IsDigit(c) && DigitVal(c) == d
  {
    ('0' as int + d) as char
  }

  function DigitVal(c: char): nat
    requires IsDigit(c)
  {
    c as int - '0' as int
  }

  function Digits(n: nat): (s: string)
    ensures s != [] && All(s, IsDigit)
  {
    if n < 10 then [DigitChar(n)] else Digits(n / 10) + [DigitChar(n % 10)]
  }

  lemma DigitValues(d: nat)
    requires d < 10
    ensures DigitChar(d) == "0123456789"[d] && DigitVal("0123456789"[d]) == d
  {
    assert d == 0 || d == 1 || d == 2 || d == 3 || d == 4 || d == 5 || d == 6 || d == 7 || d == 8 || d == 9;
  }

  /** The low `w` digits of `n`, zero-padded. */
  function Padded(n: nat, w: nat): (s: string)
    ensures |s| == w && All(s, IsDigit)
  {
    if w == 0 then [] else Padded(n / 10, w - 1) + [DigitChar(n % 10)]
  }

  function NatOf(ds: string): nat
    requires All(ds, IsDigit)
  {
    if ds == [] then 0 else 10 * NatOf(ds[..|ds| - 1]) + DigitVal(ds[|ds| - 1])
  }

  function Pow10(e: nat): (p: nat)
    ensures p >= 1
  {
    if e == 0 then 1 else 10 * Pow10(e - 1)
  }

  /** Positional value: each digit more is worth ten times the digits before it and itself. */
  lemma NatOfSnoc(ds: string, d: nat)
    requires All(ds, IsDigit) && d < 10
    ensures NatOf([]) == 0 && All(ds + [DigitChar(d)], IsDigit)
    ensures NatOf(ds + [DigitChar(d)]) == 10 * NatOf(ds) + d
  {
    var all := ds + [DigitChar(d)];
    assert all[..|all| - 1] == ds;
  }

  lemma {:induction false} NatOfDigits(n: nat)
    ensures NatOf(Digits(n)) == n
  {
    if n < 10 {
      NatOfSnoc([], n);
      assert [] + [DigitChar(n)] == [DigitChar(n)];
    } else {
      NatOfDigits(n / 10);
      NatOfSnoc(Digits(n / 10), n % 10);
    }
  }

  /** Digits followed by `w` padded digits are the one number. */
  lemma {:induction false} NatOfPadded(ds: string, n: nat, w: nat)
    requires All(ds, IsDigit) && n < Pow10(w)
    ensures All(ds + Padded(n, w), IsDigit)
    ensures NatOf(ds + Padded(n, w)) == NatOf(ds) * Pow10(w) + n
    decreases w
  {
    if w == 0 {
      assert ds + Padded(n, w) == ds;
    } else {
      var front := Padded(n / 10, w - 1);
      NatOfPadded(ds, n / 10, w - 1);
      NatOfSnoc(ds + front, n % 10);
      assert ds + Padded(n, w) == (ds + front) + [DigitChar(n % 10)];
      ScaleTen(NatOf(ds), Pow10(w - 1));
    }
  }

  lemma PowerSteps(e: nat)
    ensures Pow10(0) == 1 && Pow10(e + 1) == 10 * Pow10(e)
  {
  }

  lemma ScaleTen(a: nat, p: nat)
    ensures a * (10 * p) == 10 * (a * p)
  {
  }

  // std::to_string

  function IntText(i: int): string {
    if i < 0 then "-" + Digits(-i) else Digits(i)
  }

  const MILLION: nat := 1000000

  /** Round half to even, as "%f" does. */
  function RoundHalfEven(x: Magnitude): nat {
    var n := x.Floor;
    var rest := x - n as real;
    if rest < 0.5 then n
    else if rest > 0.5 then n + 1
    else if n % 2 == 0 then n else n + 1
  }

  /** The nearest whole number, of two equally near ones the even one. */
  lemma RoundsToNearest(x: Magnitude)
    ensures var rest := x - RoundHalfEven(x) as real;
            -0.5 <= rest <= 0.5 && (rest == 0.5 || rest == -0.5 ==> RoundHalfEven(x) % 2 == 0)
  {
  }

  /** The six-decimal rounding of a magnitude, in millionths. */
  function Millionths(m: Magnitude): nat {
    RoundHalfEven(m * 1000000.0)
  }

  function MillionthsText(m: nat): string {
    Digits(m / MILLION) + ("." + Padded(m % MILLION, 6))
  }

  function FloatText(f: Float): string {
    (if f.neg then "-" else "") + MillionthsText(Millionths(f.mag))
  }

  /** What is left of a double after printing it. */
  function RoundedFloat(f: Float): Float {
    Float(f.neg, Millionths(f.mag) as real / 1000000.0)
  }

  /** A printed double is off by half a millionth at most, is a whole number of millionths, and has the
      sign of the double. */
  lemma RoundedIsNearest(f: Float)
    ensures var n := RoundedFloat(f).mag * 1000000.0;
            && RoundedFloat(f).neg == f.neg && n == n.Floor as real
            && -0.5 <= f.mag * 1000000.0 - n <= 0.5
            && (f.mag * 1000000.0 - n == 0.5 || f.mag * 1000000.0 - n == -0.5 ==> n.Floor % 2 == 0)
  {
    RoundsToNearest(f.mag * 1000000.0);
    var m := Millionths(f.mag);
    assert RoundedFloat(f).mag * 1000000.0 == m as real;
  }

  lemma RoundingIsStable(m: nat)
    ensures Millionths(m as real / 1000000.0) == m
  {
    var x := m as real / 1000000.0 * 1000000.0;
    assert x == m as real;
    assert x.Floor == m;
  }

  lemma RoundedFloatText(f: Float)
    ensures FloatText(RoundedFloat(f)) == FloatText(f)
    ensures RoundedFloat(RoundedFloat(f)) == RoundedFloat(f)
  {
    RoundingIsStable(Millionths(f.mag));
  }

  // std::stoll and std::stod, on texts of the characters parse_number collects

  function SignEnd(val: string): (i: nat)
    ensures i <= |val|
  {
    if val != [] && val[0] == '-' then 1 else 0
  }

  lemma RunIsDigits(val: string, i: nat, j: nat)
    requires i <= j <= |val|
    requires forall k :: i <= k < j ==> IsDigit(val[k])
    ensures All(val[i..j], IsDigit)
  {
  }

  /** `std::stoll`: the longest numeral at the start counts, the rest is ignored. */
  function Stoll(val: string): Result<int64> {
    var i := SignEnd(val);
    var j := RunEnd(val, i, IsDigit);
    if i == j then Err(InvalidArgument)
    else
      RunIsDigits(val, i, j);
      var n: int := NatOf(val[i..j]);
      var v: int := if i == 1 then -n else n;
      if INT64_MIN <= v <= INT64_MAX then Ok(v) else Err(OutOfRange)
  }

  /** The digits `std::stod` reads, and how many of them stand after the point. */
  function Mantissa(val: string): (r: (string, nat))
    ensures All(r.0, IsDigit)
  {
    var i := SignEnd(val);
    var j := RunEnd(val, i, IsDigit);
    RunIsDigits(val, i, j);
    if j < |val| && val[j] == '.' then
      var k := RunEnd(val, j + 1, IsDigit);
      RunIsDigits(val, j + 1, k);
      (val[i..j] + val[j + 1..k], k - j - 1)
    else (val[i..j], 0)
  }

  function Decimal(n: nat, places: nat): Magnitude {
    n as real / Pow10(places) as real
  }

  /** `std::stod`: digits, then perhaps a point and digits; at least one digit in all. */
  function Stod(val: string): Result<Float> {
    var (ds, places) := Mantissa(val);
    if ds == [] then Err(InvalidArgument)
    else Ok(Float(SignEnd(val) == 1, Decimal(NatOf(ds), places)))
  }

  function FromInt(i: int): Float {
    Float(i < 0, (if i < 0 then -i else i) as real)
  }

  function PowReal(e: int): (p: real)
    ensures p > 0.0
  {
    if e >= 0 then Pow10(e) as real else 1.0 / Pow10(-e) as real
  }

  lemma RealPowerSteps(e: int)
    ensures PowReal(0) == 1.0 && PowReal(e + 1) == 10.0 * PowReal(e)
  {
    if e >= 0 {
      PowerSteps(e);
    } else {
      PowerSteps(-e - 1);
      var p, q := Pow10(-e - 1) as real, Pow10(-e) as real;
      assert q == 10.0 * p;
      assert 1.0 / p == 10.0 * (1.0 / q);
    }
  }

  /** `f * std::pow(10, e)` */
  function Scale(f: Float, e: int): Float {
    Float(f.neg, f.mag * PowReal(e))
  }

  // Reading back what was printed.

  lemma SignedDigits(neg: bool, ds: string, rest: string)
    requires ds != [] && All(ds, IsDigit)
    requires rest == [] || !IsDigit(rest[0])
    ensures var val := (if neg then "-" else "") + (ds + rest);
            var i := SignEnd(val);
            && i == (if neg then 1 else 0)
            && RunEnd(val, i, IsDigit) == i + |ds|
            && val[i..i + |ds|] == ds
            && val[i + |ds|..] == rest
  {
    var sign := if neg then "-" else "";
    var val := sign + (ds + rest);
    assert !neg ==> val[0] == ds[0] && IsDigit(ds[0]);
    var i := SignEnd(val);
    assert val[i..i + |ds|] == ds;
    assert val[i + |ds|..] == rest;
    assert rest != [] ==> val[i + |ds|] == rest[0];
    RunEndOf(val, i, ds, IsDigit);
  }

  lemma StollOfIntText(i: int64)
    ensures Stoll(IntText(i)) == Ok(i)
  {
    var n: nat := if i < 0 then -(i as int) else i;
    var ds := Digits(n);
    SignedDigits(i < 0, ds, []);
    assert ds + [] == ds;
    NatOfDigits(n);
  }

  lemma PointAndPart(val: string, j: nat, part: string)
    requires j <= |val| && val[j..] == "." + part
    requires All(part, IsDigit)
    ensures j < |val| && val[j] == '.'
    ensures RunEnd(val, j + 1, IsDigit) == |val| && val[j + 1..] == part
  {
    assert val[j] == val[j..][0];
    assert val[j + 1..] == val[j..][1..];
    assert HasAt(val, j + 1, part);
    RunEndOf(val, j + 1, part, IsDigit);
  }

  lemma MantissaIs(val: string, i: nat, j: nat)
    requires SignEnd(val) == i && RunEnd(val, i, IsDigit) == j < |val| && val[j] == '.'
    requires RunEnd(val, j + 1, IsDigit) == |val|
    ensures i <= j && Mantissa(val) == (val[i..j] + val[j + 1..], |val| - j - 1)
  {
    hide SignEnd, RunEnd;
    assert val[j + 1..|val|] == val[j + 1..];
  }

  lemma MantissaOfParts(neg: bool, whole: string, part: string)
    requires whole != [] && All(whole, IsDigit) && All(part, IsDigit)
    ensures var val := (if neg then "-" else "") + (whole + ("." + part));
            Mantissa(val) == (whole + part, |part|) && SignEnd(val) == if neg then 1 else 0
  {
    hide Mantissa, SignEnd, RunEnd, All;
    var rest := "." + part;
    var val := (if neg then "-" else "") + (whole + rest);
    assert !IsDigit(rest[0]);
    SignedDigits(neg, whole, rest);
    var j := SignEnd(val) + |whole|;
    PointAndPart(val, j, part);
    MantissaIs(val, SignEnd(val), j);
  }

  lemma NatOfMillionths(m: nat)
    ensures var ds := Digits(m / MILLION) + Padded(m % MILLION, 6);
            All(ds, IsDigit) && NatOf(ds) == m
  {
    PowSix();
    NatOfDigits(m / MILLION);
    NatOfPadded(Digits(m / MILLION), m % MILLION, 6);
  }

  lemma StodOfFloatText(f: Float)
    ensures Stod(FloatText(f)) == Ok(RoundedFloat(f))
  {
    hide Mantissa, SignEnd, NatOf, Digits, Padded, Millionths, Pow10, All;
    var m := Millionths(f.mag);
    MantissaOfParts(f.neg, Digits(m / MILLION), Padded(m % MILLION, 6));
    NatOfMillionths(m);
    PowSix();
  }

  lemma PowSix()
    ensures Pow10(6) == MILLION
  {
    assert Pow10(3) == 1000;
  }

  // The texts as numerals

  /** Digits without a superfluous leading zero. */
  predicate IsPlainNumeral(ds: string) {
    ds != [] && All(ds, IsDigit) && (ds[0] == '0' ==> ds == "0")
  }

  lemma {:induction false} DigitsArePlain(n: nat)
    ensures IsPlainNumeral(Digits(n)) && (Digits(n) == "0" <==> n == 0)
  {
    if n >= 10 {
      DigitsArePlain(n / 10);
    }
  }

  /** `std::to_string` of an integer: its sign if it is negative, and its digits. */
  lemma IntTextIs(i: int)
    ensures var t := IntText(i);
            var ds := if i < 0 then t[1..] else t;
            && (i < 0 ==> t != [] && t[0] == '-')
            && IsPlainNumeral(ds) && NatOf(ds) == if i < 0 then -i else i
  {
    var n := if i < 0 then -i else i;
    DigitsArePlain(n);
    NatOfDigits(n);
    assert i < 0 ==> IntText(i)[1..] == Digits(n);
  }

  /** `std::to_string` of a double: its sign, the whole part, a point, and six digits; read as one
      number without the point they are the millionths. */
  lemma FloatTextIs(f: Float)
    ensures exists whole, part ::
              && IsPlainNumeral(whole) && All(part, IsDigit) && |part| == 6 && All(whole + part, IsDigit)
              && FloatText(f) == (if f.neg then "-" else "") + (whole + ("." + part))
              && NatOf(whole + part) as real == RoundedFloat(f).mag * 1000000.0
  {
    var m := Millionths(f.mag);
    var whole, part := Digits(m / MILLION), Padded(m % MILLION, 6);
    DigitsArePlain(m / MILLION);
    NatOfMillionths(m);
    assert RoundedFloat(f).mag * 1000000.0 == m as real;
    assert FloatText(f) == (if f.neg then "-" else "") + (whole + ("." + part));
  }

  // The texts are made of number characters, which is what stops the collecting loop after them.

  lemma IntTextChars(i: int)
    ensures var t := IntText(i);
            t != [] && All(t, IsNumberChar) && '.' !in t && (t[0] == '-' || IsDigit(t[0]))
  {
  }

  lemma FloatTextChars(f: Float)
    ensures var t := FloatText(f);
            t != [] && All(t, IsNumberChar) && '.' in t && (t[0] == '-' || IsDigit(t[0]))
  {
    var m := Millionths(f.mag);
    var sign := if f.neg then "-" else "";
    var whole, part := Digits(m / MILLION), Padded(m % MILLION, 6);
    var t := sign + (whole + ("." + part));
    assert t[|sign| + |whole|] == '.';
    forall k | 0 <= k < |t|
      ensures IsNumberChar(t[k])
    {
      if |sign| <= k < |sign| + |whole| {
        assert t[k] == whole[k - |sign|];
      } else if k > |sign| + |whole| {
        assert t[k] == part[k - |sign| - |whole| - 1];
      }
    }
    assert !f.neg ==> t[0] == whole[0];
  }
}
