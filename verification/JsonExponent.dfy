/** The exponent branch of `parse_number`: which exponent it reads, and when that is the one RFC
    8259, section 6, means. */
module JsonExponent {
  import opened Chars
  import opened Numbers
  import opened JsonGrammar

  predicate IsSign(sign: string) {
    sign == "" || sign == "+" || sign == "-"
  }

  /** The exponent RFC 8259 means. */
  function Written(sign: string, ds: string): int
    requires All(ds, IsDigit)
  {
    if sign == "-" then 0 - NatOf(ds) else NatOf(ds)
  }

  /** The text the code converts: without the character after the `e`, or, after a minus sign,
      without the one after that sign. */
  function Collected(sign: string, ds: string): string
    requires ds != []
  {
    if sign == "+" then ds else if sign == "-" then "-" + ds[1..] else ds[1..]
  }

  /** What a number with an exponent parses to: mantissa, `e`, sign and digits one after the other. */
  lemma ExponentNumber(s: string, o: nat, val: string, sign: string, ds: string)
    requires val != [] && All(val, IsNumberChar) && HasAt(s, o, val)
    requires var p := o + |val|; p < |s| && (s[p] == 'e' || s[p] == 'E')
    requires IsSign(sign) && HasAt(s, o + |val| + 1, sign)
    requires ds != [] && All(ds, IsDigit) && HasAt(s, o + |val| + 1 + |sign|, ds)
    requires IsFollower(At(s, o + |val| + 1 + |sign| + |ds|))
    ensures ParseNumber(s, o) == match Stoll(Collected(sign, ds))
                                 case Err(err) => Throws(err)
                                 case Ok(x) => Finish(Convert(val, Some(x)), o + |val| + 1 + |sign| + |ds|)
  {
    hide *;
    NumberMeetsExponent(s, o, val);
    ExponentTail(s, o + |val| + 1, val, sign, ds);
  }

  lemma NumberMeetsExponent(s: string, o: nat, val: string)
    requires All(val, IsNumberChar) && HasAt(s, o, val)
    requires var p := o + |val|; p < |s| && (s[p] == 'e' || s[p] == 'E')
    ensures ParseNumber(s, o) == ParseExponent(s, o + |val| + 1, val)
  {
    hide Convert, ParseExponent, Finish;
    RunEndOf(s, o, val, IsNumberChar);
  }

  lemma ExponentTail(s: string, p: nat, val: string, sign: string, ds: string)
    requires IsSign(sign) && ds != [] && All(ds, IsDigit)
    requires HasAt(s, p, sign) && HasAt(s, p + |sign|, ds) && IsFollower(At(s, p + |sign| + |ds|))
    ensures ParseExponent(s, p, val) == match Stoll(Collected(sign, ds))
                                        case Err(err) => Throws(err)
                                        case Ok(x) => Finish(Convert(val, Some(x)), p + |sign| + |ds|)
  {
    hide Stoll, Convert, Finish, HasAt, Collected;
    ExponentDigits(s, p, sign, ds);
  }

  lemma ExponentDigits(s: string, p: nat, sign: string, ds: string)
    requires IsSign(sign) && ds != [] && All(ds, IsDigit)
    requires HasAt(s, p, sign) && HasAt(s, p + |sign|, ds) && IsFollower(At(s, p + |sign| + |ds|))
    ensures var d := if At(s, p) == '-' then p + 2 else p + 1;
            var end := p + |sign| + |ds|;
            && (At(s, p) == '-' <==> sign == "-")
            && d <= end && RunEnd(s, d, IsDigit) == end
            && (if sign == "-" then "-" else "") + s[d..end] == Collected(sign, ds)
  {
    var first := p + |sign|;
    var end := first + |ds|;
    assert s[first] == s[first..end][0] == ds[0];
    assert sign != [] ==> s[p] == s[p..first][0] == sign[0];
    var rest := if sign == "+" then ds else ds[1..];
    var d := if sign == "-" then p + 2 else p + 1;
    assert s[d..end] == rest by {
      assert s[first..end][1..] == s[first + 1..end];
    }
    assert HasAt(s, d, rest);
    RunEndOf(s, d, rest, IsDigit);
  }

  // The value of the first digit

  lemma {:induction false} LeadingDigit(ds: string)
    requires ds != [] && All(ds, IsDigit)
    ensures All(ds[1..], IsDigit)
    ensures NatOf(ds) == DigitVal(ds[0]) * Pow10(|ds| - 1) + NatOf(ds[1..])
  {
    var front := ds[..|ds| - 1];
    if |ds| > 1 {
      LeadingDigit(front);
      var rest := ds[1..];
      assert rest[..|rest| - 1] == front[1..];
      ScaleTen(DigitVal(ds[0]), Pow10(|ds| - 2));
    } else {
      assert front == [] && ds[1..] == [];
    }
  }

  function InRange(v: int): Result<int64> {
    if INT64_MIN <= v <= INT64_MAX then Ok(v) else Err(OutOfRange)
  }

  lemma StollOfDigits(neg: bool, ds: string)
    requires All(ds, IsDigit)
    ensures ds == [] ==> Stoll((if neg then "-" else "") + ds) == Err(InvalidArgument)
    ensures ds != [] ==> Stoll((if neg then "-" else "") + ds) == InRange(if neg then 0 - NatOf(ds) else NatOf(ds))
  {
    hide NatOf, RunEnd;
    var val := (if neg then "-" else "") + ds;
    var i := if neg then 1 else 0;
    SignOfDigits(neg, ds);
    assert val[i..|val|] == ds;
    RunEndOf(val, i, ds, IsDigit);
  }

  lemma SignOfDigits(neg: bool, ds: string)
    requires All(ds, IsDigit)
    ensures var val := (if neg then "-" else "") + ds;
            var i := if neg then 1 else 0;
            SignEnd(val) == i && |val| == i + |ds| && HasAt(val, i, ds)
  {
    var val := (if neg then "-" else "") + ds;
    assert !neg && ds != [] ==> val[0] == ds[0];
    assert val[if neg then 1 else 0..] == ds;
  }

  /** The exponent read is the exponent written exactly if it has a plus sign, or a leading zero
      before other digits. (`1e5` is an error; `1e15` is read as ten to the fifth.) */
  lemma ExponentIsExactIff(sign: string, ds: string)
    requires IsSign(sign) && ds != [] && All(ds, IsDigit) && NatOf(ds) <= INT64_MAX
    ensures Stoll(Collected(sign, ds)) == Ok(Written(sign, ds)) <==> sign == "+" || (|ds| > 1 && ds[0] == '0')
  {
    hide Stoll, NatOf;
    FirstDigitCounts(ds);
    var rest := if sign == "+" then ds else ds[1..];
    StollOfDigits(sign == "-", rest);
    assert Collected(sign, ds) == (if sign == "-" then "-" else "") + rest;
  }

  lemma FirstDigitCounts(ds: string)
    requires ds != [] && All(ds, IsDigit)
    ensures All(ds[1..], IsDigit) && NatOf(ds) >= NatOf(ds[1..])
    ensures NatOf(ds) == NatOf(ds[1..]) <==> ds[0] == '0'
  {
    hide NatOf, Pow10;
    LeadingDigit(ds);
    DigitOrNothing(DigitVal(ds[0]), Pow10(|ds| - 1));
  }

  lemma DigitOrNothing(d: nat, p: nat)
    requires p >= 1
    ensures d * p == 0 <==> d == 0
    ensures d * p >= 0
  {
  }

  /** For every other exponent the first digit is lost: nothing is left of a single one, and what
      is read of several is short of what is written by that digit's value. */
  lemma FirstDigitIsLost(sign: string, ds: string)
    requires sign == "" || sign == "-"
    requires ds != [] && All(ds, IsDigit) && NatOf(ds) <= INT64_MAX
    ensures All(ds[1..], IsDigit) && NatOf(ds[1..]) == NatOf(ds) - DigitVal(ds[0]) * Pow10(|ds| - 1)
    ensures Stoll(Collected(sign, ds)) == if |ds| == 1 then Err(InvalidArgument) else Ok(Written(sign, ds[1..]))
  {
    hide Stoll, NatOf, Pow10;
    LeadingDigit(ds);
    FirstDigitCounts(ds);
    StollOfDigits(sign == "-", ds[1..]);
    assert "" + ds[1..] == ds[1..];
  }
}
