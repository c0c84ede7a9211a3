/** The number a written numeral stands for, stated by its digits, and where documents keep it. */
module JsonNumerals {
  import opened Chars
  import opened Numbers
  import opened Escapes
  import opened OrderedMap
  import opened JsonValue
  import opened JsonGrammar
  import opened JsonDoc
  import opened JsonRoundTrip
  import opened JsonExponent

  function Sign(neg: bool): string {
    if neg then "-" else ""
  }

  lemma SignOf(neg: bool, body: string)
    requires neg || body == [] || body[0] != '-'
    ensures SignEnd(Sign(neg) + body) == |Sign(neg)|
  {
    assert neg ==> (Sign(neg) + body)[0] == '-';
    assert !neg ==> Sign(neg) + body == body;
  }

  /** A run of digits written somewhere in a text, up to something else. */
  lemma DigitsAt(val: string, i: nat, ds: string, tail: string)
    requires i <= |val| && val[i..] == ds + tail && All(ds, IsDigit)
    requires tail == [] || !IsDigit(tail[0])
    ensures i + |ds| <= |val| && RunEnd(val, i, IsDigit) == i + |ds|
    ensures val[i..i + |ds|] == ds && val[i + |ds|..] == tail
  {
    hide RunEnd, IsDigit;
    var e := i + |ds|;
    assert val[i..e] == val[i..][..|ds|] == ds;
    assert val[e..] == val[i..][|ds|..] == tail;
    assert tail != [] ==> val[e] == val[e..][0];
    NulIsNoDigit();
    RunEndOf(val, i, ds, IsDigit);
  }

  lemma NulIsNoDigit()
    ensures !IsDigit('\0') && !IsDigit('.') && !IsDigit('-')
  {
  }

  // A point among the digits

  function DecimalText(neg: bool, whole: string, part: string, rest: string): string {
    Sign(neg) + (whole + ("." + (part + rest)))
  }

  /** The two runs of digits, and the point between them. */
  lemma DecimalRuns(val: string, i: nat, whole: string, part: string, rest: string)
    requires i <= |val| && val[i..] == whole + ("." + (part + rest))
    requires All(whole, IsDigit) && All(part, IsDigit) && (rest == [] || !IsDigit(rest[0]))
    ensures var j := i + |whole|;
            && j < |val| && val[j] == '.' && RunEnd(val, i, IsDigit) == j && val[i..j] == whole
            && j + 1 + |part| <= |val| && RunEnd(val, j + 1, IsDigit) == j + 1 + |part|
            && val[j + 1..j + 1 + |part|] == part
  {
    hide RunEnd, IsDigit, All;
    var j := i + |whole|;
    NulIsNoDigit();
    DigitsAt(val, i, whole, "." + (part + rest));
    assert val[j] == val[j..][0] == '.';
    assert val[j + 1..] == val[j..][1..] == part + rest;
    DigitsAt(val, j + 1, part, rest);
  }

  lemma MantissaOfRuns(val: string, i: nat, j: nat, k: nat)
    requires SignEnd(val) == i <= j < |val| && RunEnd(val, i, IsDigit) == j && val[j] == '.'
    requires j + 1 <= k <= |val| && RunEnd(val, j + 1, IsDigit) == k
    ensures Mantissa(val) == (val[i..j] + val[j + 1..k], k - j - 1)
  {
    hide SignEnd, RunEnd, IsDigit;
  }

  lemma DecimalMantissa(neg: bool, whole: string, part: string, rest: string)
    requires All(whole, IsDigit) && All(part, IsDigit) && (rest == [] || !IsDigit(rest[0]))
    ensures var val := DecimalText(neg, whole, part, rest);
            '.' in val && Mantissa(val) == (whole + part, |part|) && SignEnd(val) == |Sign(neg)|
  {
    hide RunEnd, SignEnd, Mantissa, All, Sign;
    var val := DecimalText(neg, whole, part, rest);
    var i := |Sign(neg)|;
    var j := i + |whole|;
    var tail := whole + ("." + (part + rest));
    assert tail[0] != '-' by {
      WholeStartsNoSign(whole, "." + (part + rest));
    }
    SignOf(neg, tail);
    assert val[i..] == tail;
    DecimalRuns(val, i, whole, part, rest);
    MantissaOfRuns(val, i, j, j + 1 + |part|);
  }

  lemma WholeStartsNoSign(whole: string, tail: string)
    requires All(whole, IsDigit) && tail != [] && tail[0] == '.'
    ensures (whole + tail)[0] != '-'
  {
    assert whole != [] ==> IsDigit(whole[0]);
  }

  /** `std::stod` on digits with a point: the sign, and a magnitude that is the number without the
      point divided by ten for every digit behind it. What follows the digits is ignored. */
  lemma DecimalNumeral(neg: bool, whole: string, part: string, rest: string)
    requires All(whole, IsDigit) && All(part, IsDigit) && whole + part != []
    requires rest == [] || !IsDigit(rest[0])
    ensures All(whole + part, IsDigit)
    ensures var r := Convert(Sign(neg) + (whole + ("." + (part + rest))), None);
            && r.Ok? && r.value.Floating? && r.value.float.neg == neg
            && r.value.float.mag * Pow10(|part|) as real == NatOf(whole + part) as real
  {
    hide Mantissa, SignEnd, NatOf, Pow10, PowReal;
    DecimalMantissa(neg, whole, part, rest);
    RealPowerSteps(0);
    Quotient(NatOf(whole + part) as real, Pow10(|part|) as real);
  }

  lemma Quotient(n: real, p: real)
    requires p > 0.0
    ensures n / p * p == n
  {
  }

  lemma MantissaOfRun(val: string, i: nat, j: nat)
    requires SignEnd(val) == i <= j < |val| && RunEnd(val, i, IsDigit) == j && val[j] != '.'
    ensures Mantissa(val) == (val[i..j], 0)
  {
    hide SignEnd, RunEnd, IsDigit;
  }

  lemma LatePointMantissa(neg: bool, whole: string, rest: string)
    requires whole != [] && All(whole, IsDigit) && rest != [] && rest[0] == '-' && '.' in rest
    ensures var val := Sign(neg) + (whole + rest);
            '.' in val && Mantissa(val) == (whole, 0) && SignEnd(val) == |Sign(neg)|
  {
    hide RunEnd, SignEnd, Mantissa, Sign, IsDigit;
    var tail := whole + rest;
    var val := Sign(neg) + tail;
    var i := |Sign(neg)|;
    NulIsNoDigit();
    assert tail[0] == whole[0] && IsDigit(whole[0]);
    SignOf(neg, tail);
    assert val[i..] == tail;
    DigitsAt(val, i, whole, rest);
    assert val[i + |whole|] == val[i + |whole|..][0];
    MantissaOfRun(val, i, i + |whole|);
  }

  /** A point that comes too late: only the digits before what interrupts them count. */
  lemma LatePointNumeral(neg: bool, whole: string, rest: string)
    requires whole != [] && All(whole, IsDigit) && rest != [] && rest[0] == '-' && '.' in rest
    ensures var r := Convert(Sign(neg) + (whole + rest), None);
            && r.Ok? && r.value.Floating? && r.value.float.neg == neg && r.value.float.mag == NatOf(whole) as real
  {
    hide Mantissa, SignEnd, NatOf, PowReal, Pow10;
    LatePointMantissa(neg, whole, rest);
    RealPowerSteps(0);
    PowerSteps(0);
  }

  // No point

  function Signed(neg: bool, ds: string): int
    requires All(ds, IsDigit)
  {
    if neg then 0 - NatOf(ds) else NatOf(ds)
  }

  /** `std::stoll` on digits: their value if it fits 64 bits, and the range exception if not. */
  lemma IntegerNumeral(neg: bool, ds: string, rest: string)
    requires ds != [] && All(ds, IsDigit) && (rest == [] || !IsDigit(rest[0])) && '.' !in rest
    ensures var v := Signed(neg, ds);
            Convert(Sign(neg) + (ds + rest), None)
              == if -0x8000_0000_0000_0000 <= v <= 0x7FFF_FFFF_FFFF_FFFF then Ok(Integral(v)) else Err(OutOfRange)
  {
    hide RunEnd, SignEnd, NatOf;
    var val := Sign(neg) + (ds + rest);
    var i := |Sign(neg)|;
    NulIsNoDigit();
    SignOf(neg, ds + rest);
    assert val[i..] == ds + rest;
    DigitsAt(val, i, ds, rest);
    assert '.' !in val;
  }

  lemma StartsNoDigit(val: string, i: nat, rest: string)
    requires i <= |val| && val[i..] == rest && (rest == [] || !IsDigit(rest[0]))
    ensures RunEnd(val, i, IsDigit) == i
  {
    hide IsDigit;
    assert rest != [] ==> val[i] == rest[0];
  }

  /** No digit where one has to be: the conversion exception. */
  lemma NoNumeral(neg: bool, rest: string)
    requires rest == [] || rest[0] == '-' || (rest[0] == '.' && (|rest| > 1 ==> !IsDigit(rest[1])))
    requires neg || rest == [] || rest[0] != '-'
    ensures Convert(Sign(neg) + rest, None) == Err(InvalidArgument)
  {
    hide RunEnd, SignEnd, NatOf, Sign, PowReal, IsDigit;
    var val := Sign(neg) + rest;
    var i := |Sign(neg)|;
    NulIsNoDigit();
    SignOf(neg, rest);
    assert val[i..] == rest;
    StartsNoDigit(val, i, rest);
    if rest != [] && rest[0] == '.' {
      assert val[i + 1..] == rest[1..];
      StartsNoDigit(val, i + 1, rest[1..]);
    }
  }

  // An exponent

  /** An exponent multiplies by that power of ten, and makes a double of an integer. */
  lemma ExponentScales(val: string, e: int64)
    ensures match Convert(val, None)
            case Err(err) => Convert(val, Some(e)) == Err(err)
            case Ok(v) =>
              var r := Convert(val, Some(e));
              && r.Ok? && r.value.Floating?
              && (v.Floating? ==> r.value.float.neg == v.float.neg && r.value.float.mag == v.float.mag * PowReal(e))
              && (v.Integral? ==>
                    && r.value.float.neg == (v.num < 0)
                    && r.value.float.mag == (if v.num < 0 then 0 - v.num else v.num as int) as real * PowReal(e))
  {
    hide Stod, Stoll, PowReal;
    RealPowerSteps(0);
  }

  // Where documents keep a number

  /** A written numeral: digits with a point. */
  predicate IsDecimal(neg: bool, whole: string, part: string) {
    All(whole, IsDigit) && All(part, IsDigit) && whole + part != [] && (neg || whole != [])
  }

  /** The value is the double the digits spell. */
  ghost predicate Spells(v: Value, neg: bool, whole: string, part: string) {
    && v.Floating? && v.float.neg == neg && All(whole + part, IsDigit)
    && v.float.mag * Pow10(|part|) as real == NatOf(whole + part) as real
  }

  lemma DigitsAreNumberChars(ds: string)
    requires All(ds, IsDigit)
    ensures All(ds, IsNumberChar)
  {
  }

  lemma AllCat(a: string, b: string)
    requires All(a, IsNumberChar) && All(b, IsNumberChar)
    ensures All(a + b, IsNumberChar)
  {
    hide IsNumberChar;
  }

  lemma DecimalChars(neg: bool, whole: string, part: string)
    requires All(whole, IsDigit) && All(part, IsDigit)
    ensures All(Sign(neg) + (whole + ("." + part)), IsNumberChar)
  {
    assert All(Sign(neg), IsNumberChar) && All(".", IsNumberChar);
    hide All, IsNumberChar, IsDigit, Sign;
    DigitsAreNumberChars(whole);
    DigitsAreNumberChars(part);
    AllCat(".", part);
    AllCat(whole, "." + part);
    AllCat(Sign(neg), whole + ("." + part));
  }

  lemma DecimalStart(neg: bool, whole: string, part: string)
    requires All(whole, IsDigit) && (neg || whole != [])
    ensures var c := (Sign(neg) + (whole + ("." + part)))[0];
            c == '-' || IsDigit(c)
  {
    var lex := Sign(neg) + (whole + ("." + part));
    assert if neg then lex[0] == '-' else lex[0] == whole[0];
  }

  lemma DecimalIsNumeral(neg: bool, whole: string, part: string)
    requires IsDecimal(neg, whole, part)
    ensures var lex := Sign(neg) + (whole + ("." + part));
            ValidDoc(DNumber(lex)) && Spells(Meaning(DNumber(lex)), neg, whole, part)
  {
    hide Convert, NatOf, Pow10, IsDigit, IsNumberChar, Sign, All;
    assert part + [] == part;
    DecimalNumeral(neg, whole, part, []);
    DecimalChars(neg, whole, part);
    DecimalStart(neg, whole, part);
  }

  /** Such a numeral is read as what its digits spell, anywhere in a text, before a follower. */
  lemma DecimalInPlace(prefix: string, neg: bool, whole: string, part: string, suffix: string)
    requires IsDecimal(neg, whole, part) && suffix != [] && IsFollower(suffix[0])
    ensures var lex := Sign(neg) + (whole + ("." + part));
            var r := ParseNext(prefix + lex + suffix, |prefix|);
            r.Done? && r.offset == |prefix| + |lex| && Spells(r.value, neg, whole, part)
  {
    hide ParseNext, Spells, IsDecimal, ValidDoc, Meaning, IsFollower, Sign;
    var lex := Sign(neg) + (whole + ("." + part));
    DecimalIsNumeral(neg, whole, part);
    EveryLayoutIsReadAlike(prefix, DNumber(lex), suffix);
  }

  lemma {:induction false} MeaningAt(items: seq<Item>, k: nat)
    requires ValidItems(items) && k < |items|
    ensures ValidDoc(items[k].doc) && k < |Meanings(items)| && Meanings(items)[k] == Meaning(items[k].doc)
  {
    hide Meaning, ValidDoc;
    assert ValidItem(items[0]);
    if k > 0 {
      MeaningAt(items[1..], k - 1);
    }
  }

  /** So it is as an item of a document, */
  lemma DecimalItem(d: Doc, k: nat, neg: bool, whole: string, part: string)
    requires ValidDoc(d) && d.DArray? && k < |d.items| && IsDecimal(neg, whole, part)
    requires d.items[k].doc == DNumber(Sign(neg) + (whole + ("." + part)))
    ensures var r := Load(DocText(d));
            r.Done? && r.value.Array? && k < |r.value.items| && Spells(r.value.items[k], neg, whole, part)
  {
    hide ParseNext, Spells, IsDecimal, Sign;
    MeaningAt(d.items, k);
    DecimalIsNumeral(neg, whole, part);
    assert HasAt(DocText(d), 0, DocText(d));
    ParseDoc(DocText(d), 0, d);
  }

  /** and as its last member of a name. */
  lemma DecimalMember(d: Doc, i: nat, neg: bool, whole: string, part: string)
    requires ValidDoc(d) && d.DObject? && i < |d.entries| && IsDecimal(neg, whole, part)
    requires forall j :: i < j < |d.entries| ==> KeyOf(d.entries, j) != KeyOf(d.entries, i)
    requires d.entries[i].value.doc == DNumber(Sign(neg) + (whole + ("." + part)))
    ensures var r := Load(DocText(d));
            && r.Done? && r.value.Object?
            && var v := Find(r.value.members, Escape(KeyOf(d.entries, i)));
               v.Some? && Spells(v.value, neg, whole, part)
  {
    hide ParseNext, Spells, IsDecimal, Sign, DocText, ValidDoc, KeyOf, Find, Escape, Meaning;
    DecimalIsNumeral(neg, whole, part);
    LastMemberWins("", d, "", i);
    assert "" + DocText(d) + "" == DocText(d);
  }

  lemma LastInArray(s: string, o: nat, v: Value, p: nat)
    requires 0 < o && p < |s| && ParseNext(s, o) == Done(v, p) && SkipWs(s, p) == p && s[p] == ']'
    ensures ParseItems(s, o, []) == Done(Array([v]), p + 1)
  {
    hide ParseNext;
    assert [] + [v] == [v];
  }

  lemma OneDigit(d: nat)
    requires d < 10
    ensures NatOf([DigitChar(d)]) == d
  {
    NatOfSnoc([], d);
    assert [] + [DigitChar(d)] == [DigitChar(d)];
  }

  lemma TenToTheFifth()
    ensures PowReal(5) == 100000.0
  {
    assert Pow10(3) == 1000;
  }

  /** One times ten to the fifth, from the digits 1 and 5. */
  lemma OneTimesTenToTheFifth()
    ensures Stoll("5") == Ok(5) && Convert("1", Some(5)) == Ok(Floating(Float(false, 100000.0)))
  {
    hide NatOf, Stoll, Convert, PowReal;
    OneDigit(5);
    OneDigit(1);
    assert "" + "5" == "5" && Sign(false) + ("1" + "") == "1";
    StollOfDigits(false, "5");
    IntegerNumeral(false, "1", "");
    ExponentScales("1", 5);
    TenToTheFifth();
  }

  /** `1e15` is read as ten to the fifth. */
  lemma FifteenIsReadAsFive()
    ensures Load("[1e15]") == Done(Array([Floating(Float(false, 100000.0))]), 6)
  {
    hide ParseNext, ParseItems, SkipWs, Convert, Stoll, ParseNumber;
    var s := "[1e15]";
    assert s[1..2] == "1" && s[3..3] == "" && s[3..5] == "15" && "15"[1..] == "5";
    ExponentNumber(s, 1, "1", "", "15");
    OneTimesTenToTheFifth();
    StartsNumber(s, 1);
    NoSkip(s, 1);
    NoSkip(s, 5);
    StartsItems(s, 0);
    LastInArray(s, 1, Floating(Float(false, 100000.0)), 5);
  }
}
