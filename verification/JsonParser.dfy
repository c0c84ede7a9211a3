/** The parser as it runs: each `parse_*` function is a method that advances an offset in loops,
    proved to compute its function of `JsonGrammar`. The offset passed by reference is an
    in-parameter, and the offset inside the result. */
module JsonParser {
  import opened Chars
  import opened Numbers
  import opened OrderedMap
  import opened JsonValue
  import opened JsonGrammar
  import G = JsonGrammar

  method ConsumeWs(str: string, start: nat) returns (offset: nat)
    requires start <= |str|
    ensures offset == SkipWs(str, start)
  {
    offset := start;
    while IsSpace(At(str, offset))
      invariant start <= offset <= |str|
      invariant SkipWs(str, offset) == SkipWs(str, start)
      decreases |str| - offset
    {
      offset := offset + 1;
    }
  }

  method ParseObject(str: string, start: nat) returns (r: Parsed)
    requires start < |str|
    ensures r == G.ParseObject(str, start)
    decreases |str| - start, 2
  {
    var obj: seq<Member> := [];
    var offset := ConsumeWs(str, start + 1);
    if At(str, offset) == '}' {
      return Done(Object(obj), offset + 1);
    }
    while true
      invariant start < offset <= |str|
      invariant G.ParseMembers(str, offset, obj) == G.ParseObject(str, start)
      decreases |str| - offset
    {
      var step := ParseMember(str, offset, obj);
      match step {
        case More(members, next) => obj, offset := members, next;
        case Stop(result) => return result;
      }
    }
  }

  /** The body of the loop of `parse_object`. */
  method ParseMember(str: string, start: nat, obj: seq<Member>) returns (step: Step<seq<Member>>)
    requires 0 < start <= |str|
    ensures step == G.ParseMember(str, start, obj)
    decreases |str| - start, 4
  {
    var key := ParseNext(str, start);
    var colon := PassColon(str, obj, key);
    match colon {
      case Stop(result) => step := Stop(result);
      case More(name, offset) =>
        var value := ParseNext(str, offset);
        step := StoreMember(str, obj, name, value);
    }
  }

  /** The middle of that body: from the key to the value. */
  method PassColon(str: string, obj: seq<Member>, key: Parsed) returns (step: Step<string>)
    ensures step == AfterKey(str, obj, key)
  {
    if !key.Done? {
      return Stop(key);
    } else if key.offset > |str| {
      return Stop(OutOfBounds);
    }
    var offset := ConsumeWs(str, key.offset);
    if At(str, offset) != ':' {
      return Stop(Done(Object(obj), offset));
    }
    offset := ConsumeWs(str, offset + 1);
    step := More(key.value.ToString(), offset);
  }

  /** The end of that body: the assignment, and the separator. */
  method StoreMember(str: string, obj: seq<Member>, key: string, value: Parsed) returns (step: Step<seq<Member>>)
    ensures step == AfterValue(str, obj, key, value)
  {
    if !value.Done? {
      return Stop(value);
    }
    var members := Put(obj, key, value.value);
    if value.offset > |str| {
      return Stop(OutOfBounds);
    }
    var offset := ConsumeWs(str, value.offset);
    if At(str, offset) == ',' {
      step := More(members, offset + 1);
    } else if At(str, offset) == '}' {
      step := Stop(Done(Object(members), offset + 1));
    } else {
      step := Stop(Done(Object(members), offset));
    }
  }

  method ParseArray(str: string, start: nat) returns (r: Parsed)
    requires start < |str|
    ensures r == G.ParseArray(str, start)
    decreases |str| - start, 2
  {
    var items: seq<Value> := [];
    var offset := ConsumeWs(str, start + 1);
    if At(str, offset) == ']' {
      return Done(Array(items), offset + 1);
    }
    while true
      invariant start < offset <= |str|
      invariant G.ParseItems(str, offset, items) == G.ParseArray(str, start)
      decreases |str| - offset
    {
      var item := ParseNext(str, offset);
      var step := StoreItem(str, items, item);
      match step {
        case More(collected, next) => items, offset := collected, next;
        case Stop(result) => return result;
      }
    }
  }

  /** The rest of the body of that loop: the assignment, and the separator. */
  method StoreItem(str: string, items: seq<Value>, item: Parsed) returns (step: Step<seq<Value>>)
    ensures step == AfterItem(str, items, item)
  {
    if !item.Done? {
      return Stop(item);
    }
    var collected := items + [item.value];
    if item.offset > |str| {
      return Stop(OutOfBounds);
    }
    var offset := ConsumeWs(str, item.offset);
    if At(str, offset) == ',' {
      step := More(collected, offset + 1);
    } else if At(str, offset) == ']' {
      step := Stop(Done(Array(collected), offset + 1));
    } else {
      step := Stop(Done(Array([]), offset));
    }
  }

  method ParseString(str: string, start: nat) returns (r: Parsed)
    requires start < |str|
    ensures r == G.ParseString(str, start)
  {
    var val := "";
    var offset := start + 1;
    while offset <= |str| && At(str, offset) != '\"'
      invariant start < offset
      invariant G.ParseStringBody(str, offset, val) == G.ParseString(str, start)
      decreases |str| - offset
    {
      var c := At(str, offset);
      if c == '\\' {
        offset := offset + 1;
        match At(str, offset) {
          case '\"' => val := val + "\"";
          case '\\' => val := val + "\\";
          case '/' => val := val + "/";
          case 'b' => val := val + "\U{08}";
          case 'f' => val := val + "\U{0C}";
          case 'n' => val := val + "\n";
          case 'r' => val := val + "\r";
          case 't' => val := val + "\t";
          case 'u' =>
            var hex := CollectHex(str, offset);
            if |hex| < 4 {
              return Done(String(""), offset);
            }
            val := val + "\\u" + hex;
            offset := offset + 4;
          case _ => val := val + "\\";
        }
      } else {
        val := val + [c];
      }
      offset := offset + 1;
    }
    if offset > |str| {
      return OutOfBounds;
    }
    r := Done(String(val), offset + 1);
  }

  /** The loop over the four characters after `\u`; it stops at the first one that is no
      hexadecimal digit, so it never looks past the terminating NUL. */
  method CollectHex(str: string, offset: nat) returns (hex: string)
    requires offset < |str|
    ensures |hex| == 4 <==> HexFollows(str, offset + 1)
    ensures |hex| == 4 ==> hex == str[offset + 1..offset + 5]
    ensures |hex| <= 4
  {
    hex := "";
    for i := 1 to 5
      invariant |hex| == i - 1 && offset + i <= |str|
      invariant hex == str[offset + 1..offset + i] && All(hex, IsHex)
    {
      var c := At(str, offset + i);
      if !IsHex(c) {
        assert offset + 5 <= |str| ==> str[offset + 1..offset + 5][i - 1] == c;
        return;
      }
      hex := hex + [c];
    }
  }

  method ParseNumber(str: string, start: nat) returns (r: Parsed)
    requires start <= |str|
    ensures r == G.ParseNumber(str, start)
  {
    var val, isDouble, offset := CollectNumber(str, start);
    var c := At(str, offset);
    if c == 'E' || c == 'e' {
      r := ParseExponent(str, offset + 1, val, isDouble);
    } else if !IsFollower(c) {
      r := Done(Null, offset + 1);
    } else {
      var n := ConvertNumber(val, isDouble, None);
      r := Finish(n, offset);
    }
  }

  /** The loop at the start of `parse_number`. */
  method CollectNumber(str: string, start: nat) returns (val: string, isDouble: bool, offset: nat)
    requires start <= |str|
    ensures offset == RunEnd(str, start, IsNumberChar)
    ensures val == str[start..offset] && isDouble == ('.' in val)
  {
    val, isDouble, offset := "", false, start;
    var c := At(str, offset);
    while IsNumberChar(c)
      invariant start <= offset <= |str| && c == At(str, offset)
      invariant val == str[start..offset] && isDouble == ('.' in val)
      invariant RunEnd(str, offset, IsNumberChar) == RunEnd(str, start, IsNumberChar)
      decreases |str| - offset
    {
      if c == '.' {
        isDouble := true;
      }
      val := val + [c];
      offset := offset + 1;
      c := At(str, offset);
    }
  }

  /** The part of `parse_number` from just after the `e` on. */
  method ParseExponent(str: string, start: nat, val: string, isDouble: bool) returns (r: Parsed)
    requires start <= |str| && isDouble == ('.' in val)
    ensures r == G.ParseExponent(str, start, val)
  {
    hide Stoll, Convert, Finish;
    var expStr := "";
    var offset := start;
    if At(str, offset) == '-' {
      expStr := "-";
      offset := offset + 1;
    }
    offset := offset + 1;
    if offset > |str| {
      return OutOfBounds;
    }
    ghost var first, sign := offset, expStr;
    var c := At(str, offset);
    while IsDigit(c)
      invariant first <= offset <= |str| && c == At(str, offset)
      invariant expStr == sign + str[first..offset]
      invariant RunEnd(str, offset, IsDigit) == RunEnd(str, first, IsDigit)
      decreases |str| - offset
    {
      expStr := expStr + [c];
      offset := offset + 1;
      c := At(str, offset);
    }
    r := FinishExponent(expStr, c, val, isDouble, offset);
  }

  /** The follower test after an exponent, and the conversions. */
  method FinishExponent(expStr: string, c: char, val: string, isDouble: bool, offset: nat) returns (r: Parsed)
    requires isDouble == ('.' in val)
    ensures r == if !IsFollower(c) then Done(Null, offset + 1)
                 else
                   match Stoll(expStr)
                   case Err(err) => Throws(err)
                   case Ok(exp) => Finish(Convert(val, Some(exp)), offset)
  {
    hide Stoll, Convert, Finish;
    if !IsFollower(c) {
      return Done(Null, offset + 1);
    }
    var e := Stoll(expStr);
    if e.Err? {
      return Throws(e.error);
    }
    var n := ConvertNumber(val, isDouble, Some(e.value));
    r := Finish(n, offset);
  }

  /** The conversions at the end of `parse_number`. */
  method ConvertNumber(val: string, isDouble: bool, exp: Option<int64>) returns (n: Result<Value>)
    requires isDouble == ('.' in val)
    ensures n == Convert(val, exp)
  {
    if isDouble {
      var f := Stod(val);
      if f.Err? {
        return Err(f.error);
      }
      n := Ok(Floating(Scale(f.value, if exp.Some? then exp.value else 0)));
    } else {
      var i := Stoll(val);
      if i.Err? {
        return Err(i.error);
      }
      if exp.Some? {
        n := Ok(Floating(Scale(FromInt(i.value), exp.value)));
      } else {
        n := Ok(Integral(i.value));
      }
    }
  }

  method ParseBool(str: string, offset: nat) returns (r: Parsed)
    requires offset <= |str|
    ensures r == G.ParseBool(str, offset)
  {
    if HasAt(str, offset, "true") {
      r := Done(Boolean(true), offset + 4);
    } else if HasAt(str, offset, "false") {
      r := Done(Boolean(false), offset + 5);
    } else {
      r := Done(Null, offset);
    }
  }

  method ParseNull(str: string, offset: nat) returns (r: Parsed)
    requires offset <= |str|
    ensures r == G.ParseNull(str, offset)
  {
    if !HasAt(str, offset, "null") {
      return Done(Null, offset);
    }
    r := Done(Null, offset + 4);
  }

  method ParseNext(str: string, start: nat) returns (r: Parsed)
    ensures r == G.ParseNext(str, start)
    decreases |str| - start, 3
  {
    if start > |str| {
      return OutOfBounds;
    }
    var offset := ConsumeWs(str, start);
    var value := At(str, offset);
    match value {
      case '[' => r := ParseArray(str, offset);
      case '{' => r := ParseObject(str, offset);
      case '\"' => r := ParseString(str, offset);
      case 't' => r := ParseBool(str, offset);
      case 'f' => r := ParseBool(str, offset);
      case 'n' => r := ParseNull(str, offset);
      case _ =>
        if IsDigit(value) || value == '-' {
          r := ParseNumber(str, offset);
        } else {
          r := Done(Null, offset);
        }
    }
  }

  method Load(str: string) returns (r: Parsed)
    ensures r == G.Load(str)
  {
    r := ParseNext(str, 0);
  }
}
