/** What each `parse_*` function computes, as recursive functions of the text and the offset. */
module JsonGrammar {
  import opened Chars
  import opened Numbers
  import opened Escapes
  import opened OrderedMap
  import opened JsonValue

  /** A parse ends with a value and the offset it left behind, or by reading `str[i]` for some
      `i > str.size()`, or with an exception of the standard library. */
  datatype Parsed =
    | Done(value: Value, offset: nat)
    | OutOfBounds
    | Throws(error: Error)
  {
    /** No step back, at most one step past the end, and that one only after a bad number;
        anything but Null was paid for with at least one character. */
    predicate Progress(s: string, o: nat) {
      Done? ==>
        && o <= offset <= |s| + 1
        && (offset == |s| + 1 ==> value.Null?)
        && (!value.Null? ==> o < offset)
    }
  }

  function ParseBool(s: string, o: nat): (r: Parsed)
    requires o <= |s|
    ensures r.Progress(s, o)
  {
    if HasAt(s, o, "true") then Done(Boolean(true), o + 4)
    else if HasAt(s, o, "false") then Done(Boolean(false), o + 5)
    else Done(Null, o)
  }

  function ParseNull(s: string, o: nat): (r: Parsed)
    requires o <= |s|
    ensures r.Progress(s, o)
  {
    Done(Null, if HasAt(s, o, "null") then o + 4 else o)
  }

  /** The number a collected text denotes; `exp` is there if an exponent was read. */
  function Convert(val: string, exp: Option<int64>): Result<Value> {
    if '.' in val then
      match Stod(val)
      case Err(e) => Err(e)
      case Ok(f) => Ok(Floating(Scale(f, if exp.Some? then exp.value else 0)))
    else
      match Stoll(val)
      case Err(e) => Err(e)
      case Ok(i) => Ok(if exp.Some? then Floating(Scale(FromInt(i), exp.value)) else Integral(i))
  }

  function Finish(n: Result<Value>, o: nat): Parsed {
    match n
    case Err(e) => Throws(e)
    case Ok(v) => Done(v, o)
  }

  function ParseNumber(s: string, o: nat): (r: Parsed)
    requires o <= |s|
    ensures r.Progress(s, o)
  {
    var e := RunEnd(s, o, IsNumberChar);
    var c := At(s, e);
    if c == 'e' || c == 'E' then ParseExponent(s, e + 1, s[o..e])
    else if !IsFollower(c) then Done(Null, e + 1)
    else Finish(Convert(s[o..e], None), e)
  }

  /** From just after the `e`. One character after it is always passed over, two if the first is
      a minus sign, so the first digit of an exponent never counts. */
  function ParseExponent(s: string, o: nat, val: string): (r: Parsed)
    requires o <= |s|
    ensures r.Progress(s, o)
  {
    var minus := At(s, o) == '-';
    var d := if minus then o + 2 else o + 1;
    if d > |s| then OutOfBounds
    else
      var e := RunEnd(s, d, IsDigit);
      if !IsFollower(At(s, e)) then Done(Null, e + 1)
      else
        match Stoll((if minus then "-" else "") + s[d..e])
        case Err(err) => Throws(err)
        case Ok(exp) => Finish(Convert(val, Some(exp)), e)
  }

  /** The four characters after `\u` at `i`, if they are hexadecimal digits. */
  predicate HexFollows(s: string, i: nat) {
    i + 4 <= |s| && All(s[i..i + 4], IsHex)
  }

  /** The body of a string literal from `i` on, `acc` being read already. */
  function ParseStringBody(s: string, i: nat, acc: string): (r: Parsed)
    ensures r.Done? ==> r.value.String? && i < r.offset <= |s|
    decreases |s| - i
  {
    if i > |s| then OutOfBounds
    else
      var c := At(s, i);
      if c == '\"' then Done(String(acc), i + 1)
      else if c != '\\' then ParseStringBody(s, i + 1, acc + [c])
      else
        var code := At(s, i + 1);
        if EscapeMeaning(code).Some? then ParseStringBody(s, i + 2, acc + [EscapeMeaning(code).value])
        else if code != 'u' then ParseStringBody(s, i + 2, acc + "\\")
        else if HexFollows(s, i + 2) then ParseStringBody(s, i + 6, acc + "\\u" + s[i + 2..i + 6])
        else Done(String(""), i + 1)
  }

  function ParseString(s: string, o: nat): (r: Parsed)
    requires o < |s|
    ensures r.Progress(s, o)
  {
    ParseStringBody(s, o + 1, "")
  }

  function ParseNext(s: string, o: nat): (r: Parsed)
    ensures r.Progress(s, o)
    decreases |s| - o, 3
  {
    if o > |s| then OutOfBounds
    else
      var p := SkipWs(s, o);
      var c := At(s, p);
      if c == '[' then ParseArray(s, p)
      else if c == '{' then ParseObject(s, p)
      else if c == '\"' then ParseString(s, p)
      else if c == 't' || c == 'f' then ParseBool(s, p)
      else if c == 'n' then ParseNull(s, p)
      else if IsDigit(c) || c == '-' then ParseNumber(s, p)
      else Done(Null, p)
  }

  function ParseArray(s: string, o: nat): (r: Parsed)
    requires o < |s|
    ensures r.Progress(s, o)
    decreases |s| - o, 2
  {
    var p := SkipWs(s, o + 1);
    if At(s, p) == ']' then Done(Array([]), p + 1) else ParseItems(s, p, [])
  }

  /** What a loop does next: another round, or the result of the whole function. */
  datatype Step<+A> = More(acc: A, offset: nat) | Stop(result: Parsed)

  /** One round of the loop of `parse_array`, after the item is parsed. */
  function AfterItem(s: string, acc: seq<Value>, item: Parsed): (r: Step<seq<Value>>)
    ensures r.More? ==> item.Done? && item.offset < r.offset <= |s|
    ensures r.Stop? && item.Done? ==> r.result.Done? ==> item.offset <= r.result.offset <= |s|
  {
    if !item.Done? then Stop(item)
    else if item.offset > |s| then Stop(OutOfBounds)
    else
      var p := SkipWs(s, item.offset);
      if At(s, p) == ',' then More(acc + [item.value], p + 1)
      else if At(s, p) == ']' then Stop(Done(Array(acc + [item.value]), p + 1))
      else Stop(Done(Array([]), p))
  }

  /** The loop of `parse_array`, `acc` being collected already. */
  function ParseItems(s: string, o: nat, acc: seq<Value>): (r: Parsed)
    requires 0 < o
    ensures r.Progress(s, o - 1)
    decreases |s| - o, 4
  {
    match AfterItem(s, acc, ParseNext(s, o))
    case More(acc', p) => ParseItems(s, p, acc')
    case Stop(r) => r
  }

  function ParseObject(s: string, o: nat): (r: Parsed)
    requires o < |s|
    ensures r.Progress(s, o)
    decreases |s| - o, 2
  {
    var p := SkipWs(s, o + 1);
    if At(s, p) == '}' then Done(Object([]), p + 1) else ParseMembers(s, p, [])
  }

  /** The loop of `parse_object` after the key is parsed: go on to the value, or stop. */
  function AfterKey(s: string, acc: seq<Member>, key: Parsed): (r: Step<string>)
    ensures r.More? ==> key.Done? && key.offset < r.offset <= |s|
    ensures r.Stop? && key.Done? ==> r.result.Done? ==> key.offset <= r.result.offset <= |s|
  {
    if !key.Done? then Stop(key)
    else if key.offset > |s| then Stop(OutOfBounds)
    else
      var p := SkipWs(s, key.offset);
      if At(s, p) != ':' then Stop(Done(Object(acc), p))
      else More(key.value.ToString(), SkipWs(s, p + 1))
  }

  /** The loop of `parse_object` after the value is parsed. */
  function AfterValue(s: string, acc: seq<Member>, key: string, value: Parsed): (r: Step<seq<Member>>)
    ensures r.More? ==> value.Done? && value.offset < r.offset <= |s|
    ensures r.Stop? && value.Done? ==> r.result.Done? ==> value.offset <= r.result.offset <= |s|
  {
    if !value.Done? then Stop(value)
    else if value.offset > |s| then Stop(OutOfBounds)
    else
      var acc' := Put(acc, key, value.value);
      var p := SkipWs(s, value.offset);
      if At(s, p) == ',' then More(acc', p + 1)
      else if At(s, p) == '}' then Stop(Done(Object(acc'), p + 1))
      else Stop(Done(Object(acc'), p))
  }

  /** One round of the loop of `parse_object`. */
  function ParseMember(s: string, o: nat, acc: seq<Member>): (r: Step<seq<Member>>)
    requires 0 < o
    ensures r.More? ==> o < r.offset <= |s|
    ensures r.Stop? ==> r.result.Progress(s, o - 1)
    decreases |s| - o, 4
  {
    match AfterKey(s, acc, ParseNext(s, o))
    case Stop(r) => Stop(r)
    case More(key, p) => AfterValue(s, acc, key, ParseNext(s, p))
  }

  /** The loop of `parse_object`, `acc` being collected already. */
  function ParseMembers(s: string, o: nat, acc: seq<Member>): (r: Parsed)
    requires 0 < o
    ensures r.Progress(s, o - 1)
    decreases |s| - o, 5
  {
    match ParseMember(s, o, acc)
    case Stop(r) => r
    case More(acc', p) => ParseMembers(s, p, acc')
  }

  /** `JSON::Load` */
  function Load(s: string): Parsed {
    ParseNext(s, 0)
  }

  // One round of each loop.

  lemma ItemsRound(s: string, o: nat, acc: seq<Value>, v: Value, e: nat)
    requires 0 < o && e <= |s| && ParseNext(s, o) == Done(v, e)
    ensures var p := SkipWs(s, e);
            && (At(s, p) == ',' ==> ParseItems(s, o, acc) == ParseItems(s, p + 1, acc + [v]))
            && (At(s, p) == ']' ==> ParseItems(s, o, acc) == Done(Array(acc + [v]), p + 1))
  {
    hide ParseNext, SkipWs, At;
  }

  lemma MembersRound(s: string, o: nat, acc: seq<Member>, key: string, q: nat, v: Value, e: nat)
    requires 0 < o && AfterKey(s, acc, ParseNext(s, o)) == More(key, q)
    requires e <= |s| && ParseNext(s, q) == Done(v, e)
    ensures var p := SkipWs(s, e);
            var acc' := Put(acc, key, v);
            && (At(s, p) == ',' ==> ParseMembers(s, o, acc) == ParseMembers(s, p + 1, acc'))
            && (At(s, p) == '}' ==> ParseMembers(s, o, acc) == Done(Object(acc'), p + 1))
  {
    hide ParseNext, AfterKey, Put, SkipWs, At;
  }
}
