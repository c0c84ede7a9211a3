/** JSON values and their printed form. */
module JsonValue {
  import opened Numbers
  import opened Escapes
  import opened OrderedMap

  /** The tree a `JSON` object denotes. An object's members stand in key order. */
  datatype Value =
    | Null
    | Object(members: seq<Pair<Value>>)
    | Array(items: seq<Value>)
    | String(str: string)
    | Floating(float: Float)
    | Integral(num: int64)
    | Boolean(truth: bool)
  {
    predicate IsNumber() {
      Floating? || Integral?
    }

    /** `JSON::ToString`: the escaped characters of a string, nothing for other values. */
    function ToString(): string {
      if String? then Escape(str) else ""
    }

    /** `JSON::ToInt` */
    function ToInt(): int64 {
      if Integral? then num else 0
    }

    /** `JSON::ToFloat` */
    function ToFloat(): Float {
      if Floating? then float else Float(false, 0.0)
    }
  }

  type Member = Pair<Value>

  /** The value after `v[key]`: an object in any case, with a Null member if there was none. */
  function Touch(v: Value, key: string): (r: Value)
    ensures r.Object?
  {
    if !v.Object? then Object([Pair(key, Null)])
    else if Find(v.members, key).Some? then v
    else Object(Put(v.members, key, Null))
  }

  /** What `v[key]` refers to. */
  function Get(v: Value, key: string): Value {
    if !v.Object? then Null
    else
      match Find(v.members, key)
      case Some(child) => child
      case None => Null
  }

  /** The items of an array, none for other values. */
  function ItemsOf(v: Value): seq<Value> {
    if v.Array? then v.items else []
  }

  function Nulls(n: nat): (r: seq<Value>)
    ensures |r| == n && forall i :: 0 <= i < n ==> r[i] == Null
  {
    seq(n, _ => Null)
  }

  /** `resize(n)`, if `n` is more than there are. */
  function PadNulls(items: seq<Value>, n: nat): (r: seq<Value>)
    ensures |r| >= n
  {
    if n <= |items| then items else items + Nulls(n - |items|)
  }

  /** Looking at one member changes no member. */
  lemma GetAfterTouch(v: Value, key: string, other: string)
    ensures Get(Touch(v, key), other) == Get(v, other)
  {
    if v.Object? {
      FindPut(v.members, key, Null, other);
    } else {
      assert [Pair(key, Null)] == Put([], key, Null);
      FindPut([], key, Null, other);
    }
  }

  // JSON::dump

  function Pad(depth: int, tab: string): string {
    if depth <= 0 then "" else Pad(depth - 1, tab) + tab
  }

  /** `pad.erase(0, 2)` */
  function Erase2(pad: string): string {
    if |pad| <= 2 then "" else pad[2..]
  }

  function Print(v: Value, depth: int, tab: string): string {
    match v
    case Null => "null"
    case Object(ms) =>
      "{\n" + (PrintMembers(ms, depth, tab) + ("\n" + (Erase2(Pad(depth, tab)) + "}")))
    case Array(xs) => "[" + (PrintItems(xs, depth + 1, tab) + "]")
    case String(s) => "\"" + (Escape(s) + "\"")
    case Floating(f) => FloatText(f)
    case Integral(i) => IntText(i)
    case Boolean(b) => if b then "true" else "false"
  }

  function PrintMember(m: Member, depth: int, tab: string): string {
    Pad(depth, tab) + ("\"" + (m.key + ("\" : " + Print(m.val, depth + 1, tab))))
  }

  function PrintMembers(ms: seq<Member>, depth: int, tab: string): string {
    if ms == [] then ""
    else if |ms| == 1 then PrintMember(ms[0], depth, tab)
    else PrintMember(ms[0], depth, tab) + (",\n" + PrintMembers(ms[1..], depth, tab))
  }

  function PrintItems(xs: seq<Value>, depth: int, tab: string): string {
    if xs == [] then ""
    else if |xs| == 1 then Print(xs[0], depth, tab)
    else Print(xs[0], depth, tab) + (", " + PrintItems(xs[1..], depth, tab))
  }

  /** `dump()` with its default arguments. */
  function Dump(v: Value): string {
    Print(v, 1, "  ")
  }

  // The printed text, piece by piece

  /** Members stand in the order of the map, each on its line. */
  lemma {:induction false} MembersInARow(a: seq<Member>, b: seq<Member>, depth: int, tab: string)
    requires a != [] && b != []
    ensures PrintMembers(a + b, depth, tab)
         == PrintMembers(a, depth, tab) + (",\n" + PrintMembers(b, depth, tab))
    decreases |a|
  {
    hide PrintMember;
    if |a| == 1 {
      assert (a + b)[1..] == b;
    } else {
      MembersInARow(a[1..], b, depth, tab);
      assert (a + b)[1..] == a[1..] + b;
    }
  }

  /** Items stand in order, on one line. */
  lemma {:induction false} ItemsInARow(a: seq<Value>, b: seq<Value>, depth: int, tab: string)
    requires a != [] && b != []
    ensures PrintItems(a + b, depth, tab) == PrintItems(a, depth, tab) + (", " + PrintItems(b, depth, tab))
    decreases |a|
  {
    hide Print;
    if |a| == 1 {
      assert (a + b)[1..] == b;
    } else {
      ItemsInARow(a[1..], b, depth, tab);
      assert (a + b)[1..] == a[1..] + b;
    }
  }

  /** With two blanks to a tab an object's members are indented by twice the depth, and its closing
      brace by two less. */
  lemma {:induction false} Indentation(depth: nat)
    ensures var pad := Pad(depth, "  ");
            && |pad| == 2 * depth && (forall i :: 0 <= i < |pad| ==> pad[i] == ' ')
            && |Erase2(pad)| == (if depth == 0 then 0 else 2 * depth - 2)
            && forall i :: 0 <= i < |Erase2(pad)| ==> Erase2(pad)[i] == ' '
  {
    if depth > 0 {
      Indentation(depth - 1);
    }
  }

  /** Whatever the tab, two characters are taken off. */
  lemma TwoCharactersOff(pad: string)
    ensures if |pad| <= 2 then Erase2(pad) == "" else exists c, d :: pad == [c, d] + Erase2(pad)
  {
    if |pad| > 2 {
      assert pad == [pad[0], pad[1]] + Erase2(pad);
    }
  }

  lemma Pads()
    ensures Pad(1, "  ") == "  " && Pad(3, "  ") == "      "
  {
    assert Pad(2, "  ") == "    ";
  }

  lemma InnerText()
    ensures Print(Object([Pair("b", Boolean(true))]), 3, "  ") == "{\n      \"b\" : true\n    }"
  {
    hide Pad;
    Pads();
    assert Erase2("      ") == "    ";
  }

  lemma MiddleText(inner: Value, text: string)
    requires Print(inner, 3, "  ") == text
    ensures Print(Array([Integral(-1), inner, Boolean(false)]), 2, "  ") == "[-1, " + (text + ", false]")
  {
    hide Print, IntText;
    var xs := [Integral(-1), inner, Boolean(false)];
    assert xs[1..] == [inner, Boolean(false)] && xs[1..][1..] == [Boolean(false)];
    assert PrintItems([Boolean(false)], 3, "  ") == "false" by {
      PrintedBoolean(false);
    }
    assert PrintItems([inner, Boolean(false)], 3, "  ") == text + (", " + "false");
    PrintedMinusOne();
    PrintedArray(xs);
    assert PrintItems(xs, 3, "  ") == "-1" + (", " + (text + (", " + "false")));
  }

  lemma PrintedBoolean(b: bool)
    ensures Print(Boolean(b), 3, "  ") == if b then "true" else "false"
  {
  }

  lemma PrintedMinusOne()
    ensures Print(Integral(-1), 3, "  ") == "-1"
  {
    DigitValues(1);
  }

  lemma PrintedArray(xs: seq<Value>)
    ensures Print(Array(xs), 2, "  ") == "[" + (PrintItems(xs, 3, "  ") + "]")
  {
  }

  lemma FirstMember(v: Value, text: string)
    requires Print(v, 2, "  ") == text
    ensures PrintMember(Pair("a", v), 1, "  ") == "  \"a\" : " + text
  {
    hide Pad, Print;
    Pads();
    var m := Pair("a", v);
    assert "  " + ("\"" + (m.key + ("\" : " + text))) == "  \"a\" : " + text;
  }

  lemma SecondMember()
    ensures PrintMember(Pair("c", Null), 1, "  ") == "  \"c\" : null"
  {
    hide Pad;
    Pads();
  }

  lemma OuterText(v: Value)
    ensures Dump(Object([Pair("a", v), Pair("c", Null)]))
         == "{\n" + ((PrintMember(Pair("a", v), 1, "  ") + (",\n" + PrintMember(Pair("c", Null), 1, "  ")))
                    + "\n}")
  {
    hide Pad, PrintMember;
    Pads();
    var a, c := Pair("a", v), Pair("c", Null);
    var ms := [a, c];
    assert ms == [a] + [c];
    MembersInARow([a], [c], 1, "  ");
    assert "\n" + (Erase2("  ") + "}") == "\n}";
  }

  /** An object in an array in an object. */
  lemma NestedText()
    ensures var inner := Object([Pair("b", Boolean(true))]);
            Dump(Object([Pair("a", Array([Integral(-1), inner, Boolean(false)])), Pair("c", Null)]))
              == "{\n" + (("  \"a\" : " + ("[-1, " + ("{\n      \"b\" : true\n    }" + ", false]")))
                         + (",\n" + "  \"c\" : null") + "\n}")
  {
    hide Print, Dump, PrintMember;
    var inner := Object([Pair("b", Boolean(true))]);
    var innerText := "{\n      \"b\" : true\n    }";
    var v, text := Array([Integral(-1), inner, Boolean(false)]), "[-1, " + (innerText + ", false]");
    InnerText();
    MiddleText(inner, innerText);
    FirstMember(v, text);
    SecondMember();
    OuterText(v);
  }

  // What printing keeps of a value

  /** Every object's keys are strictly increasing and are texts `json_escape` can produce. */
  ghost predicate Canonical(v: Value) {
    match v
    case Object(ms) =>
      Sorted(ms) && forall i :: 0 <= i < |ms| ==> IsEscaped(ms[i].key) && Canonical(ms[i].val)
    case Array(xs) => forall i :: 0 <= i < |xs| ==> Canonical(xs[i])
    case _ => true
  }

  ghost predicate CanonicalMembers(ms: seq<Member>) {
    forall i :: 0 <= i < |ms| ==> IsEscaped(ms[i].key) && Canonical(ms[i].val)
  }

  ghost predicate CanonicalItems(xs: seq<Value>) {
    forall i :: 0 <= i < |xs| ==> Canonical(xs[i])
  }

  /** The value with every float rounded to six decimals. */
  function Rounded(v: Value): Value {
    match v
    case Object(ms) => Object(RoundedMembers(ms))
    case Array(xs) => Array(RoundedItems(xs))
    case Floating(f) => Floating(RoundedFloat(f))
    case _ => v
  }

  function RoundedMembers(ms: seq<Member>): (r: seq<Member>)
    ensures |r| == |ms|
    ensures forall i :: 0 <= i < |ms| ==> r[i] == Pair(ms[i].key, Rounded(ms[i].val))
  {
    if ms == [] then [] else [Pair(ms[0].key, Rounded(ms[0].val))] + RoundedMembers(ms[1..])
  }

  function RoundedItems(xs: seq<Value>): (r: seq<Value>)
    ensures |r| == |xs|
    ensures forall i :: 0 <= i < |xs| ==> r[i] == Rounded(xs[i])
  {
    if xs == [] then [] else [Rounded(xs[0])] + RoundedItems(xs[1..])
  }

  /** Rounding keeps keys, so it neither makes nor breaks a canonical value. */
  lemma {:induction false} RoundedCanonical(v: Value)
    ensures Canonical(Rounded(v)) <==> Canonical(v)
  {
    match v
    case Object(ms) =>
      hide IsEscaped, Less, Rounded;
      forall i | 0 <= i < |ms|
        ensures Canonical(Rounded(ms[i].val)) <==> Canonical(ms[i].val)
      {
        RoundedCanonical(ms[i].val);
      }
      hide Canonical, Sorted;
      RoundedKeys(ms);
      ObjectCanonical(ms);
      ObjectCanonical(RoundedMembers(ms));
    case Array(xs) =>
      hide Canonical;
      forall i | 0 <= i < |xs|
        ensures Canonical(Rounded(xs[i])) <==> Canonical(xs[i])
      {
        RoundedCanonical(xs[i]);
      }
      ArrayCanonical(xs);
      ArrayCanonical(RoundedItems(xs));
    case _ =>
  }

  lemma ObjectCanonical(ms: seq<Member>)
    ensures Canonical(Object(ms)) <==> Sorted(ms) && CanonicalMembers(ms)
  {
    hide Sorted, IsEscaped;
  }

  lemma ArrayCanonical(xs: seq<Value>)
    ensures Canonical(Array(xs)) <==> CanonicalItems(xs)
  {
  }

  lemma RoundedKeys(ms: seq<Member>)
    ensures Sorted(RoundedMembers(ms)) <==> Sorted(ms)
  {
    hide Less;
    var rs := RoundedMembers(ms);
    assert forall i :: 0 <= i < |ms| ==> rs[i].key == ms[i].key;
    if Sorted(rs) {
      forall i, j | 0 <= i < j < |ms|
        ensures Less(ms[i].key, ms[j].key)
      {
        assert Less(rs[i].key, rs[j].key);
      }
    }
  }

  /** Rounding does not show in the printed text. */
  lemma {:induction false} PrintRounded(v: Value, depth: int, tab: string)
    ensures Print(Rounded(v), depth, tab) == Print(v, depth, tab)
    decreases v
  {
    match v
    case Object(ms) => PrintRoundedMembers(ms, depth, tab);
    case Array(xs) => PrintRoundedItems(xs, depth + 1, tab);
    case Floating(f) => RoundedFloatText(f);
    case _ =>
  }

  lemma {:induction false} PrintRoundedMembers(ms: seq<Member>, depth: int, tab: string)
    ensures PrintMembers(RoundedMembers(ms), depth, tab) == PrintMembers(ms, depth, tab)
    decreases ms
  {
    if ms != [] {
      PrintRounded(ms[0].val, depth + 1, tab);
      PrintRoundedMembers(ms[1..], depth, tab);
      assert RoundedMembers(ms)[1..] == RoundedMembers(ms[1..]);
    }
  }

  lemma {:induction false} PrintRoundedItems(xs: seq<Value>, depth: int, tab: string)
    ensures PrintItems(RoundedItems(xs), depth, tab) == PrintItems(xs, depth, tab)
    decreases xs
  {
    if xs != [] {
      PrintRounded(xs[0], depth, tab);
      PrintRoundedItems(xs[1..], depth, tab);
      assert RoundedItems(xs)[1..] == RoundedItems(xs[1..]);
    }
  }
}
