/** `Price` and its JSON codec. */
module PriceCodec {
  import opened Chars
  import opened Numbers
  import opened Escapes
  import opened OrderedMap
  import opened JsonValue
  import opened JsonGrammar
  import opened JsonDoc
  import opened JsonRoundTrip
  import Parser = JsonParser

  type int32 = i: int | -0x8000_0000 <= i < 0x8000_0000
  type uint64 = u: int | 0 <= u < 0x1_0000_0000_0000_0000

  // Integer conversions, modulo the width of the target

  function ToInt32(i: int64): int32 {
    (i + 0x8000_0000) % 0x1_0000_0000 - 0x8000_0000
  }

  function ToInt64(u: uint64): int64 {
    if u > INT64_MAX then u - 0x1_0000_0000_0000_0000 else u
  }

  function ToUint64(i: int64): uint64 {
    if i < 0 then i + 0x1_0000_0000_0000_0000 else i
  }

  /** The fields of a `Price`. */
  datatype Quote = Quote(symbol: string, symbolName: string, price: Float, quantity: int32, timestamp: uint64)

  /** The assignments of `toJsonObject`, in their order. */
  function QuoteMembers(q: Quote): seq<Member> {
    [ Pair("symbol", String(q.symbol)),
      Pair("symbolName", String(q.symbolName)),
      Pair("price", Floating(q.price)),
      Pair("quantity", Integral(q.quantity)),
      Pair("timestamp", Integral(ToInt64(q.timestamp))) ]
  }

  function QuoteJson(q: Quote): Value {
    Object(PutAll([], QuoteMembers(q)))
  }

  /** `fromJson` on a loaded value. */
  function QuoteOf(v: Value): Quote {
    Quote(Get(v, "symbol").ToString(),
          Get(v, "symbolName").ToString(),
          NumberOf(Get(v, "price")),
          ToInt32(Get(v, "quantity").ToInt()),
          ToUint64(Get(v, "timestamp").ToInt()))
  }

  function NumberOf(v: Value): Float {
    if v.Floating? then v.ToFloat() else FromInt(v.ToInt())
  }

  /** How `fromJson` ends: with a quote, with a `std::exception`, with the string literal it throws
      for a text that loads as Null, or in undefined behaviour. */
  datatype Decoded = Read(quote: Quote) | Failed(error: Error) | Rejected | Undefined

  function Decode(text: string): Decoded {
    match Load(text)
    case OutOfBounds => Undefined
    case Throws(e) => Failed(e)
    case Done(v, _) => if v.Null? then Rejected else Read(QuoteOf(v))
  }

  class Price {
    var symbol: string
    var symbolName: string
    var price: Float
    var quantity: int32
    var timestamp: uint64

    function Fields(): Quote
      reads this
    {
      Quote(symbol, symbolName, price, quantity, timestamp)
    }

    constructor ()
      ensures Fields() == Quote("", "", Float(false, 0.0), 0, 0)
    {
      symbol, symbolName, price, quantity, timestamp := "", "", Float(false, 0.0), 0, 0;
    }

    method ToJsonObject() returns (obj: Value)
      ensures obj == QuoteJson(Fields())
    {
      var members: seq<Member> := [];
      members := Put(members, "symbol", String(symbol));
      members := Put(members, "symbolName", String(symbolName));
      members := Put(members, "price", Floating(price));
      members := Put(members, "quantity", Integral(quantity));
      members := Put(members, "timestamp", Integral(ToInt64(timestamp)));
      FiveAssignments(QuoteMembers(Fields()));
      obj := Object(members);
    }

    /** The fields are overwritten only if the text loads. */
    method FromJson(text: string) returns (r: Decoded)
      modifies this
      ensures r == Decode(text)
      ensures Fields() == if r.Read? then r.quote else old(Fields())
    {
      var loaded := Parser.Load(text);
      match loaded {
        case OutOfBounds => return Undefined;
        case Throws(e) => return Failed(e);
        case Done(_, _) =>
      }
      if loaded.value.Null? {
        return Rejected;
      }
      Assign(loaded.value);
      r := Read(Fields());
    }

    /** The assignments of `fromJson`. Each `obj[key]` adds a missing member to `obj`. */
    method Assign(loaded: Value)
      modifies this
      ensures Fields() == QuoteOf(loaded)
    {
      hide Touch, Get, ToInt32, ToUint64, FromInt, Value.ToString, Value.ToInt, Value.ToFloat;
      var obj := loaded;
      TouchKeeps(obj, "symbol");
      obj := Touch(obj, "symbol");
      symbol := Get(obj, "symbol").ToString();
      TouchKeeps(obj, "symbolName");
      obj := Touch(obj, "symbolName");
      symbolName := Get(obj, "symbolName").ToString();
      TouchKeeps(obj, "quantity");
      obj := Touch(obj, "quantity");
      quantity := ToInt32(Get(obj, "quantity").ToInt());
      TouchKeeps(obj, "timestamp");
      obj := Touch(obj, "timestamp");
      timestamp := ToUint64(Get(obj, "timestamp").ToInt());
      TouchKeeps(obj, "price");
      obj := Touch(obj, "price");
      var priceObj := Get(obj, "price");
      price := if priceObj.Floating? then priceObj.ToFloat() else FromInt(priceObj.ToInt());
    }
  }

  lemma TouchKeeps(v: Value, key: string)
    ensures forall k :: Get(Touch(v, key), k) == Get(v, k)
  {
    forall k
      ensures Get(Touch(v, key), k) == Get(v, k)
    {
      GetAfterTouch(v, key, k);
    }
  }

  lemma PutAllStep(ms: seq<Member>, ps: seq<Member>, i: nat)
    requires i < |ps|
    ensures PutAll(ms, ps[i..]) == PutAll(Put(ms, ps[i].key, ps[i].val), ps[i + 1..])
  {
    assert ps[i..][0] == ps[i] && ps[i..][1..] == ps[i + 1..];
  }

  lemma FiveAssignments(ps: seq<Member>)
    requires |ps| == 5
    ensures PutAll([], ps) == Put(Put(Put(Put(Put([], ps[0].key, ps[0].val), ps[1].key, ps[1].val),
                                          ps[2].key, ps[2].val), ps[3].key, ps[3].val), ps[4].key, ps[4].val)
  {
    hide Put;
    var m1 := Put([], ps[0].key, ps[0].val);
    var m2 := Put(m1, ps[1].key, ps[1].val);
    var m3 := Put(m2, ps[2].key, ps[2].val);
    var m4 := Put(m3, ps[3].key, ps[3].val);
    assert ps[0..] == ps && ps[5..] == [];
    PutAllStep([], ps, 0);
    PutAllStep(m1, ps, 1);
    PutAllStep(m2, ps, 2);
    PutAllStep(m3, ps, 3);
    PutAllStep(m4, ps, 4);
  }

  // Which field gets what

  /** A price: a double as it is, an integer as a double, anything else as zero. */
  predicate IsPrice(price: Float, v: Value) {
    if v.Floating? then price == v.float
    else if v.Integral? then
      price.mag == (if v.num < 0 then 0 - v.num else v.num as int) as real && price.neg == (v.num < 0)
    else price == Float(false, 0.0)
  }

  /** A quantity: the low 32 bits of an integer, and nothing of anything else. */
  predicate IsQuantity(quantity: int32, v: Value) {
    if v.Integral? then (v.num - quantity) % 0x1_0000_0000 == 0 else quantity == 0
  }

  /** A timestamp: the 64 bits of an integer, without a sign. */
  predicate IsTimestamp(timestamp: uint64, v: Value) {
    if v.Integral? then (v.num - timestamp) % 0x1_0000_0000_0000_0000 == 0 else timestamp == 0
  }

  /** A text: of a string, in its escaped form. */
  predicate IsText(text: string, v: Value) {
    if v.String? then text == Escape(v.str) else text == ""
  }

  lemma FieldsOfValue(v: Value)
    ensures IsText(QuoteOf(v).symbol, Get(v, "symbol"))
    ensures IsText(QuoteOf(v).symbolName, Get(v, "symbolName"))
    ensures IsPrice(QuoteOf(v).price, Get(v, "price"))
    ensures IsQuantity(QuoteOf(v).quantity, Get(v, "quantity"))
    ensures IsTimestamp(QuoteOf(v).timestamp, Get(v, "timestamp"))
  {
    hide Get, Escape;
  }

  /** The `i`-th member is the last one of that name. */
  predicate IsLastMember(entries: seq<Entry>, key: string, i: nat)
    requires ValidEntries(entries)
  {
    && i < |entries| && KeyOf(entries, i) == key
    && forall j :: i < j < |entries| ==> KeyOf(entries, j) != key
  }

  /** What the object `d` says under a key, Null if nothing, is `p`. */
  ghost predicate FieldIs(entries: seq<Entry>, key: string, p: Value -> bool)
    requires ValidEntries(entries)
  {
    && (forall i: nat :: IsLastMember(entries, key, i) ==> p(ValueOf(entries, i)))
    && ((forall i :: 0 <= i < |entries| ==> KeyOf(entries, i) != key) ==> p(Null))
  }

  lemma QuoteKeysAreClean()
    ensures Clean("symbol") && Clean("symbolName") && Clean("price") && Clean("quantity") && Clean("timestamp")
  {
  }

  lemma GetsField(d: Doc, key: string, p: Value -> bool)
    requires ValidDoc(d) && d.DObject? && Clean(key)
    requires var r := Load(DocText(d)); r.Done? && p(Get(r.value, key))
    ensures FieldIs(d.entries, key, p)
  {
    hide ParseNext, DocText, Meaning, KeyOf, ValueOf, Find, ValidEntries;
    EscapeClean(key);
    forall i: nat | IsLastMember(d.entries, key, i)
      ensures p(ValueOf(d.entries, i))
    {
      LastMemberWins("", d, "", i);
      assert "" + DocText(d) + "" == DocText(d);
    }
    if forall i :: 0 <= i < |d.entries| ==> KeyOf(d.entries, i) != key {
      MissingMember(d, key);
    }
  }

  /** A quote holds what the object says, field by field. */
  ghost predicate HoldsFields(q: Quote, entries: seq<Entry>)
    requires ValidEntries(entries)
  {
    && FieldIs(entries, "symbol", v => IsText(q.symbol, v))
    && FieldIs(entries, "symbolName", v => IsText(q.symbolName, v))
    && FieldIs(entries, "price", v => IsPrice(q.price, v))
    && FieldIs(entries, "quantity", v => IsQuantity(q.quantity, v))
    && FieldIs(entries, "timestamp", v => IsTimestamp(q.timestamp, v))
  }

  /** `fromJson` on any object, however it is written: every field is what the last member of its name
      says. */
  lemma ObjectIsDecoded(d: Doc)
    requires ValidDoc(d) && d.DObject?
    ensures var r := Decode(DocText(d));
            r.Read? && HoldsFields(r.quote, d.entries)
  {
    hide ParseNext, DocText, Meaning, QuoteOf, Get, Clean, ValidEntries;
    hide IsText, IsPrice, IsQuantity, IsTimestamp, FieldIs;
    EveryLayoutIsReadAlike("", d, "");
    assert "" + DocText(d) + "" == DocText(d);
    MeaningOfObject(d);
    var v := Load(DocText(d)).value;
    var q := QuoteOf(v);
    FieldsOfValue(v);
    QuoteKeysAreClean();
    GetsField(d, "symbol", w => IsText(q.symbol, w));
    GetsField(d, "symbolName", w => IsText(q.symbolName, w));
    GetsField(d, "price", w => IsPrice(q.price, w));
    GetsField(d, "quantity", w => IsQuantity(q.quantity, w));
    GetsField(d, "timestamp", w => IsTimestamp(q.timestamp, w));
  }

  /** What loads as something other than an object or Null gives an empty quote. */
  lemma OtherValuesGiveNothing(text: string)
    ensures var r := Load(text);
            r.Done? && !r.value.Object? && !r.value.Null? ==>
              Decode(text) == Read(Quote("", "", Float(false, 0.0), 0, 0))
  {
    hide ParseNext;
  }

  // The codec through text

  lemma GetQuoteMember(q: Quote, i: nat)
    requires i < 5
    ensures Get(QuoteJson(q), QuoteMembers(q)[i].key) == QuoteMembers(q)[i].val
  {
    QuoteKeysAreDistinct(q);
    LastAssignmentWins([], QuoteMembers(q), i);
  }

  lemma QuoteKeysAreDistinct(q: Quote)
    ensures DistinctKeys(QuoteMembers(q))
  {
    assert "symbol"[1] == 'y' && "symbolName"[6] == 'N' && "price"[1] == 'r';
    assert "quantity"[1] == 'u' && "timestamp"[1] == 'i';
    assert |"symbol"| == 6 && |"symbolName"| == 10 && |"price"| == 5 && |"quantity"| == 8 && |"timestamp"| == 9;
  }

  /** The members of a printed price, in the order in which `dump` writes them; a timestamp of 2^63 or
      more is written as the negative number 2^64 below it. */
  lemma QuoteMembersInOrder(q: Quote)
    ensures QuoteJson(q)
         == Object([ Pair("price", Floating(q.price)),
                     Pair("quantity", Integral(q.quantity)),
                     Pair("symbol", String(q.symbol)),
                     Pair("symbolName", String(q.symbolName)),
                     Pair("timestamp", Integral(if q.timestamp < 0x8000_0000_0000_0000 then q.timestamp
                                                else q.timestamp - 0x1_0000_0000_0000_0000)) ])
  {
    hide PutAll, Sorted, DistinctKeys;
    var ps := QuoteMembers(q);
    QuoteKeysAreSorted([ps[2], ps[3], ps[0], ps[1], ps[4]]);
    QuoteKeysAreDistinct(q);
    InKeyOrder(ps);
  }

  lemma SameMembers<T>(ps: seq<T>)
    requires |ps| == 5
    ensures multiset(ps) == multiset([ps[2], ps[3], ps[0], ps[1], ps[4]])
  {
    var a, b, c := ps[..2], ps[2..4], ps[4..];
    assert ps == (a + b) + c;
    assert [ps[2], ps[3], ps[0], ps[1], ps[4]] == (b + a) + c;
  }

  lemma InKeyOrder(ps: seq<Member>)
    requires |ps| == 5 && DistinctKeys(ps) && Sorted([ps[2], ps[3], ps[0], ps[1], ps[4]])
    ensures PutAll([], ps) == [ps[2], ps[3], ps[0], ps[1], ps[4]]
  {
    hide PutAll, Sorted, DistinctKeys;
    var qs := [ps[2], ps[3], ps[0], ps[1], ps[4]];
    SortedIsDistinct(qs);
    SameMembers(ps);
    OrderOfAssignmentsIsIrrelevant(ps, qs);
    assert [] + qs == qs;
    PutAllInOrder([], qs);
  }

  lemma QuoteKeysAreSorted(ps: seq<Member>)
    requires |ps| == 5 && ps[0].key == "price" && ps[1].key == "quantity" && ps[2].key == "symbol"
    requires ps[3].key == "symbolName" && ps[4].key == "timestamp"
    ensures Sorted(ps)
  {
    assert Less("symbol", "symbolName") by {
      LessIff("symbol", "symbolName");
      assert "symbol" <= "symbolName";
    }
  }

  lemma SortedIsDistinct(ps: seq<Member>)
    requires Sorted(ps)
    ensures DistinctKeys(ps)
  {
    hide Less;
    forall i, j | 0 <= i < j < |ps|
      ensures ps[i].key != ps[j].key
    {
      LessIrreflexive(ps[i].key);
    }
  }

  /** One line of a printed price. */
  function Line(key: string, text: string): string {
    "  \"" + (key + ("\" : " + text))
  }

  lemma LineIsPrinted(m: Member, text: string)
    requires Print(m.val, 2, "  ") == text
    ensures PrintMember(m, 1, "  ") == Line(m.key, text)
  {
    hide Print, Pad;
    Pads();
    assert "  " + ("\"" + (m.key + ("\" : " + text))) == "  \"" + (m.key + ("\" : " + text));
  }

  lemma NextLine(ms: seq<Member>, i: nat)
    requires i + 1 < |ms|
    ensures PrintMembers(ms[i..], 1, "  ")
         == PrintMember(ms[i], 1, "  ") + (",\n" + PrintMembers(ms[i + 1..], 1, "  "))
  {
    hide PrintMember;
    assert ms[i..][0] == ms[i] && ms[i..][1..] == ms[i + 1..];
  }

  lemma FiveLines(ms: seq<Member>)
    requires |ms| == 5
    ensures PrintMembers(ms, 1, "  ")
         == PrintMember(ms[0], 1, "  ") + (",\n" + (PrintMember(ms[1], 1, "  ") + (",\n"
          + (PrintMember(ms[2], 1, "  ") + (",\n" + (PrintMember(ms[3], 1, "  ") + (",\n"
          + PrintMember(ms[4], 1, "  "))))))))
  {
    hide PrintMember;
    assert ms[0..] == ms && ms[4..][0] == ms[4];
    NextLine(ms, 0);
    NextLine(ms, 1);
    NextLine(ms, 2);
    NextLine(ms, 3);
  }

  /** The text of every price. */
  lemma QuoteText(q: Quote)
    ensures Dump(QuoteJson(q))
         == "{\n" + ((Line("price", FloatText(q.price)) + (",\n"
                    + (Line("quantity", IntText(q.quantity)) + (",\n"
                    + (Line("symbol", "\"" + (Escape(q.symbol) + "\"")) + (",\n"
                    + (Line("symbolName", "\"" + (Escape(q.symbolName) + "\"")) + (",\n"
                    + Line("timestamp", IntText(ToInt64(q.timestamp))))))))))) + "\n}")
  {
    hide FloatText, IntText, Escape, QuoteJson, Line, PrintMember, Pad;
    QuoteMembersInOrder(q);
    var ms := QuoteJson(q).members;
    FiveLines(ms);
    LineIsPrinted(ms[0], FloatText(q.price));
    LineIsPrinted(ms[1], IntText(q.quantity));
    LineIsPrinted(ms[2], "\"" + (Escape(q.symbol) + "\""));
    LineIsPrinted(ms[3], "\"" + (Escape(q.symbolName) + "\""));
    LineIsPrinted(ms[4], IntText(ToInt64(q.timestamp)));
    Pads();
    assert "\n" + (Erase2("  ") + "}") == "\n}";
  }

  lemma {:induction false} CleanIsEscaped(k: string)
    requires Clean(k)
    ensures IsEscaped(k)
  {
    EscapeClean(k);
    EscapeIsEscaped(k);
  }

  lemma {:induction false} PutAllCanonical(ms: seq<Member>, ps: seq<Member>)
    requires Sorted(ms) && CanonicalMembers(ms) && CanonicalMembers(ps)
    ensures Canonical(Object(PutAll(ms, ps)))
    decreases |ps|
  {
    if ps != [] {
      PutCanonical(ms, ps[0].key, ps[0].val);
      PutAllCanonical(Put(ms, ps[0].key, ps[0].val), ps[1..]);
    }
  }

  predicate IsScalar(v: Value) {
    !v.Object? && !v.Array?
  }

  lemma CleanMembersAreCanonical(ps: seq<Member>)
    requires forall i :: 0 <= i < |ps| ==> Clean(ps[i].key) && IsScalar(ps[i].val)
    ensures CanonicalMembers(ps) && Canonical(Object(PutAll([], ps)))
  {
    forall i | 0 <= i < |ps|
      ensures IsEscaped(ps[i].key) && Canonical(ps[i].val)
    {
      hide IsEscaped, Clean;
      CleanIsEscaped(ps[i].key);
    }
    hide *;
    EmptyIsCanonical();
    assert CanonicalMembers(ps);
    PutAllCanonical([], ps);
  }

  lemma EmptyIsCanonical()
    ensures Sorted<Value>([]) && CanonicalMembers([])
  {
  }

  lemma QuoteJsonIsCanonical(q: Quote)
    ensures Canonical(QuoteJson(q))
  {
    hide Canonical, CanonicalMembers, PutAll, ToInt64, Clean;
    QuoteKeysAreClean();
    CleanMembersAreCanonical(QuoteMembers(q));
  }

  lemma {:induction false} FindRounded(ms: seq<Member>, k: string)
    ensures Find(RoundedMembers(ms), k)
         == match Find(ms, k) case Some(v) => Some(Rounded(v)) case None => None
  {
    if ms != [] {
      FindRounded(ms[1..], k);
      assert RoundedMembers(ms)[1..] == RoundedMembers(ms[1..]);
    }
  }

  lemma GetRounded(v: Value, k: string)
    ensures Get(Rounded(v), k) == Rounded(Get(v, k))
  {
    if v.Object? {
      FindRounded(v.members, k);
    }
  }

  /** The quote a reader gets: strings escaped, the price at six decimals, the integers unharmed,
      also a timestamp of 2^63 or more, which travels as a negative number. */
  function Received(q: Quote): Quote {
    Quote(Escape(q.symbol), Escape(q.symbolName), RoundedFloat(q.price), q.quantity, q.timestamp)
  }

  lemma QuoteOfJson(q: Quote)
    ensures QuoteOf(Rounded(QuoteJson(q))) == Received(q)
  {
    hide Get, QuoteJson;
    var v := QuoteJson(q);
    forall i | 0 <= i < 5
      ensures Get(Rounded(v), QuoteMembers(q)[i].key) == Rounded(QuoteMembers(q)[i].val)
    {
      GetQuoteMember(q, i);
      GetRounded(v, QuoteMembers(q)[i].key);
    }
    var r := Rounded(v);
    assert Get(r, QuoteMembers(q)[0].key) == String(q.symbol);
    assert Get(r, QuoteMembers(q)[1].key) == String(q.symbolName);
    assert Get(r, QuoteMembers(q)[2].key) == Floating(RoundedFloat(q.price));
    assert Get(r, QuoteMembers(q)[3].key) == Integral(q.quantity);
    assert Get(r, QuoteMembers(q)[4].key) == Integral(ToInt64(q.timestamp));
  }

  /** `fromJson` of `toJson`, for every price. */
  lemma CodecRoundTrip(q: Quote)
    ensures Decode(Dump(QuoteJson(q))) == Read(Received(q))
  {
    QuoteJsonIsCanonical(q);
    LoadInvertsDumpIff(QuoteJson(q));
    QuoteOfJson(q);
  }

  /** The codec is exact on prices in whole millionths whose strings need no escape, and only on
      those. */
  lemma CodecIsExactIff(q: Quote)
    ensures Decode(Dump(QuoteJson(q))) == Read(q)
       <==> Clean(q.symbol) && Clean(q.symbolName) && RoundedFloat(q.price) == q.price
  {
    CodecRoundTrip(q);
    EscapeIsIdentityIff(q.symbol);
    EscapeIsIdentityIff(q.symbolName);
  }
}
