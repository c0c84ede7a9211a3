/** The layout that `dump` chooses, as a document. */
module JsonLayout {
  import opened Chars
  import opened Numbers
  import opened Escapes
  import opened OrderedMap
  import opened JsonValue
  import opened JsonGrammar
  import opened JsonDoc

  ghost function DocOf(v: Value, depth: int, tab: string): Doc
    requires Canonical(v)
    decreases v
  {
    match v
    case Null => DNull
    case Boolean(b) => DBool(b)
    case String(s) => DString(AtomsOf(s))
    case Floating(f) => DNumber(FloatText(f))
    case Integral(i) => DNumber(IntText(i))
    case Array(xs) => DArray("", ItemDocs(xs, depth + 1, tab, ""))
    case Object(ms) => DObject("\n\n" + Erase2(Pad(depth, tab)), EntriesOf(ms, depth, tab))
  }

  ghost function ItemDocs(xs: seq<Value>, depth: int, tab: string, before: string): (items: seq<Item>)
    requires CanonicalItems(xs)
    ensures |items| == |xs|
    decreases xs
  {
    if xs == [] then []
    else [Item(before, DocOf(xs[0], depth, tab), "")] + ItemDocs(xs[1..], depth, tab, " ")
  }

  ghost function EntryOf(m: Member, depth: int, tab: string, after: string): Entry
    requires IsEscaped(m.key) && Canonical(m.val)
    decreases m
  {
    Entry("\n" + Pad(depth, tab), AtomsOf(Unescape(m.key)), " ", Item(" ", DocOf(m.val, depth + 1, tab), after))
  }

  ghost function EntriesOf(ms: seq<Member>, depth: int, tab: string): (entries: seq<Entry>)
    requires CanonicalMembers(ms)
    ensures |entries| == |ms|
    decreases ms
  {
    if ms == [] then []
    else
      [EntryOf(ms[0], depth, tab, if |ms| == 1 then "\n" + Erase2(Pad(depth, tab)) else "")]
      + EntriesOf(ms[1..], depth, tab)
  }

  // Its text is the printed text.

  lemma {:induction false} LayoutText(v: Value, depth: int, tab: string)
    requires Canonical(v)
    ensures DocText(DocOf(v, depth, tab)) == Print(v, depth, tab)
    decreases v
  {
    match v
    case String(s) => AtomsOfSpells(s);
    case Array(xs) =>
      ItemsLayoutText(xs, depth + 1, tab, "");
      assert "" + PrintItems(xs, depth + 1, tab) == PrintItems(xs, depth + 1, tab);
    case Object(ms) => ObjectLayoutText(ms, depth, tab);
    case _ =>
  }

  lemma {:induction false} ItemsLayoutText(xs: seq<Value>, depth: int, tab: string, before: string)
    requires CanonicalItems(xs)
    ensures xs != [] ==> ItemsText(ItemDocs(xs, depth, tab, before)) == before + PrintItems(xs, depth, tab)
    ensures xs == [] ==> PrintItems(xs, depth, tab) == ""
    decreases xs
  {
    hide Print, DocText, DocOf, Canonical, ItemText;
    if xs != [] {
      LayoutText(xs[0], depth, tab);
      ItemsLayoutText(xs[1..], depth, tab, " ");
      FirstItemDoc(xs, depth, tab, before);
      if |xs| > 1 {
        var rest := PrintItems(xs[1..], depth, tab);
        assert "," + (" " + rest) == ", " + rest;
        AssocCat(before, Print(xs[0], depth, tab), ", " + rest);
      }
    }
  }

  lemma FirstItemDoc(xs: seq<Value>, depth: int, tab: string, before: string)
    requires xs != [] && CanonicalItems(xs)
    ensures var items := ItemDocs(xs, depth, tab, before);
            && items != [] && items[1..] == ItemDocs(xs[1..], depth, tab, " ")
            && ItemText(items[0]) == before + DocText(DocOf(xs[0], depth, tab))
  {
    hide DocText, DocOf;
    var text := DocText(DocOf(xs[0], depth, tab));
    assert text + "" == text;
  }

  lemma {:induction false} EntryLayoutText(m: Member, depth: int, tab: string, after: string)
    requires IsEscaped(m.key) && Canonical(m.val)
    ensures EntryText(EntryOf(m, depth, tab, after)) == "\n" + (PrintMember(m, depth, tab) + after)
    decreases m, 0
  {
    hide Print, DocText, DocOf, AtomsText, Pad;
    var pad, text := Pad(depth, tab), Print(m.val, depth + 1, tab);
    LayoutText(m.val, depth + 1, tab);
    AtomsOfSpells(Unescape(m.key));
    EscapeUnescape(m.key);
    assert PrintMember(m, depth, tab) + after == pad + ("\"" + (m.key + ("\" : " + (text + after))));
    assert EntryText(EntryOf(m, depth, tab, after))
        == ("\n" + pad) + (("\"" + (m.key + "\"")) + (" " + (":" + (" " + (text + after)))));
    EntryPieces(pad, m.key, text + after);
  }

  lemma EntryPieces(pad: string, key: string, tail: string)
    ensures ("\n" + pad) + (("\"" + (key + "\"")) + (" " + (":" + (" " + tail))))
         == "\n" + (pad + ("\"" + (key + ("\" : " + tail))))
  {
    assert "\"" + (" " + (":" + (" " + tail))) == "\" : " + tail;
    AssocCat("\n", pad, ("\"" + (key + "\"")) + (" " + (":" + (" " + tail))));
    AssocCat("\"", key + "\"", " " + (":" + (" " + tail)));
    AssocCat(key, "\"", " " + (":" + (" " + tail)));
  }

  lemma {:induction false} EntriesLayoutText(ms: seq<Member>, depth: int, tab: string)
    requires ms != [] && CanonicalMembers(ms)
    ensures EntriesText(EntriesOf(ms, depth, tab))
         == "\n" + (PrintMembers(ms, depth, tab) + ("\n" + Erase2(Pad(depth, tab))))
    decreases ms, 0
  {
    hide PrintMember, EntryText, EntryOf, Erase2, Pad;
    var close := "\n" + Erase2(Pad(depth, tab));
    var entries := EntriesOf(ms, depth, tab);
    var first := PrintMember(ms[0], depth, tab);
    assert entries[1..] == EntriesOf(ms[1..], depth, tab);
    EntryLayoutText(ms[0], depth, tab, if |ms| == 1 then close else "");
    if |ms| > 1 {
      EntriesLayoutText(ms[1..], depth, tab);
      var rest := PrintMembers(ms[1..], depth, tab);
      assert first + "" == first;
      assert "," + ("\n" + (rest + close)) == ",\n" + (rest + close);
      AssocCat("\n", first, ",\n" + (rest + close));
      AssocCat(first, ",\n" + rest, close);
      AssocCat(",\n", rest, close);
    }
  }

  lemma {:induction false} ObjectLayoutText(ms: seq<Member>, depth: int, tab: string)
    requires Canonical(Object(ms))
    ensures DocText(DocOf(Object(ms), depth, tab)) == Print(Object(ms), depth, tab)
    decreases ms, 1
  {
    var erased := Erase2(Pad(depth, tab));
    var body := PrintMembers(ms, depth, tab);
    assert CanonicalMembers(ms);
    if ms == [] {
      assert "{" + (("\n\n" + erased) + "}") == "{\n" + ("" + ("\n" + (erased + "}")));
    } else {
      EntriesLayoutText(ms, depth, tab);
      ObjectPieces(body, erased);
    }
  }

  lemma ObjectPieces(body: string, erased: string)
    ensures "{" + (("\n" + (body + ("\n" + erased))) + "}") == "{\n" + (body + ("\n" + (erased + "}")))
  {
    AssocCat("\n", body + ("\n" + erased), "}");
    AssocCat(body, "\n" + erased, "}");
    AssocCat("\n", erased, "}");
    var tail := body + ("\n" + (erased + "}"));
    assert "{" + ("\n" + tail) == "{\n" + tail;
  }

  // It is well-formed, and its value is the printed one.

  lemma {:induction false} PadIsBlank(depth: int, tab: string)
    requires Blank(tab)
    ensures Blank(Pad(depth, tab)) && Blank(Erase2(Pad(depth, tab)))
    decreases depth
  {
    if depth > 0 {
      PadIsBlank(depth - 1, tab);
    }
  }

  lemma NumeralOfInt(i: int64)
    ensures IsNumeral(IntText(i)) && Convert(IntText(i), None) == Ok(Integral(i))
  {
    IntTextChars(i);
    StollOfIntText(i);
  }

  lemma NumeralOfFloat(f: Float)
    ensures IsNumeral(FloatText(f)) && Convert(FloatText(f), None) == Ok(Floating(RoundedFloat(f)))
  {
    FloatTextChars(f);
    StodOfFloatText(f);
    ScaleByZero(RoundedFloat(f));
  }

  lemma ScaleByZero(f: Float)
    ensures Scale(f, 0) == f
  {
    assert PowReal(0) == 1.0;
  }

  lemma {:induction false} LayoutMeaning(v: Value, depth: int, tab: string)
    requires Canonical(v) && Blank(tab)
    ensures ValidDoc(DocOf(v, depth, tab))
    ensures Meaning(DocOf(v, depth, tab)) == Rounded(v)
    decreases v
  {
    match v
    case Null =>
    case Boolean(_) =>
    case String(s) => AtomsOfSpells(s);
    case Floating(f) => NumeralOfFloat(f);
    case Integral(i) => NumeralOfInt(i);
    case Array(xs) => ItemsLayoutMeaning(xs, depth + 1, tab, "");
    case Object(ms) => ObjectLayoutMeaning(ms, depth, tab);
  }

  lemma {:induction false} ItemsLayoutMeaning(xs: seq<Value>, depth: int, tab: string, before: string)
    requires CanonicalItems(xs) && Blank(tab) && Blank(before)
    ensures var items := ItemDocs(xs, depth, tab, before);
            ValidItems(items) && Meanings(items) == RoundedItems(xs)
    decreases xs
  {
    hide DocOf, Meaning, Rounded, ValidDoc;
    if xs != [] {
      LayoutMeaning(xs[0], depth, tab);
      ItemsLayoutMeaning(xs[1..], depth, tab, " ");
      var items := ItemDocs(xs, depth, tab, before);
      assert items[1..] == ItemDocs(xs[1..], depth, tab, " ");
      assert ValidItem(items[0]);
    }
  }

  lemma {:induction false} EntryLayoutMeaning(m: Member, depth: int, tab: string, after: string)
    requires IsEscaped(m.key) && Canonical(m.val) && Blank(tab) && Blank(after)
    ensures var e := EntryOf(m, depth, tab, after);
            ValidEntry(e) && MemberOf(e) == Pair(m.key, Rounded(m.val))
    decreases m, 0
  {
    hide DocOf, Meaning, Rounded, ValidDoc;
    PadIsBlank(depth, tab);
    LayoutMeaning(m.val, depth + 1, tab);
    AtomsOfSpells(Unescape(m.key));
    EscapeUnescape(m.key);
    assert ValidItem(EntryOf(m, depth, tab, after).value);
  }

  lemma {:induction false} EntriesLayoutMeaning(ms: seq<Member>, depth: int, tab: string)
    requires CanonicalMembers(ms) && Blank(tab)
    ensures var entries := EntriesOf(ms, depth, tab);
            ValidEntries(entries) && MemberList(entries) == RoundedMembers(ms)
    decreases ms, 0
  {
    hide EntryOf, MemberOf, Rounded, ValidEntry, Pad, Erase2;
    if ms != [] {
      var entries := EntriesOf(ms, depth, tab);
      PadIsBlank(depth, tab);
      EntryLayoutMeaning(ms[0], depth, tab, if |ms| == 1 then "\n" + Erase2(Pad(depth, tab)) else "");
      EntriesLayoutMeaning(ms[1..], depth, tab);
      assert entries[1..] == EntriesOf(ms[1..], depth, tab);
    }
  }

  lemma RoundedInOrder(ms: seq<Member>)
    requires Sorted(ms)
    ensures PutAll([], RoundedMembers(ms)) == RoundedMembers(ms)
  {
    var rs := RoundedMembers(ms);
    assert [] + rs == rs;
    PutAllInOrder([], rs);
  }

  lemma ClosingIsBlank(depth: int, tab: string)
    requires Blank(tab)
    ensures Blank("\n\n" + Erase2(Pad(depth, tab)))
  {
    PadIsBlank(depth, tab);
  }

  lemma {:induction false} ObjectLayoutMeaning(ms: seq<Member>, depth: int, tab: string)
    requires Canonical(Object(ms)) && Blank(tab)
    ensures var d := DocOf(Object(ms), depth, tab);
            ValidDoc(d) && Meaning(d) == Rounded(Object(ms))
    decreases ms, 1
  {
    assert CanonicalMembers(ms);
    RoundedInOrder(ms);
    ClosingIsBlank(depth, tab);
    EntriesLayoutMeaning(ms, depth, tab);
    hide MemberList, EntriesOf, ValidEntries, RoundedMembers, PutAll, Pad, Erase2, Blank, Canonical;
  }
}
