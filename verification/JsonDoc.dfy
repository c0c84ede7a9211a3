/** Written-out JSON: a value together with its layout, and the proof that the parser reads every
    layout of a value alike. */
module JsonDoc {
  import opened Chars
  import opened Escapes
  import opened OrderedMap
  import opened JsonValue
  import opened JsonGrammar

  /** A document: every choice a writer has. Strings come with the spelling of each character,
      numbers with their digits, containers with the white space at each gap. An object lists its
      members in the order they are written, repeated keys included. */
  datatype Doc =
    | DNull
    | DBool(truth: bool)
    | DString(atoms: seq<Atom>)
    | DNumber(lex: string)
    | DArray(blank: string, items: seq<Item>)
    | DObject(blank: string, entries: seq<Entry>)

  /** A document between two runs of white space. */
  datatype Item = Item(before: string, doc: Doc, after: string)

  datatype Entry = Entry(before: string, key: seq<Atom>, beforeColon: string, value: Item)

  // The text of a document

  function StringText(atoms: seq<Atom>): string {
    "\"" + (AtomsText(atoms) + "\"")
  }

  function DocText(d: Doc): string {
    match d
    case DNull => "null"
    case DBool(b) => if b then "true" else "false"
    case DString(atoms) => StringText(atoms)
    case DNumber(lex) => lex
    case DArray(blank, items) => "[" + ((if items == [] then blank else ItemsText(items)) + "]")
    case DObject(blank, entries) => "{" + ((if entries == [] then blank else EntriesText(entries)) + "}")
  }

  function ItemText(i: Item): string {
    i.before + (DocText(i.doc) + i.after)
  }

  function ItemsText(items: seq<Item>): string {
    if items == [] then ""
    else if |items| == 1 then ItemText(items[0])
    else ItemText(items[0]) + ("," + ItemsText(items[1..]))
  }

  function EntryText(e: Entry): string {
    e.before + (StringText(e.key) + (e.beforeColon + (":" + ItemText(e.value))))
  }

  function EntriesText(entries: seq<Entry>): string {
    if entries == [] then ""
    else if |entries| == 1 then EntryText(entries[0])
    else EntryText(entries[0]) + ("," + EntriesText(entries[1..]))
  }

  // Well-formed documents

  predicate Blank(ws: string) {
    All(ws, IsSpace)
  }

  /** A numeral that the conversion functions accept. */
  predicate IsNumeral(lex: string) {
    && lex != [] && (lex[0] == '-' || IsDigit(lex[0]))
    && All(lex, IsNumberChar)
    && Convert(lex, None).Ok?
  }

  predicate ValidDoc(d: Doc) {
    match d
    case DNull => true
    case DBool(_) => true
    case DString(atoms) => ValidAtoms(atoms)
    case DNumber(lex) => IsNumeral(lex)
    case DArray(blank, items) => Blank(blank) && ValidItems(items)
    case DObject(blank, entries) => Blank(blank) && ValidEntries(entries)
  }

  predicate ValidItem(i: Item) {
    Blank(i.before) && ValidDoc(i.doc) && Blank(i.after)
  }

  predicate ValidItems(items: seq<Item>) {
    items != [] ==> ValidItem(items[0]) && ValidItems(items[1..])
  }

  predicate ValidEntry(e: Entry) {
    Blank(e.before) && ValidAtoms(e.key) && Blank(e.beforeColon) && ValidItem(e.value)
  }

  predicate ValidEntries(entries: seq<Entry>) {
    entries != [] ==> ValidEntry(entries[0]) && ValidEntries(entries[1..])
  }

  // The value of a document

  function Meaning(d: Doc): Value
    requires ValidDoc(d)
  {
    match d
    case DNull => Null
    case DBool(b) => Boolean(b)
    case DString(atoms) => String(AtomsMeaning(atoms))
    case DNumber(lex) => Convert(lex, None).value
    case DArray(_, items) => Array(Meanings(items))
    case DObject(_, entries) => Object(PutAll([], MemberList(entries)))
  }

  function Meanings(items: seq<Item>): seq<Value>
    requires ValidItems(items)
  {
    if items == [] then []
    else
      assert ValidItem(items[0]);
      [Meaning(items[0].doc)] + Meanings(items[1..])
  }

  /** A member as `parse_object` stores it: under its escaped key. */
  function MemberOf(e: Entry): Member
    requires ValidEntry(e)
  {
    assert ValidItem(e.value);
    Pair(Escape(AtomsMeaning(e.key)), Meaning(e.value.doc))
  }

  function MemberList(entries: seq<Entry>): seq<Member>
    requires ValidEntries(entries)
  {
    if entries == [] then [] else [MemberOf(entries[0])] + MemberList(entries[1..])
  }

  // White space

  /** A gap may hold any of the six characters. */
  lemma BlankIff(ws: string)
    ensures Blank(ws) <==> forall k :: 0 <= k < |ws| ==> ws[k] in " \t\n\U{0B}\U{0C}\r"
  {
    forall k | 0 <= k < |ws|
      ensures IsSpace(ws[k]) <==> ws[k] in " \t\n\U{0B}\U{0C}\r"
    {
      ClassMembers(ws[k]);
    }
  }

  lemma SkipBlank(s: string, o: nat, ws: string)
    requires HasAt(s, o, ws) && Blank(ws)
    ensures SkipWs(s, o) == SkipWs(s, o + |ws|)
  {
    var e := SkipWs(s, o + |ws|);
    forall k | o <= k < e
      ensures IsSpace(s[k])
    {
      if k < o + |ws| {
        assert s[k] == ws[k - o];
      }
    }
    RunEndIs(s, o, e, IsSpace);
  }

  lemma NoSkip(s: string, o: nat)
    requires o <= |s| && !IsSpace(At(s, o))
    ensures SkipWs(s, o) == o
  {
  }

  /** Whoever parses may skip white space first. */
  lemma ParseNextAfterSpace(s: string, o: nat, p: nat)
    requires o <= |s| && p <= |s| && SkipWs(s, o) == SkipWs(s, p)
    ensures ParseNext(s, o) == ParseNext(s, p)
  {
  }

  lemma SkipIsIdempotent(s: string, o: nat)
    requires o <= |s|
    ensures SkipWs(s, SkipWs(s, o)) == SkipWs(s, o)
  {
    NoSkip(s, SkipWs(s, o));
  }

  lemma FirstAt(s: string, o: nat, t: string)
    requires t != [] && HasAt(s, o, t)
    ensures o + |t| <= |s| && s[o] == t[0]
  {
    assert s[o] == s[o..o + |t|][0];
  }

  /** A text that starts with something visible, between two runs of white space. */
  lemma Sandwich(s: string, o: nat, before: string, text: string, after: string)
    requires Blank(before) && Blank(after) && text != [] && !IsSpace(text[0])
    requires HasAt(s, o, before + (text + after))
    requires !IsSpace(At(s, o + |before| + |text| + |after|))
    ensures var b := o + |before|;
            var e := b + |text|;
            && HasAt(s, b, text) && HasAt(s, e, after)
            && SkipWs(s, o) == SkipWs(s, b) == b && At(s, b) == text[0]
            && SkipWs(s, e) == e + |after|
            && At(s, e) == if after == [] then At(s, e + |after|) else after[0]
  {
    hide HasAt, SkipWs, IsSpace;
    HasAtSplit(s, o, before, text + after);
    var b := o + |before|;
    HasAtSplit(s, b, text, after);
    var e := b + |text|;
    FirstAt(s, b, text);
    if after != [] {
      FirstAt(s, e, after);
    }
    SkipBlank(s, o, before);
    NoSkip(s, b);
    SkipBlank(s, e, after);
    NoSkip(s, e + |after|);
  }

  // Strings

  lemma DecodedAtom(s: string, i: nat, acc: string, a: Atom)
    requires a.Valid() && HasAt(s, i, a.Text())
    ensures ParseStringBody(s, i, acc) == ParseStringBody(s, i + |a.Text()|, acc + a.Meaning())
  {
    match a
    case Plain(c) =>
      assert s[i..i + 1][0] == s[i];
    case Known(code) =>
      assert s[i..i + 2][0] == s[i] && s[i..i + 2][1] == s[i + 1];
    case Unknown(code) =>
      assert s[i..i + 2][0] == s[i] && s[i..i + 2][1] == s[i + 1];
    case Unicode(hex) =>
      HasAtSplit(s, i, "\\u", hex);
      assert s[i..i + 2][0] == s[i] && s[i..i + 2][1] == s[i + 1];
      assert s[i + 2..i + 6] == hex;
      assert acc + "\\u" + hex == acc + ("\\u" + hex);
  }

  lemma NoAtoms()
    ensures ValidAtoms([]) && AtomsText([]) == "" && AtomsMeaning([]) == ""
  {
  }

  lemma FirstAtom(atoms: seq<Atom>)
    requires atoms != [] && ValidAtoms(atoms)
    ensures atoms[0].Valid() && ValidAtoms(atoms[1..])
    ensures AtomsText(atoms) == atoms[0].Text() + AtomsText(atoms[1..])
    ensures AtomsMeaning(atoms) == atoms[0].Meaning() + AtomsMeaning(atoms[1..])
  {
    hide Atom.Text, Atom.Meaning, Atom.Valid;
  }

  lemma ClosingQuote(s: string, i: nat, acc: string)
    requires HasAt(s, i, "\"")
    ensures i < |s| && ParseStringBody(s, i, acc) == Done(String(acc), i + 1)
  {
    assert s[i..i + 1][0] == s[i];
  }

  /** The body of a literal, in any accepted spelling, is read up to just past its closing quote. */
  lemma {:induction false} ParseAtoms(s: string, i: nat, acc: string, atoms: seq<Atom>)
    requires ValidAtoms(atoms) && HasAt(s, i, AtomsText(atoms) + "\"")
    ensures ParseStringBody(s, i, acc) == Done(String(acc + AtomsMeaning(atoms)), i + |AtomsText(atoms)| + 1)
    decreases |atoms|
  {
    hide ParseStringBody, Atom.Text, Atom.Meaning, Atom.Valid, AtomsText, AtomsMeaning, HasAt;
    if atoms == [] {
      NoAtoms();
      assert acc + "" == acc && "" + "\"" == "\"";
      ClosingQuote(s, i, acc);
    } else {
      var a := atoms[0];
      var rest := AtomsText(atoms[1..]);
      FirstAtom(atoms);
      AssocCat(a.Text(), rest, "\"");
      HasAtSplit(s, i, a.Text(), rest + "\"");
      DecodedAtom(s, i, acc, a);
      ParseAtoms(s, i + |a.Text()|, acc + a.Meaning(), atoms[1..]);
      AssocCat(acc, a.Meaning(), AtomsMeaning(atoms[1..]));
    }
  }

  lemma ParseStringText(s: string, o: nat, atoms: seq<Atom>)
    requires ValidAtoms(atoms) && HasAt(s, o, StringText(atoms))
    ensures o < |s| && s[o] == '\"'
    ensures ParseNext(s, o) == Done(String(AtomsMeaning(atoms)), o + |StringText(atoms)|)
  {
    HasAtHead(s, o, '\"', AtomsText(atoms) + "\"");
    ParseAtoms(s, o + 1, "", atoms);
    NoSkip(s, o);
    assert "" + AtomsMeaning(atoms) == AtomsMeaning(atoms);
  }

  // Scalars

  lemma ParseNumeral(s: string, o: nat, lex: string)
    requires IsNumeral(lex) && HasAt(s, o, lex) && IsFollower(At(s, o + |lex|))
    ensures ParseNext(s, o) == Done(Convert(lex, None).value, o + |lex|)
  {
    hide *;
    FirstOfNumeral(s, o, lex);
    StartsNumber(s, o);
    NumeralIsRead(s, o, lex);
  }

  lemma FirstOfNumeral(s: string, o: nat, lex: string)
    requires IsNumeral(lex) && HasAt(s, o, lex)
    ensures o < |s| && (IsDigit(s[o]) || s[o] == '-')
  {
    hide Convert;
    assert s[o] == lex[0];
  }

  lemma StartsNumber(s: string, o: nat)
    requires o < |s| && (IsDigit(s[o]) || s[o] == '-')
    ensures ParseNext(s, o) == ParseNumber(s, o)
  {
    hide ParseNumber;
    NoSkip(s, o);
  }

  lemma NumeralIsRead(s: string, o: nat, lex: string)
    requires IsNumeral(lex) && HasAt(s, o, lex) && IsFollower(At(s, o + |lex|))
    ensures ParseNumber(s, o) == Done(Convert(lex, None).value, o + |lex|)
  {
    hide Convert, ParseExponent;
    RunEndOf(s, o, lex, IsNumberChar);
  }

  lemma ParseWord(s: string, o: nat, d: Doc)
    requires d.DNull? || d.DBool?
    requires HasAt(s, o, DocText(d))
    ensures ParseNext(s, o) == Done(Meaning(d), o + |DocText(d)|)
  {
    assert s[o] == s[o..o + |DocText(d)|][0] == DocText(d)[0];
    NoSkip(s, o);
    if d.DBool? && !d.truth {
      assert s[o] == 'f';
      assert s[o..o + 4] != "true" by {
        assert s[o..o + 4][0] == 'f';
      }
    }
  }

  /** No document starts with white space, a bracket that closes, or a separator. */
  lemma DocStart(d: Doc)
    requires ValidDoc(d)
    ensures DocText(d) != []
    ensures var c := DocText(d)[0]; !IsSpace(c) && c != ']' && c != '}' && c != ','
  {
  }

  // The main induction

  /** Every layout of a value is read as that value, in place, and left at its end; a number
      needs one of its followers next. */
  lemma {:induction false} ParseDoc(s: string, o: nat, d: Doc)
    requires ValidDoc(d) && HasAt(s, o, DocText(d))
    requires d.DNumber? ==> IsFollower(At(s, o + |DocText(d)|))
    ensures ParseNext(s, o) == Done(Meaning(d), o + |DocText(d)|)
    decreases d, 1
  {
    match d
    case DNull => ParseWord(s, o, d);
    case DBool(_) => ParseWord(s, o, d);
    case DString(atoms) => ParseStringText(s, o, atoms);
    case DNumber(lex) => ParseNumeral(s, o, lex);
    case DArray(blank, items) => ParseArrayDoc(s, o, blank, items);
    case DObject(blank, entries) => ParseObjectDoc(s, o, blank, entries);
  }

  /** A document between white space, up to something visible. */
  lemma {:induction false} ParseItemUpTo(s: string, o: nat, i: Item)
    requires ValidItem(i) && HasAt(s, o, ItemText(i))
    requires var c := At(s, o + |ItemText(i)|); !IsSpace(c) && (i.doc.DNumber? && i.after == [] ==> IsFollower(c))
    ensures var e := o + |i.before| + |DocText(i.doc)|;
            && ParseNext(s, o) == Done(Meaning(i.doc), e)
            && SkipWs(s, e) == o + |ItemText(i)|
    ensures SkipWs(s, o) == o + |i.before|
    ensures At(s, o + |i.before|) == DocText(i.doc)[0]
    decreases i, 2
  {
    hide ParseNext, Meaning, DocText, IsSpace;
    var b := o + |i.before|;
    DocStart(i.doc);
    Sandwich(s, o, i.before, DocText(i.doc), i.after);
    ParseDoc(s, b, i.doc);
    ParseNextAfterSpace(s, o, b);
  }

  lemma {:induction false} ParseItem(s: string, o: nat, i: Item)
    requires ValidItem(i) && HasAt(s, o, ItemText(i))
    requires var c := At(s, o + |ItemText(i)|); c == ',' || c == ']' || c == '}'
    ensures var e := o + |i.before| + |DocText(i.doc)|;
            && ParseNext(s, o) == Done(Meaning(i.doc), e)
            && SkipWs(s, e) == o + |ItemText(i)|
    ensures SkipWs(s, o) == o + |i.before|
    ensures At(s, o + |i.before|) == DocText(i.doc)[0]
    decreases i, 3
  {
    hide ParseNext, Meaning, DocText, ItemText, At;
    ParseItemUpTo(s, o, i);
  }

  lemma ItemsMayStartLater(s: string, o: nat, acc: seq<Value>)
    requires 0 < o <= |s|
    ensures ParseItems(s, SkipWs(s, o), acc) == ParseItems(s, o, acc)
  {
    SkipIsIdempotent(s, o);
    ParseNextAfterSpace(s, o, SkipWs(s, o));
  }

  lemma StartsItems(s: string, p: nat)
    requires p < |s| && s[p] == '[' && At(s, SkipWs(s, p + 1)) != ']'
    ensures ParseNext(s, p) == ParseItems(s, p + 1, [])
  {
    hide ParseItems;
    NoSkip(s, p);
    assert ParseNext(s, p) == ParseArray(s, p) by {
      hide ParseArray;
    }
    hide ParseNext;
    ItemsMayStartLater(s, p + 1, []);
  }

  lemma EmptyArray(s: string, o: nat, blank: string)
    requires Blank(blank) && HasAt(s, o, "[" + (blank + "]"))
    ensures ParseNext(s, o) == Done(Array([]), o + |blank| + 2)
  {
    hide ParseItems, IsSpace;
    HasAtHead(s, o, '[', blank + "]");
    HasAtSplit(s, o + 1, blank, "]");
    HasAtHead(s, o + 1 + |blank|, ']', "");
    assert !IsSpace('[') && !IsSpace(']') by {
      BracketsAreVisible();
    }
    SkipBlank(s, o + 1, blank);
    NoSkip(s, o);
    NoSkip(s, o + 1 + |blank|);
  }

  lemma BracketsAreVisible()
    ensures !IsSpace('[') && !IsSpace(']') && !IsSpace('{') && !IsSpace('}') && !IsSpace('\"')
  {
  }

  lemma {:induction false} ParseArrayDoc(s: string, o: nat, blank: string, items: seq<Item>)
    requires var d := DArray(blank, items); ValidDoc(d) && HasAt(s, o, DocText(d))
    ensures var d := DArray(blank, items); ParseNext(s, o) == Done(Meaning(d), o + |DocText(d)|)
    decreases items, 4
  {
    hide ParseNext, ParseItems, ItemsText, HasAt, SkipWs, At;
    if items == [] {
      EmptyArray(s, o, blank);
    } else {
      HasAtHead(s, o, '[', ItemsText(items) + "]");
      ParseItemsDoc(s, o + 1, [], items);
      StartsItems(s, o);
      assert [] + Meanings(items) == Meanings(items);
    }
  }

  lemma SplitAtComma(s: string, o: nat, first: string, others: string, close: string)
    requires HasAt(s, o, (first + ("," + others)) + close)
    ensures o + |first| < |s| && HasAt(s, o, first) && At(s, o + |first|) == ','
    ensures HasAt(s, o + |first| + 1, others + close)
  {
    AssocCat(first, "," + others, close);
    AssocCat(",", others, close);
    HasAtSplit(s, o, first, "," + (others + close));
    HasAtHead(s, o + |first|, ',', others + close);
  }

  /** The only element of a list, and the bracket after it. */
  lemma OneItem(s: string, o: nat, items: seq<Item>)
    requires |items| == 1 && HasAt(s, o, ItemsText(items) + "]")
    ensures var e := o + |ItemText(items[0])|;
            e < |s| && HasAt(s, o, ItemText(items[0])) && At(s, e) == ']' && e == o + |ItemsText(items)|
  {
    hide ItemText;
    var first := ItemText(items[0]);
    HasAtSplit(s, o, first, "]");
    HasAtHead(s, o + |first|, ']', "");
  }

  /** The first of several elements, and the list after its comma. */
  lemma MoreItems(s: string, o: nat, items: seq<Item>)
    requires |items| > 1 && HasAt(s, o, ItemsText(items) + "]")
    ensures var e := o + |ItemText(items[0])|;
            && e < |s| && HasAt(s, o, ItemText(items[0])) && At(s, e) == ','
            && HasAt(s, e + 1, ItemsText(items[1..]) + "]")
            && e + 1 + |ItemsText(items[1..])| == o + |ItemsText(items)|
  {
    hide *;
    ItemsTextMore(items);
    SplitAtComma(s, o, ItemText(items[0]), ItemsText(items[1..]), "]");
  }

  lemma ItemsTextMore(items: seq<Item>)
    requires |items| > 1
    ensures ItemsText(items) == ItemText(items[0]) + ("," + ItemsText(items[1..]))
  {
    hide ItemText;
  }

  lemma {:induction false} ParseItemRound(s: string, o: nat, acc: seq<Value>, i: Item)
    requires 0 < o && ValidItem(i) && HasAt(s, o, ItemText(i))
    requires var c := At(s, o + |ItemText(i)|); c == ',' || c == ']'
    ensures var p := o + |ItemText(i)|;
            var acc' := acc + [Meaning(i.doc)];
            ParseItems(s, o, acc) == if At(s, p) == ',' then ParseItems(s, p + 1, acc') else Done(Array(acc'), p + 1)
    ensures At(s, SkipWs(s, o)) != ']'
    decreases i, 4
  {
    hide ParseNext, ParseItems, Meaning, DocText;
    var e := o + |i.before| + |DocText(i.doc)|;
    ParseItem(s, o, i);
    DocStart(i.doc);
    ItemsRound(s, o, acc, Meaning(i.doc), e);
  }

  lemma {:induction false} ParseItemsDoc(s: string, o: nat, acc: seq<Value>, items: seq<Item>)
    requires 0 < o && items != [] && ValidItems(items) && HasAt(s, o, ItemsText(items) + "]")
    ensures ParseItems(s, o, acc) == Done(Array(acc + Meanings(items)), o + |ItemsText(items)| + 1)
    ensures At(s, SkipWs(s, o)) != ']'
    decreases items, 3
  {
    hide *;
    var i := items[0];
    MeaningsOf(items);
    if |items| == 1 {
      OneItem(s, o, items);
      ParseItemRound(s, o, acc, i);
    } else {
      MoreItems(s, o, items);
      ParseItemRound(s, o, acc, i);
      ParseItemsDoc(s, o + |ItemText(i)| + 1, acc + [Meaning(i.doc)], items[1..]);
      AssocCat(acc, [Meaning(i.doc)], Meanings(items[1..]));
    }
  }

  lemma MeaningsOf(items: seq<Item>)
    requires items != [] && ValidItems(items)
    ensures ValidItem(items[0]) && ValidDoc(items[0].doc) && ValidItems(items[1..])
    ensures Meanings(items) == [Meaning(items[0].doc)] + Meanings(items[1..])
    ensures |items| == 1 ==> Meanings(items) == [Meaning(items[0].doc)]
  {
    hide Meaning, ValidDoc;
    assert |items| == 1 ==> items[1..] == [];
  }

  lemma MembersMayStartLater(s: string, o: nat, acc: seq<Member>)
    requires 0 < o <= |s|
    ensures ParseMembers(s, SkipWs(s, o), acc) == ParseMembers(s, o, acc)
  {
    SkipIsIdempotent(s, o);
    ParseNextAfterSpace(s, o, SkipWs(s, o));
  }

  lemma StartsMembers(s: string, p: nat)
    requires p < |s| && s[p] == '{' && At(s, SkipWs(s, p + 1)) == '\"'
    ensures ParseNext(s, p) == ParseMembers(s, p + 1, [])
  {
    hide ParseMembers;
    NoSkip(s, p);
    assert ParseNext(s, p) == ParseObject(s, p) by {
      hide ParseObject;
    }
    hide ParseNext;
    MembersMayStartLater(s, p + 1, []);
  }

  lemma EmptyObject(s: string, o: nat, blank: string)
    requires Blank(blank) && HasAt(s, o, "{" + (blank + "}"))
    ensures ParseNext(s, o) == Done(Object([]), o + |blank| + 2)
  {
    hide ParseMembers, IsSpace;
    HasAtHead(s, o, '{', blank + "}");
    HasAtSplit(s, o + 1, blank, "}");
    HasAtHead(s, o + 1 + |blank|, '}', "");
    assert !IsSpace('{') && !IsSpace('}') by {
      BracketsAreVisible();
    }
    SkipBlank(s, o + 1, blank);
    NoSkip(s, o);
    NoSkip(s, o + 1 + |blank|);
  }

  lemma {:induction false} ParseObjectDoc(s: string, o: nat, blank: string, entries: seq<Entry>)
    requires var d := DObject(blank, entries); ValidDoc(d) && HasAt(s, o, DocText(d))
    ensures var d := DObject(blank, entries); ParseNext(s, o) == Done(Meaning(d), o + |DocText(d)|)
    decreases entries, 6
  {
    hide ParseNext, ParseMembers, EntriesText, HasAt, SkipWs, At, PutAll;
    if entries == [] {
      EmptyObject(s, o, blank);
      NothingPut();
    } else {
      HasAtHead(s, o, '{', EntriesText(entries) + "}");
      ParseEntriesDoc(s, o + 1, [], entries);
      StartsMembers(s, o);
    }
  }

  lemma NothingPut()
    ensures PutAll<Value>([], []) == []
  {
  }

  /** Where the value of a member starts. */
  function ValueStart(o: nat, e: Entry): nat {
    o + |e.before| + |StringText(e.key)| + |e.beforeColon| + 1
  }

  lemma EntryLayout(s: string, o: nat, e: Entry)
    requires HasAt(s, o, EntryText(e))
    ensures var k := o + |e.before|;
            var c := k + |StringText(e.key)|;
            var v := ValueStart(o, e);
            && HasAt(s, o, e.before) && HasAt(s, k, StringText(e.key)) && HasAt(s, c, e.beforeColon)
            && c < v <= |s| && At(s, v - 1) == ':' && HasAt(s, v, ItemText(e.value))
            && v == c + |e.beforeColon| + 1
            && At(s, k) == '\"' && !IsSpace(At(s, k)) && !IsSpace(At(s, v - 1))
            && v + |ItemText(e.value)| == o + |EntryText(e)|
  {
    hide StringText, ItemText, HasAt;
    var text, item := StringText(e.key), ItemText(e.value);
    var k := o + |e.before|;
    HasAtSplit(s, o, e.before, text + (e.beforeColon + (":" + item)));
    HasAtSplit(s, k, text, e.beforeColon + (":" + item));
    HasAtSplit(s, k + |text|, e.beforeColon, ":" + item);
    HasAtHead(s, k + |text| + |e.beforeColon|, ':', item);
    FirstQuote(s, k, e.key);
  }

  lemma FirstQuote(s: string, k: nat, atoms: seq<Atom>)
    requires HasAt(s, k, StringText(atoms))
    ensures k < |s| && s[k] == '\"'
  {
    HasAtHead(s, k, '\"', AtomsText(atoms) + "\"");
  }

  /** From the key to the first character of the value. */
  lemma ParseKey(s: string, o: nat, acc: seq<Member>, e: Entry)
    requires ValidEntry(e) && HasAt(s, o, EntryText(e))
    ensures ValueStart(o, e) <= |s|
    ensures AfterKey(s, acc, ParseNext(s, o)) == More(MemberOf(e).key, SkipWs(s, ValueStart(o, e)))
    ensures At(s, SkipWs(s, o)) == '\"'
  {
    hide *;
    EntryParts(e);
    EntryLayout(s, o, e);
    var k := o + |e.before|;
    var c := k + |StringText(e.key)|;
    ParseStringText(s, k, e.key);
    SkipTo(s, o, e.before);
    SkipTo(s, c, e.beforeColon);
    ParseNextAfterSpace(s, o, k);
    KeyThenColon(s, acc, ParseNext(s, o), c + |e.beforeColon|);
  }

  lemma EntryParts(e: Entry)
    requires ValidEntry(e)
    ensures Blank(e.before) && ValidAtoms(e.key) && Blank(e.beforeColon) && ValidItem(e.value)
    ensures MemberOf(e).key == String(AtomsMeaning(e.key)).ToString()
    ensures ValidDoc(e.value.doc) && MemberOf(e).val == Meaning(e.value.doc)
  {
    hide Escape, Meaning, ValidAtoms, Blank;
    assert ValidItem(e.value);
  }

  lemma SkipTo(s: string, o: nat, ws: string)
    requires HasAt(s, o, ws) && Blank(ws) && !IsSpace(At(s, o + |ws|))
    ensures o <= |s| && SkipWs(s, o) == o + |ws| == SkipWs(s, o + |ws|)
  {
    SkipBlank(s, o, ws);
    NoSkip(s, o + |ws|);
  }

  lemma KeyThenColon(s: string, acc: seq<Member>, key: Parsed, p: nat)
    requires key.Done? && key.offset <= |s| && SkipWs(s, key.offset) == p < |s| && At(s, p) == ':'
    ensures AfterKey(s, acc, key) == More(key.value.ToString(), SkipWs(s, p + 1))
  {
    hide SkipWs;
  }

  lemma {:induction false} ParseEntry(s: string, o: nat, acc: seq<Member>, e: Entry)
    requires 0 < o && ValidEntry(e) && HasAt(s, o, EntryText(e))
    requires var c := At(s, o + |EntryText(e)|); c == ',' || c == '}'
    ensures var p := o + |EntryText(e)|;
            var acc' := Put(acc, MemberOf(e).key, MemberOf(e).val);
            ParseMembers(s, o, acc)
              == if At(s, p) == ',' then ParseMembers(s, p + 1, acc') else Done(Object(acc'), p + 1)
    ensures At(s, SkipWs(s, o)) == '\"'
    decreases e, 4
  {
    hide *;
    EntryParts(e);
    EntryLayout(s, o, e);
    ParseKey(s, o, acc, e);
    var v := ValueStart(o, e);
    var q := SkipWs(s, v);
    ParseItem(s, v, e.value);
    SkipIsIdempotent(s, v);
    ParseNextAfterSpace(s, v, q);
    MembersRound(s, o, acc, MemberOf(e).key, q, MemberOf(e).val, v + |e.value.before| + |DocText(e.value.doc)|);
  }

  /** The only element of a list, and the bracket after it. */
  lemma OneEntry(s: string, o: nat, entries: seq<Entry>)
    requires |entries| == 1 && HasAt(s, o, EntriesText(entries) + "}")
    ensures var e := o + |EntryText(entries[0])|;
            e < |s| && HasAt(s, o, EntryText(entries[0])) && At(s, e) == '}' && e == o + |EntriesText(entries)|
  {
    hide EntryText;
    var first := EntryText(entries[0]);
    HasAtSplit(s, o, first, "}");
    HasAtHead(s, o + |first|, '}', "");
  }

  /** The first of several elements, and the list after its comma. */
  lemma MoreEntries(s: string, o: nat, entries: seq<Entry>)
    requires |entries| > 1 && HasAt(s, o, EntriesText(entries) + "}")
    ensures var e := o + |EntryText(entries[0])|;
            && e < |s| && HasAt(s, o, EntryText(entries[0])) && At(s, e) == ','
            && HasAt(s, e + 1, EntriesText(entries[1..]) + "}")
            && e + 1 + |EntriesText(entries[1..])| == o + |EntriesText(entries)|
  {
    hide *;
    EntriesTextMore(entries);
    SplitAtComma(s, o, EntryText(entries[0]), EntriesText(entries[1..]), "}");
  }

  lemma EntriesTextMore(entries: seq<Entry>)
    requires |entries| > 1
    ensures EntriesText(entries) == EntryText(entries[0]) + ("," + EntriesText(entries[1..]))
  {
    hide EntryText;
  }

  lemma PutMemberList(acc: seq<Member>, entries: seq<Entry>)
    requires entries != [] && ValidEntries(entries)
    ensures ValidEntry(entries[0]) && ValidEntries(entries[1..])
    ensures var m := MemberOf(entries[0]);
            var acc' := Put(acc, m.key, m.val);
            && PutAll(acc, MemberList(entries)) == PutAll(acc', MemberList(entries[1..]))
            && (|entries| == 1 ==> PutAll(acc, MemberList(entries)) == acc')
  {
    hide Put;
    var m := MemberOf(entries[0]);
    assert MemberList(entries)[1..] == MemberList(entries[1..]);
    assert |entries| == 1 ==> MemberList(entries[1..]) == [];
  }

  lemma {:induction false} ParseEntriesDoc(s: string, o: nat, acc: seq<Member>, entries: seq<Entry>)
    requires 0 < o && entries != [] && ValidEntries(entries) && HasAt(s, o, EntriesText(entries) + "}")
    ensures ParseMembers(s, o, acc) == Done(Object(PutAll(acc, MemberList(entries))), o + |EntriesText(entries)| + 1)
    ensures At(s, SkipWs(s, o)) == '\"'
    decreases entries, 5
  {
    hide *;
    PutMemberList(acc, entries);
    var e := entries[0];
    var m := MemberOf(e);
    if |entries| == 1 {
      OneEntry(s, o, entries);
      ParseEntry(s, o, acc, e);
    } else {
      MoreEntries(s, o, entries);
      ParseEntry(s, o, acc, e);
      ParseEntriesDoc(s, o + |EntryText(e)| + 1, Put(acc, m.key, m.val), entries[1..]);
    }
  }
}
