/** The scan of `Tidy` rejects no well-formed message without exponents: what is read out of bounds is
    never what somebody wrote out in full. */
module JsonTidy {
  import opened Chars
  import opened Escapes
  import opened JsonGrammar
  import opened JsonDoc
  import opened JsonBounds
  import opened JsonCuts

  // Strings

  lemma PassesAtom(s: string, i: nat, a: Atom)
    requires a.Valid() && HasAt(s, i, a.Text())
    ensures StringEnd(s, i) == StringEnd(s, i + |a.Text()|)
  {
    match a
    case Plain(_) => assert s[i..i + 1][0] == s[i];
    case Known(_) => assert s[i..i + 2][0] == s[i];
    case Unknown(_) => assert s[i..i + 2][0] == s[i];
    case Unicode(hex) =>
      HasAtSplit(s, i, "\\u", hex);
      assert s[i..i + 2][0] == s[i];
      assert s[i + 2..i + 6] == hex;
      HexEnds(s, i + 2);
  }

  lemma {:induction false} ClosedBy(s: string, i: nat, atoms: seq<Atom>)
    requires ValidAtoms(atoms) && HasAt(s, i, AtomsText(atoms) + "\"")
    ensures StringEnd(s, i) == Some(i + |AtomsText(atoms)| + 1)
    decreases |atoms|
  {
    hide Atom.Text, Atom.Meaning, Atom.Valid, AtomsText, HasAt, StringEnd;
    if atoms == [] {
      NoAtoms();
      assert "" + "\"" == "\"";
      QuoteCloses(s, i);
    } else {
      var a, rest := atoms[0], AtomsText(atoms[1..]);
      FirstAtom(atoms);
      AssocCat(a.Text(), rest, "\"");
      HasAtSplit(s, i, a.Text(), rest + "\"");
      PassesAtom(s, i, a);
      ClosedBy(s, i + |a.Text()|, atoms[1..]);
    }
  }

  lemma QuoteCloses(s: string, i: nat)
    requires HasAt(s, i, "\"")
    ensures StringEnd(s, i) == Some(i + 1)
  {
    assert s[i..i + 1][0] == s[i];
  }

  lemma TameString(s: string, o: nat, atoms: seq<Atom>)
    requires ValidAtoms(atoms) && HasAt(s, o, StringText(atoms)) && Tame(s, o + |StringText(atoms)|)
    ensures Tame(s, o)
  {
    hide HasAt, AtomsText, StringEnd;
    HasAtHead(s, o, '\"', AtomsText(atoms) + "\"");
    ClosedBy(s, o + 1, atoms);
  }

  // Everything else

  /** Characters that the scan passes over. */
  predicate Neutral(c: char) {
    c != '\"' && !IsNumberChar(c)
  }

  lemma {:induction false} TamePast(s: string, o: nat, t: string)
    requires HasAt(s, o, t) && All(t, Neutral) && Tame(s, o + |t|)
    ensures Tame(s, o)
    decreases |t|
  {
    if t != [] {
      assert t == [t[0]] + t[1..];
      HasAtHead(s, o, t[0], t[1..]);
      TamePast(s, o + 1, t[1..]);
    }
  }

  lemma OneNeutral(s: string, o: nat, c: char)
    requires o < |s| && s[o] == c && Neutral(c) && Tame(s, o + 1)
    ensures Tame(s, o)
  {
  }

  lemma BlankIsNeutral(ws: string)
    requires Blank(ws)
    ensures All(ws, Neutral)
  {
  }

  lemma TameBlank(s: string, o: nat, ws: string)
    requires Blank(ws) && HasAt(s, o, ws) && Tame(s, o + |ws|)
    ensures Tame(s, o)
  {
    BlankIsNeutral(ws);
    TamePast(s, o, ws);
  }

  /** What may come after a number: nothing, or something that is neither a quote nor an `e`. */
  predicate Leaves(s: string, p: nat)
    requires p <= |s|
  {
    p < |s| ==> s[p] != '\"' && s[p] != 'e' && s[p] != 'E'
  }

  lemma {:induction false} TameNumeral(s: string, o: nat, lex: string)
    requires HasAt(s, o, lex) && All(lex, IsNumberChar) && Leaves(s, o + |lex|) && Tame(s, o + |lex|)
    ensures Tame(s, o) && Leaves(s, o)
    decreases |lex|
  {
    if lex != [] {
      assert lex == [lex[0]] + lex[1..];
      HasAtHead(s, o, lex[0], lex[1..]);
      TameNumeral(s, o + 1, lex[1..]);
    }
  }

  lemma TameWord(s: string, o: nat, d: Doc)
    requires (d.DNull? || d.DBool?) && HasAt(s, o, DocText(d)) && Tame(s, o + |DocText(d)|)
    ensures Tame(s, o)
  {
    hide Tame;
    TamePast(s, o, DocText(d));
  }

  lemma {:induction false} TameDoc(s: string, o: nat, d: Doc)
    requires ValidDoc(d) && HasAt(s, o, DocText(d)) && Tame(s, o + |DocText(d)|)
    requires d.DNumber? ==> Leaves(s, o + |DocText(d)|)
    ensures Tame(s, o)
    decreases d, 1
  {
    hide Tame, HasAt, ItemsText, EntriesText, AtomsText, IsNumberChar;
    match d
    case DNull => TameWord(s, o, d);
    case DBool(_) => TameWord(s, o, d);
    case DString(atoms) => TameString(s, o, atoms);
    case DNumber(lex) => TameNumeral(s, o, lex);
    case DArray(blank, items) => TameArray(s, o, blank, items);
    case DObject(blank, entries) => TameObject(s, o, blank, entries);
  }

  lemma {:induction false} TameArray(s: string, o: nat, blank: string, items: seq<Item>)
    requires var d := DArray(blank, items);
             ValidDoc(d) && HasAt(s, o, DocText(d)) && Tame(s, o + |DocText(d)|)
    ensures Tame(s, o)
    decreases items, 4
  {
    hide Tame, HasAt, ItemsText, IsNumberChar, Neutral;
    var body := if items == [] then blank else ItemsText(items);
    Brackets(s, o, "[", body, "]");
    BracketsAreNeutral();
    OneNeutral(s, o + 1 + |body|, ']');
    if items == [] {
      TameBlank(s, o + 1, blank);
    } else {
      TameItems(s, o + 1, items);
    }
    OneNeutral(s, o, '[');
  }

  lemma {:induction false} TameObject(s: string, o: nat, blank: string, entries: seq<Entry>)
    requires var d := DObject(blank, entries);
             ValidDoc(d) && HasAt(s, o, DocText(d)) && Tame(s, o + |DocText(d)|)
    ensures Tame(s, o)
    decreases entries, 6
  {
    hide Tame, HasAt, EntriesText, IsNumberChar, Neutral;
    var body := if entries == [] then blank else EntriesText(entries);
    Brackets(s, o, "{", body, "}");
    BracketsAreNeutral();
    OneNeutral(s, o + 1 + |body|, '}');
    if entries == [] {
      TameBlank(s, o + 1, blank);
    } else {
      TameEntries(s, o + 1, entries);
    }
    OneNeutral(s, o, '{');
  }

  lemma BracketsAreNeutral()
    ensures Neutral('[') && Neutral(']') && Neutral('{') && Neutral('}') && Neutral(',') && Neutral(':')
  {
  }

  lemma Brackets(s: string, o: nat, open: string, body: string, close: string)
    requires |open| == 1 && |close| == 1 && HasAt(s, o, open + (body + close))
    ensures var p := o + 1 + |body|;
            && p < |s| && s[o] == open[0] && s[p] == close[0] && HasAt(s, o + 1, body) && HasAt(s, o + 1, body + close)
  {
    HasAtHead(s, o, open[0], body + close);
    HasAtSplit(s, o + 1, body, close);
    HasAtHead(s, o + 1 + |body|, close[0], "");
  }

  lemma {:induction false} TameItem(s: string, o: nat, i: Item)
    requires ValidItem(i) && HasAt(s, o, ItemText(i)) && Tame(s, o + |ItemText(i)|)
    requires i.doc.DNumber? ==> Leaves(s, o + |ItemText(i)|)
    ensures Tame(s, o)
    decreases i, 2
  {
    hide Tame, HasAt, DocText;
    var b := o + |i.before|;
    var e := b + |DocText(i.doc)|;
    HasAtSplit(s, o, i.before, DocText(i.doc) + i.after);
    HasAtSplit(s, b, DocText(i.doc), i.after);
    TameBlank(s, e, i.after);
    if i.doc.DNumber? {
      BlankLeaves(s, e, i.after);
    }
    TameDoc(s, b, i.doc);
    TameBlank(s, o, i.before);
  }

  lemma BlankLeaves(s: string, e: nat, ws: string)
    requires Blank(ws) && HasAt(s, e, ws) && Leaves(s, e + |ws|)
    ensures Leaves(s, e)
  {
    if ws != [] {
      FirstAt(s, e, ws);
    }
  }

  lemma {:induction false} TameItems(s: string, o: nat, items: seq<Item>)
    requires items != [] && ValidItems(items) && HasAt(s, o, ItemsText(items) + "]") && Tame(s, o + |ItemsText(items)|)
    ensures Tame(s, o)
    decreases items, 3
  {
    hide *;
    MeaningsOf(items);
    var i := items[0];
    var p := o + |ItemText(i)|;
    BracketsAreNeutral();
    if |items| == 1 {
      OneItem(s, o, items);
      ClosingLeaves(s, p);
    } else {
      MoreItems(s, o, items);
      TameItems(s, p + 1, items[1..]);
      ClosingLeaves(s, p);
      OneNeutral(s, p, ',');
    }
    TameItem(s, o, i);
  }

  lemma ClosingLeaves(s: string, p: nat)
    requires p < |s| && (At(s, p) == ',' || At(s, p) == ']' || At(s, p) == '}')
    ensures Leaves(s, p) && s[p] == At(s, p)
  {
  }

  lemma {:induction false} TameEntry(s: string, o: nat, e: Entry)
    requires ValidEntry(e) && HasAt(s, o, EntryText(e)) && Tame(s, o + |EntryText(e)|)
    requires o + |EntryText(e)| < |s| && Leaves(s, o + |EntryText(e)|)
    ensures Tame(s, o)
    decreases e, 4
  {
    hide *;
    EntryParts(e);
    EntryLayout(s, o, e);
    var k := o + |e.before|;
    var v := ValueStart(o, e);
    TameItem(s, v, e.value);
    AtIs(s, v - 1);
    BracketsAreNeutral();
    OneNeutral(s, v - 1, ':');
    TameBlank(s, k + |StringText(e.key)|, e.beforeColon);
    TameString(s, k, e.key);
    TameBlank(s, o, e.before);
  }

  lemma {:induction false} TameEntries(s: string, o: nat, entries: seq<Entry>)
    requires entries != [] && ValidEntries(entries) && HasAt(s, o, EntriesText(entries) + "}")
    requires Tame(s, o + |EntriesText(entries)|)
    ensures Tame(s, o)
    decreases entries, 5
  {
    hide *;
    PutMemberList([], entries);
    var e := entries[0];
    var p := o + |EntryText(e)|;
    BracketsAreNeutral();
    if |entries| == 1 {
      OneEntry(s, o, entries);
      ClosingLeaves(s, p);
    } else {
      MoreEntries(s, o, entries);
      TameEntries(s, p + 1, entries[1..]);
      ClosingLeaves(s, p);
      OneNeutral(s, p, ',');
    }
    TameEntry(s, o, e);
  }

  lemma LastOfItem(i: Item)
    requires ValidItem(i)
    ensures ItemText(i) != []
    ensures IsNumberChar(ItemText(i)[|ItemText(i)| - 1]) <==> i.doc.DNumber? && i.after == []
  {
    hide DocText, IsNumberChar;
    var text := DocText(i.doc);
    DocStart(i.doc);
    LastOfBlank(i.after);
    var all := ItemText(i);
    assert all[|all| - 1] == if i.after == [] then text[|text| - 1] else i.after[|i.after| - 1];
    if i.doc.DNumber? {
      LastOfNumeral(i.doc);
    } else {
      DocEnd(i.doc);
    }
  }

  lemma LastOfNumeral(d: Doc)
    requires ValidDoc(d) && d.DNumber?
    ensures DocText(d) != [] && IsNumberChar(DocText(d)[|DocText(d)| - 1])
  {
    hide Convert, IsNumberChar;
  }

  /** A message that is written out in full, without exponents, passes the scan exactly if its last
      character belongs to no number. */
  lemma WrittenMessagesAreTidyIff(i: Item)
    requires ValidItem(i)
    ensures Tidy(ItemText(i)) <==> !(i.doc.DNumber? && i.after == [])
  {
    hide DocText, IsNumberChar, ItemText, IsNumeral;
    LastOfItem(i);
    if !(i.doc.DNumber? && i.after == []) {
      var s := ItemText(i);
      assert HasAt(s, 0, s);
      TameItem(s, 0, i);
    }
  }
}
