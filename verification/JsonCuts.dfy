/** Messages cut short: a document of which only the first characters arrived. */
module JsonCuts {
  import opened Chars
  import opened Escapes
  import opened OrderedMap
  import opened JsonValue
  import opened JsonGrammar
  import opened JsonDoc
  import opened JsonBounds

  // Where a text ends, found by scanning it once

  /** Outside strings, in a string, just after a backslash in one, or with so many digits of a `\u`
      escape still to come. */
  datatype Mode = Outside | InString | AfterSlash | InHex(left: nat)

  function NextMode(m: Mode, c: char): Mode {
    match m
    case Outside => if c == '\"' then InString else Outside
    case InString => if c == '\"' then Outside else if c == '\\' then AfterSlash else InString
    case AfterSlash => if c == 'u' then InHex(4) else InString
    case InHex(left) => if left <= 1 then InString else InHex(left - 1)
  }

  function Scan(m: Mode, t: string): Mode
    decreases |t|
  {
    if t == [] then m else Scan(NextMode(m, t[0]), t[1..])
  }

  lemma {:induction false} ScanCat(m: Mode, a: string, b: string)
    ensures Scan(m, a + b) == Scan(Scan(m, a), b)
    decreases |a|
  {
    hide NextMode;
    if a == [] {
      assert a + b == b;
    } else {
      assert (a + b)[0] == a[0] && (a + b)[1..] == a[1..] + b;
      ScanCat(NextMode(m, a[0]), a[1..], b);
    }
  }

  /** The text ends where the parser goes on without a check of the end: in a string or after a
      backslash in one, or outside strings with a number. */
  predicate Hanging(t: string) {
    var m := Scan(Outside, t);
    m.InString? || m.AfterSlash? || (m.Outside? && t != [] && IsNumberChar(t[|t| - 1]))
  }

  // Complete texts leave the mode as it was.

  lemma {:induction false} ScanPlain(t: string)
    requires '\"' !in t
    ensures Scan(Outside, t) == Outside
  {
    if t != [] {
      ScanPlain(t[1..]);
    }
  }

  lemma ScanBlank(t: string)
    requires Blank(t)
    ensures Scan(Outside, t) == Outside && !Hanging(t)
  {
    assert '\"' !in t;
    ScanPlain(t);
  }

  lemma ScanOne(m: Mode, c: char)
    ensures Scan(m, [c]) == NextMode(m, c)
  {
    assert [c][1..] == [];
  }

  lemma ScanTwo(m: Mode, t: string)
    requires |t| == 2
    ensures Scan(m, t) == NextMode(NextMode(m, t[0]), t[1])
  {
    hide Scan, NextMode;
    assert t == [t[0]] + [t[1]];
    ScanCat(m, [t[0]], [t[1]]);
    ScanOne(m, t[0]);
    ScanOne(NextMode(m, t[0]), t[1]);
  }

  lemma ScanHex(h: string)
    requires |h| <= 4
    ensures Scan(InHex(4), h) == if |h| == 4 then InString else InHex(4 - |h|)
  {
    if |h| > 0 {
      assert Scan(InHex(4), h) == Scan(InHex(3), h[1..]);
      if |h| > 1 {
        assert Scan(InHex(3), h[1..]) == Scan(InHex(2), h[2..]);
        if |h| > 2 {
          assert Scan(InHex(2), h[2..]) == Scan(InHex(1), h[3..]);
          assert |h| == 4 ==> Scan(InHex(1), h[3..]) == Scan(InString, h[4..]);
        }
      }
    }
  }

  lemma ScanAtom(a: Atom)
    requires a.Valid()
    ensures Scan(InString, a.Text()) == InString
  {
    match a
    case Plain(c) => assert [c][1..] == [];
    case Known(code) => ScanTwo(InString, a.Text());
    case Unknown(code) => ScanTwo(InString, a.Text());
    case Unicode(hex) =>
      ScanCat(InString, "\\u", hex);
      ScanTwo(InString, "\\u");
      ScanHex(hex);
  }

  lemma {:induction false} ScanAtoms(atoms: seq<Atom>)
    requires ValidAtoms(atoms)
    ensures Scan(InString, AtomsText(atoms)) == InString
  {
    hide Atom.Text, Atom.Valid;
    if atoms != [] {
      ScanAtom(atoms[0]);
      ScanAtoms(atoms[1..]);
      ScanCat(InString, atoms[0].Text(), AtomsText(atoms[1..]));
    }
  }

  lemma ScanStringText(atoms: seq<Atom>)
    requires ValidAtoms(atoms)
    ensures Scan(Outside, StringText(atoms)) == Outside
  {
    hide ValidAtoms, AtomsText, Scan;
    ScanAtoms(atoms);
    ScanCat(Outside, "\"", AtomsText(atoms) + "\"");
    ScanOne(Outside, '\"');
    ScanCat(InString, AtomsText(atoms), "\"");
    ScanOne(InString, '\"');
  }

  lemma {:induction false} ScanDoc(d: Doc)
    requires ValidDoc(d)
    ensures Scan(Outside, DocText(d)) == Outside
    decreases d, 0
  {
    match d
    case DNull => ScanPlain(DocText(d));
    case DBool(_) => ScanPlain(DocText(d));
    case DString(atoms) => ScanStringText(atoms);
    case DNumber(lex) => ScanPlain(lex);
    case DArray(blank, items) =>
      var body := if items == [] then blank else ItemsText(items);
      if items == [] {
        ScanBlank(blank);
      } else {
        ScanItems(items);
      }
      ScanBetween("[", body, "]");
    case DObject(blank, entries) =>
      var body := if entries == [] then blank else EntriesText(entries);
      if entries == [] {
        ScanBlank(blank);
      } else {
        ScanEntries(entries);
      }
      ScanBetween("{", body, "}");
  }

  lemma ScanBetween(open: string, body: string, close: string)
    requires '\"' !in open && '\"' !in close && Scan(Outside, body) == Outside
    ensures Scan(Outside, open + (body + close)) == Outside
  {
    ScanPlain(open);
    ScanPlain(close);
    ScanCat(Outside, open, body + close);
    ScanCat(Outside, body, close);
  }

  lemma {:induction false} ScanItem(i: Item)
    requires ValidItem(i)
    ensures Scan(Outside, ItemText(i)) == Outside
    decreases i, 1
  {
    ScanDoc(i.doc);
    NoQuote(i.before);
    NoQuote(i.after);
    ScanBetween(i.before, DocText(i.doc), i.after);
  }

  lemma NoQuote(t: string)
    requires Blank(t)
    ensures '\"' !in t
  {
  }

  lemma {:induction false} ScanItems(items: seq<Item>)
    requires ValidItems(items) && items != []
    ensures Scan(Outside, ItemsText(items)) == Outside
    decreases items, 2
  {
    hide ItemText, ValidItem;
    ScanItem(items[0]);
    if |items| > 1 {
      ScanItems(items[1..]);
      ScanCat(Outside, ItemText(items[0]), "," + ItemsText(items[1..]));
      ScanCat(Outside, ",", ItemsText(items[1..]));
      ScanOne(Outside, ',');
    }
  }

  lemma {:induction false} ScanEntry(e: Entry)
    requires ValidEntry(e)
    ensures Scan(Outside, EntryText(e)) == Outside
    decreases e, 2
  {
    hide StringText, ItemText, Scan;
    var item := ItemText(e.value);
    NoQuote(e.before);
    NoQuote(e.beforeColon);
    ScanStringText(e.key);
    ScanItem(e.value);
    ScanPlain(":");
    ScanPlain(e.beforeColon);
    ScanPlain(e.before);
    ScanCat(Outside, e.before, StringText(e.key) + (e.beforeColon + (":" + item)));
    ScanCat(Outside, StringText(e.key), e.beforeColon + (":" + item));
    ScanCat(Outside, e.beforeColon, ":" + item);
    ScanCat(Outside, ":", item);
  }

  lemma {:induction false} ScanEntries(entries: seq<Entry>)
    requires ValidEntries(entries) && entries != []
    ensures Scan(Outside, EntriesText(entries)) == Outside
    decreases entries, 3
  {
    hide EntryText, ValidEntry;
    ScanEntry(entries[0]);
    if |entries| > 1 {
      ScanEntries(entries[1..]);
      ScanCat(Outside, EntryText(entries[0]), "," + EntriesText(entries[1..]));
      ScanCat(Outside, ",", EntriesText(entries[1..]));
      ScanOne(Outside, ',');
    }
  }

  /** A complete text and a separator before a cut text do not matter for how it ends. */
  lemma HangingBehind(a: string, c: char, t: string)
    requires Scan(Outside, a) == Outside && c != '\"' && !IsNumberChar(c)
    ensures Hanging(a + ([c] + t)) <==> Hanging(t)
    ensures Scan(Outside, a + ([c] + t)) == Scan(Outside, t)
  {
    hide Scan;
    ScanCat(Outside, a, [c] + t);
    ScanCat(Outside, [c], t);
    ScanOne(Outside, c);
    Nothing();
    var all := a + ([c] + t);
    assert t != [] ==> all[|all| - 1] == t[|t| - 1];
    assert t == [] ==> all[|all| - 1] == c;
  }

  lemma Nothing()
    ensures Scan(Outside, []) == Outside
  {
  }

  // What the parser does at the end

  /** The parser gave up in bounds, before something no caller goes on at. */
  predicate Stuck(s: string, r: Parsed) {
    && r.Done? && r.offset <= |s|
    && var c := At(s, SkipWs(s, r.offset));
       c != ',' && c != ']' && c != '}' && c != ':'
  }

  lemma StuckAt(s: string, v: Value, p: nat)
    requires p <= |s| && !IsSpace(At(s, p))
    requires var c := At(s, p); c != ',' && c != ']' && c != '}' && c != ':'
    ensures Stuck(s, Done(v, p))
  {
    NoSkip(s, p);
  }

  /** Only white space is left. */
  lemma BlankIsLeft(s: string, o: nat, t: string)
    requires Ends(s, o, t) && Blank(t)
    ensures o <= |s| && SkipWs(s, o) == |s|
    ensures ParseNext(s, o) == Done(Null, |s|) && Stuck(s, ParseNext(s, o))
    ensures forall v :: Stuck(s, Done(v, o))
  {
    hide ParseArray, ParseObject, ParseStringBody, ParseNumber;
    EndsLength(s, o, t);
    assert HasAt(s, o, t);
    SkipBlank(s, o, t);
    NoSkip(s, |s|);
  }

  // Words, numbers and strings

  lemma CutWord(s: string, o: nat, d: Doc, t: string)
    requires d.DNull? || d.DBool?
    requires Ends(s, o, t) && t != [] && t < DocText(d)
    ensures Stuck(s, ParseNext(s, o)) && !Hanging(t)
  {
    EndsLength(s, o, t);
    var c := DocText(d)[0];
    assert s[o] == s[o..][0] == c;
    NoSkip(s, o);
    ScanPlain(t);
    assert t[|t| - 1] == DocText(d)[|t| - 1];
    assert ParseNext(s, o) == Done(Null, o);
    StuckAt(s, Null, o);
  }

  lemma CutNumber(s: string, o: nat, lex: string, t: string)
    requires IsNumeral(lex) && Ends(s, o, t) && t != [] && t <= lex
    ensures ParseNext(s, o) == Done(Null, |s| + 1) && Hanging(t) && Scan(Outside, t).Outside?
  {
    hide ParseNext, ParseNumber, Convert;
    EndsLength(s, o, t);
    assert s[o] == s[o..][0] == lex[0];
    StartsNumber(s, o);
    assert t + "" == t;
    NumberOverruns(s, o, t, "");
    assert '\"' !in t;
    ScanPlain(t);
  }

  /** A cut in the middle of one step of a string. */
  lemma CutAtom(s: string, i: nat, acc: string, a: Atom, t: string)
    requires a.Valid() && Ends(s, i, t) && t != [] && t < a.Text()
    ensures var m := Scan(InString, t);
            var r := ParseStringBody(s, i, acc);
            if m.InHex? then r.Done? && r.offset <= |s| && At(s, r.offset) == 'u'
            else m.AfterSlash? && r == OutOfBounds
  {
    EndsLength(s, i, t);
    assert a.Text()[0] == '\\' && s[i] == s[i..][0] == '\\';
    if |t| == 1 {
      assert t == "\\";
      ScanOne(InString, '\\');
    } else {
      assert a.Unicode? && t == "\\u" + t[2..];
      assert s[i + 1] == s[i..][1] == 'u';
      ScanCat(InString, "\\u", t[2..]);
      ScanTwo(InString, "\\u");
      ScanHex(t[2..]);
    }
  }

  lemma {:induction false} CutAtoms(s: string, i: nat, acc: string, atoms: seq<Atom>, t: string)
    requires ValidAtoms(atoms) && Ends(s, i, t) && t <= AtomsText(atoms)
    ensures var m := Scan(InString, t);
            var r := ParseStringBody(s, i, acc);
            if m.InHex? then r.Done? && r.offset <= |s| && At(s, r.offset) == 'u'
            else !m.Outside? && r == OutOfBounds
    decreases |atoms|
  {
    hide ParseStringBody, Atom.Text, Atom.Meaning, Atom.Valid, AtomsText, AtomsMeaning, Ends, Scan, At;
    if t == [] {
      StillInString();
      NothingOpen(t);
      EndOfBody(s, i, acc, false);
    } else {
      AtomsBegin(atoms);
      FirstAtom(atoms);
      var a, rest := atoms[0], AtomsText(atoms[1..]);
      if |t| < |a.Text()| {
        assert t < a.Text() by {
          PrefixOf(t, a.Text(), rest);
        }
        CutAtom(s, i, acc, a, t);
      } else {
        var u := t[|a.Text()|..];
        assert t == a.Text() + u && u <= rest by {
          PrefixOf(t, a.Text(), rest);
        }
        EndsSplit(s, i, a.Text(), u);
        DecodedAtom(s, i, acc, a);
        ScanAtom(a);
        ScanCat(InString, a.Text(), u);
        CutAtoms(s, i + |a.Text()|, acc + a.Meaning(), atoms[1..], u);
      }
    }
  }

  lemma StillInString()
    ensures Scan(InString, []) == InString
  {
  }

  lemma NothingOpen(t: string)
    requires t == []
    ensures t == Slash(false)
  {
  }

  lemma AtomsBegin(atoms: seq<Atom>)
    requires AtomsText(atoms) != []
    ensures atoms != []
  {
  }

  /** A prefix of `a + b` is one of `a`, or `a` and a prefix of `b`. */
  lemma PrefixOf(t: string, a: string, b: string)
    requires t <= a + b
    ensures |t| < |a| ==> t < a
    ensures |t| <= |a| ==> t <= a
    ensures |t| >= |a| ==> t == a + t[|a|..] && t[|a|..] <= b
  {
    assert t == (a + b)[..|t|];
    if |t| >= |a| {
      assert t[|a|..] == b[..|t| - |a|];
      assert t[..|a|] == a;
    } else {
      assert t == a[..|t|];
    }
  }

  lemma CutString(s: string, o: nat, atoms: seq<Atom>, t: string)
    requires ValidAtoms(atoms) && Ends(s, o, t) && t != [] && t < StringText(atoms)
    ensures !Scan(Outside, t).Outside?
    ensures if Hanging(t) then ParseNext(s, o) == OutOfBounds else Stuck(s, ParseNext(s, o))
  {
    hide ParseStringBody, AtomsText, ValidAtoms, Ends, Scan, IsNumberChar;
    var u := t[1..];
    PrefixOf(t, "\"", AtomsText(atoms) + "\"");
    assert u <= AtomsText(atoms) by {
      PrefixOf(u, AtomsText(atoms), "\"");
      assert |u| <= |AtomsText(atoms)|;
    }
    assert t == ['\"'] + u;
    EndsHead(s, o, '\"', u);
    CutAtoms(s, o + 1, "", atoms, u);
    ScanCat(Outside, ['\"'], u);
    ScanOne(Outside, '\"');
    StartsString(s, o);
    var r := ParseStringBody(s, o + 1, "");
    if r.Done? {
      StuckAt(s, r.value, r.offset);
    }
  }

  lemma StartsString(s: string, p: nat)
    requires p < |s| && s[p] == '\"'
    ensures ParseNext(s, p) == ParseStringBody(s, p + 1, "")
  {
    hide ParseStringBody;
    NoSkip(s, p);
  }

  // The main induction

  /** A cut text in the place of an array's item or a member's value. */
  predicate EndsAs(s: string, d: Doc, t: string, r: Parsed) {
    if !Hanging(t) then Stuck(s, r)
    else if d.DNumber? then r == Done(Null, |s| + 1)
    else r == OutOfBounds
  }

  /** Only containers hang with a number and are not one. */
  predicate ModeFits(d: Doc, t: string) {
    && (d.DNumber? ==> Scan(Outside, t).Outside?)
    && (d.DNull? || d.DBool? || d.DString? ==> !(Hanging(t) && Scan(Outside, t).Outside?))
  }

  /** A document cut after its first character; a number may be complete. */
  lemma {:induction false} CutDoc(s: string, o: nat, d: Doc, t: string)
    requires ValidDoc(d) && Ends(s, o, t) && t != []
    requires t < DocText(d) || (d.DNumber? && t == DocText(d))
    ensures EndsAs(s, d, t, ParseNext(s, o))
    ensures ModeFits(d, t)
    decreases d, 1
  {
    hide ParseNext, Scan, Hanging, Ends, Stuck;
    match d
    case DNull => CutWord(s, o, d, t);
    case DBool(_) => CutWord(s, o, d, t);
    case DString(atoms) => CutString(s, o, atoms, t);
    case DNumber(lex) => CutNumber(s, o, lex, t);
    case DArray(blank, items) => CutArray(s, o, blank, items, t);
    case DObject(blank, entries) => CutObject(s, o, blank, entries, t);
  }

  lemma DocEnd(d: Doc)
    requires ValidDoc(d) && !d.DNumber?
    ensures DocText(d) != [] && !IsNumberChar(DocText(d)[|DocText(d)| - 1])
  {
    hide EntriesText, ItemsText, AtomsText, ValidItems, ValidEntries;
  }

  /** The document is complete, and only white space follows. */
  lemma {:induction false} CompleteDoc(s: string, o: nat, d: Doc, rest: string)
    requires ValidDoc(d) && Ends(s, o, DocText(d) + rest) && Blank(rest) && (d.DNumber? ==> rest != [])
    ensures Stuck(s, ParseNext(s, o)) && !Hanging(DocText(d) + rest)
    ensures Scan(Outside, DocText(d) + rest).Outside?
  {
    hide ParseNext, DocText, ValidDoc, Meaning, Ends, Scan, HasAt, IsNumberChar;
    var text := DocText(d);
    EndsSplit(s, o, text, rest);
    FollowsBlank(s, o + |text|, rest);
    ParseDoc(s, o, d);
    BlankIsLeft(s, o + |text|, rest);
    ScanDoc(d);
    ScanCat(Outside, text, rest);
    ScanBlank(rest);
    LastOfBlank(rest);
    if rest == [] {
      DocEnd(d);
      assert text + rest == text;
    } else {
      assert (text + rest)[|text + rest| - 1] == rest[|rest| - 1];
    }
  }

  lemma LastOfBlank(t: string)
    requires Blank(t)
    ensures t != [] ==> !IsNumberChar(t[|t| - 1])
  {
  }

  lemma FollowsBlank(s: string, o: nat, t: string)
    requires Ends(s, o, t) && Blank(t)
    ensures o <= |s| && (t != [] ==> IsFollower(At(s, o)))
  {
    assert t != [] ==> s[o] == s[o..][0];
  }

  /** White space before a cut text. */
  lemma BlankBefore(s: string, o: nat, before: string, t: string)
    requires Blank(before) && Ends(s, o, before + t) && t != [] && !IsSpace(t[0])
    ensures var p := o + |before|;
            && p < |s| && Ends(s, p, t) && SkipWs(s, o) == p && At(s, p) == t[0]
            && ParseNext(s, o) == ParseNext(s, p)
    ensures Hanging(before + t) <==> Hanging(t)
    ensures Scan(Outside, before + t) == Scan(Outside, t)
  {
    assert t == [t[0]] + t[1..];
    OpenStart(s, o, before, t[0], t[1..]);
    AtIs(s, o + |before|);
    hide ParseNext, Ends, Scan;
    ScanBlank(before);
    ScanCat(Outside, before, t);
    assert (before + t)[|before + t| - 1] == t[|t| - 1];
  }

  /** The part of a cut item that belongs to its document. */
  function InDoc(i: Item, t: string): string {
    if |t| >= |i.before| then t[|i.before|..] else []
  }

  /** The cut is in the document, or just behind a number. */
  predicate CutsDoc(i: Item, t: string) {
    |i.before| < |t| && (InDoc(i, t) < DocText(i.doc) || (i.doc.DNumber? && InDoc(i, t) == DocText(i.doc)))
  }

  /** From the document to the item around it. */
  lemma CutAround(s: string, o: nat, i: Item, t: string)
    requires ValidItem(i) && Ends(s, o, t) && t <= ItemText(i)
    requires CutsDoc(i, t) ==>
               EndsAs(s, i.doc, InDoc(i, t), ParseNext(s, o + |i.before|)) && ModeFits(i.doc, InDoc(i, t))
    ensures o <= |s| && EndsAs(s, i.doc, t, ParseNext(s, o)) && ModeFits(i.doc, t)
    ensures var c := At(s, SkipWs(s, o)); c == '\0' || c == DocText(i.doc)[0]
    ensures Hanging(t) ==> At(s, SkipWs(s, o)) == DocText(i.doc)[0]
  {
    hide ParseNext, DocText, ValidDoc, Ends, Scan, Hanging, Stuck;
    var text, u := DocText(i.doc), InDoc(i, t);
    DocStart(i.doc);
    EndsLength(s, o, t);
    PrefixOf(t, i.before, text + i.after);
    if |t| <= |i.before| {
      CutInBlank(s, o, i.before, t);
    } else {
      PrefixOf(u, text, i.after);
      assert u[0] == text[0];
      BlankBefore(s, o, i.before, u);
      if !CutsDoc(i, t) {
        var rest := u[|text|..];
        PrefixOfBlank(rest, i.after);
        CompleteDoc(s, o + |i.before|, i.doc, rest);
      }
    }
  }

  lemma DocEnds(s: string, o: nat, i: Item, t: string)
    requires Ends(s, o, t) && t <= ItemText(i) && CutsDoc(i, t)
    ensures Ends(s, o + |i.before|, InDoc(i, t)) && InDoc(i, t) != []
  {
    hide Ends, DocText;
    PrefixOf(t, i.before, DocText(i.doc) + i.after);
    EndsSplit(s, o, i.before, InDoc(i, t));
  }

  /** An item cut anywhere, or complete with nothing behind it. */
  lemma {:induction false} CutItem(s: string, o: nat, i: Item, t: string)
    requires ValidItem(i) && Ends(s, o, t) && t <= ItemText(i)
    ensures o <= |s| && EndsAs(s, i.doc, t, ParseNext(s, o)) && ModeFits(i.doc, t)
    ensures var c := At(s, SkipWs(s, o)); c == '\0' || c == DocText(i.doc)[0]
    ensures Hanging(t) ==> At(s, SkipWs(s, o)) == DocText(i.doc)[0]
    decreases i, 2
  {
    hide ParseNext, DocText, ValidDoc, Ends, EndsAs, ModeFits, Hanging, SkipWs, At, ItemText, InDoc;
    if CutsDoc(i, t) {
      DocEnds(s, o, i, t);
      CutDoc(s, o + |i.before|, i.doc, InDoc(i, t));
    }
    CutAround(s, o, i, t);
  }

  lemma PrefixOfBlank(t: string, ws: string)
    requires t <= ws && Blank(ws)
    ensures Blank(t)
  {
  }

  lemma CutInBlank(s: string, o: nat, ws: string, t: string)
    requires Blank(ws) && t <= ws && Ends(s, o, t)
    ensures o <= |s| && Stuck(s, ParseNext(s, o)) && !Hanging(t)
    ensures At(s, SkipWs(s, o)) == '\0' && Scan(Outside, t).Outside?
  {
    hide ParseNext;
    PrefixOfBlank(t, ws);
    BlankIsLeft(s, o, t);
    ScanBlank(t);
  }

  // Arrays

  /** How the loop of `parse_array` goes on after a cut item. */
  lemma LastRound(s: string, o: nat, acc: seq<Value>, d: Doc, t: string)
    requires 0 < o && EndsAs(s, d, t, ParseNext(s, o))
    ensures if Hanging(t) then ParseItems(s, o, acc) == OutOfBounds else Stuck(s, ParseItems(s, o, acc))
  {
    hide ParseNext, Hanging;
    if Stuck(s, ParseNext(s, o)) {
      SkipIsIdempotent(s, ParseNext(s, o).offset);
    }
  }

  lemma {:induction false} CutItems(s: string, o: nat, acc: seq<Value>, items: seq<Item>, t: string)
    requires 0 < o && items != [] && ValidItems(items) && Ends(s, o, t) && t <= ItemsText(items)
    ensures o <= |s| && At(s, SkipWs(s, o)) != ']'
    ensures if Hanging(t) then ParseItems(s, o, acc) == OutOfBounds else Stuck(s, ParseItems(s, o, acc))
    decreases items, 3
  {
    hide *;
    var i := items[0];
    var text := ItemText(i);
    MeaningsOf(items);
    ItemsTextIs(items);
    EndsLength(s, o, t);
    if |t| <= |text| {
      assert t <= text by {
        if |items| > 1 {
          PrefixOf(t, text, [','] + ItemsText(items[1..]));
        }
      }
      DocStart(i.doc);
      CutItem(s, o, i, t);
      LastRound(s, o, acc, i.doc, t);
    } else {
      var rest := ItemsText(items[1..]);
      var u := t[|text| + 1..];
      assert t == text + ([','] + u) && u <= rest by {
        PrefixOf(t, text, [','] + rest);
        PrefixOf(t[|text|..], [','], rest);
      }
      var p := o + |text|;
      EndsSplit(s, o, text, [','] + u);
      EndsHead(s, p, ',', u);
      AtIs(s, p);
      ParseItemRound(s, o, acc, i);
      ScanItem(i);
      CommaIsPlain();
      HangingBehind(text, ',', u);
      CutItems(s, p + 1, acc + [Meaning(i.doc)], items[1..], u);
    }
  }

  lemma CommaIsPlain()
    ensures !IsNumberChar(',') && !IsNumberChar(':') && !IsNumberChar('[') && !IsNumberChar('{')
  {
  }

  lemma ItemsTextIs(items: seq<Item>)
    requires items != []
    ensures ItemsText(items)
         == if |items| == 1 then ItemText(items[0])
            else ItemText(items[0]) + ([','] + ItemsText(items[1..]))
  {
    hide ItemText;
  }

  /** The opening bracket and what is left of the text behind it. */
  lemma AfterBracket(s: string, o: nat, c: char, body: string, close: string, t: string)
    requires Ends(s, o, t) && t != [] && t < [c] + (body + close) && |close| == 1
    requires c != '\"' && !IsNumberChar(c)
    ensures o < |s| && s[o] == c && Ends(s, o + 1, t[1..]) && t[1..] <= body
    ensures Hanging(t) <==> Hanging(t[1..])
  {
    hide Hanging;
    var u := t[1..];
    PrefixOf(t, [c], body + close);
    assert t == [c] + u;
    PrefixOf(u, body, close);
    assert |u| <= |body|;
    EndsHead(s, o, c, u);
    Nothing();
    assert [] + ([c] + u) == t;
    HangingBehind([], c, u);
  }

  lemma {:induction false} CutArray(s: string, o: nat, blank: string, items: seq<Item>, t: string)
    requires var d := DArray(blank, items); ValidDoc(d) && Ends(s, o, t) && t != [] && t < DocText(d)
    ensures EndsAs(s, DArray(blank, items), t, ParseNext(s, o))
    decreases items, 4
  {
    hide ParseNext, ParseItems, ItemsText, Ends, Hanging, Stuck, SkipWs, At, ValidItems;
    var u := t[1..];
    var body := if items == [] then blank else ItemsText(items);
    CommaIsPlain();
    AfterBracket(s, o, '[', body, "]", t);
    if items == [] {
      CutInBlank(s, o + 1, blank, u);
      NoItemsYet(s, o + 1);
    } else {
      CutItems(s, o + 1, [], items, u);
    }
    StartsItems(s, o);
  }

  lemma NoItemsYet(s: string, o: nat)
    requires 0 < o <= |s| && At(s, SkipWs(s, o)) == '\0' && Stuck(s, ParseNext(s, o))
    ensures Stuck(s, ParseItems(s, o, []))
  {
    hide ParseNext;
    SkipIsIdempotent(s, ParseNext(s, o).offset);
  }

  // Objects

  lemma {:induction false} CutObject(s: string, o: nat, blank: string, entries: seq<Entry>, t: string)
    requires var d := DObject(blank, entries); ValidDoc(d) && Ends(s, o, t) && t != [] && t < DocText(d)
    ensures EndsAs(s, DObject(blank, entries), t, ParseNext(s, o))
    decreases entries, 6
  {
    hide ParseNext, ParseMembers, EntriesText, Ends, Hanging, Stuck, SkipWs, At, ValidEntries;
    var u := t[1..];
    var body := if entries == [] then blank else EntriesText(entries);
    CommaIsPlain();
    AfterBracket(s, o, '{', body, "}", t);
    if entries == [] {
      CutInBlank(s, o + 1, blank, u);
      NoMembersYet(s, o + 1, []);
    } else {
      CutEntries(s, o + 1, [], entries, u);
    }
    StartsCutMembers(s, o);
  }

  lemma StartsCutMembers(s: string, p: nat)
    requires p < |s| && s[p] == '{' && At(s, SkipWs(s, p + 1)) != '}'
    ensures ParseNext(s, p) == ParseMembers(s, p + 1, [])
  {
    hide ParseMembers;
    NoSkip(s, p);
    assert ParseNext(s, p) == ParseObject(s, p) by {
      hide ParseObject;
    }
    hide ParseNext;
    MembersMayStartLater(s, p + 1, []);
  }

  /** The key is cut, or nothing follows it. */
  lemma NoMembersYet(s: string, o: nat, acc: seq<Member>)
    requires 0 < o && Stuck(s, ParseNext(s, o))
    ensures Stuck(s, ParseMembers(s, o, acc))
  {
    hide ParseNext;
    SkipIsIdempotent(s, ParseNext(s, o).offset);
  }

  /** The value is cut, or nothing follows it. */
  lemma LastValue(s: string, o: nat, acc: seq<Member>, v: nat)
    requires 0 < o && v <= |s| && AfterKey(s, acc, ParseNext(s, o)).More?
    requires AfterKey(s, acc, ParseNext(s, o)).offset == SkipWs(s, v) && Stuck(s, ParseNext(s, v))
    ensures Stuck(s, ParseMembers(s, o, acc))
  {
    hide ParseNext, AfterKey, Put;
    SkipIsIdempotent(s, v);
    ParseNextAfterSpace(s, v, SkipWs(s, v));
    SkipIsIdempotent(s, ParseNext(s, v).offset);
  }

  /** A key and the white space around it. */
  function KeyItem(e: Entry): Item {
    Item(e.before, DString(e.key), e.beforeColon)
  }

  lemma EntryTextIs(e: Entry)
    ensures EntryText(e) == ItemText(KeyItem(e)) + ([':'] + ItemText(e.value))
    ensures ItemText(KeyItem(e)) == e.before + (StringText(e.key) + e.beforeColon)
    ensures ValidEntry(e) ==> ValidItem(KeyItem(e)) && ValidItem(e.value)
    ensures forall u :: ItemText(KeyItem(e)) + ([':'] + u) == KeyText(e.before, e.key, e.beforeColon, u)
    ensures DocText(KeyItem(e).doc)[0] == '\"'
  {
    hide StringText;
    assert StringText(e.key)[0] == '\"' by {
      QuoteFirst(e.key);
    }
    var text := StringText(e.key);
    forall u
      ensures (e.before + (text + e.beforeColon)) + ([':'] + u) == e.before + (text + (e.beforeColon + ([':'] + u)))
    {
      AssocCat(e.before, text + e.beforeColon, [':'] + u);
      AssocCat(text, e.beforeColon, [':'] + u);
    }
    assert KeyItem(e).doc == DString(e.key) && DocText(DString(e.key)) == text;
  }

  lemma QuoteFirst(atoms: seq<Atom>)
    ensures StringText(atoms) != [] && StringText(atoms)[0] == '\"'
  {
    hide AtomsText;
  }

  lemma {:induction false} CutEntry(s: string, o: nat, acc: seq<Member>, e: Entry, t: string)
    requires 0 < o && ValidEntry(e) && Ends(s, o, t) && t <= EntryText(e)
    ensures o <= |s| && At(s, SkipWs(s, o)) != '}'
    ensures if Hanging(t) then ParseMembers(s, o, acc) == OutOfBounds else Stuck(s, ParseMembers(s, o, acc))
    decreases e, 4
  {
    hide *;
    EntryTextIs(e);
    var text := ItemText(KeyItem(e));
    PrefixOf(t, text, [':'] + ItemText(e.value));
    if |t| <= |text| {
      CutKey(s, o, acc, e, t);
    } else {
      var u := t[|text| + 1..];
      PrefixOf(t[|text|..], [':'], ItemText(e.value));
      assert t == text + ([':'] + u);
      EntryParts(e);
      LastKey(s, o, acc, e.before, e.key, e.beforeColon, u);
      var v := ValueFrom(o, e.before, e.key, e.beforeColon);
      CutItem(s, v, e.value, u);
      ScanItem(KeyItem(e));
      CommaIsPlain();
      HangingBehind(text, ':', u);
      EndOfValue(s, o, acc, e.value.doc, u, v);
    }
  }

  lemma EndOfValue(s: string, o: nat, acc: seq<Member>, d: Doc, t: string, v: nat)
    requires 0 < o && v <= |s| && AfterKey(s, acc, ParseNext(s, o)).More?
    requires AfterKey(s, acc, ParseNext(s, o)).offset == SkipWs(s, v) && EndsAs(s, d, t, ParseNext(s, v))
    ensures if Hanging(t) then ParseMembers(s, o, acc) == OutOfBounds else Stuck(s, ParseMembers(s, o, acc))
  {
    hide ParseNext, ParseMembers, AfterKey, Hanging, Stuck, SkipWs;
    if Hanging(t) {
      LastMember(s, o, acc, v);
    } else {
      LastValue(s, o, acc, v);
    }
  }

  lemma CutKey(s: string, o: nat, acc: seq<Member>, e: Entry, t: string)
    requires 0 < o && ValidEntry(e) && Ends(s, o, t) && t <= ItemText(KeyItem(e))
    ensures o <= |s| && At(s, SkipWs(s, o)) != '}'
    ensures if Hanging(t) then ParseMembers(s, o, acc) == OutOfBounds else Stuck(s, ParseMembers(s, o, acc))
  {
    hide ParseNext, ParseMembers, Hanging, Stuck, SkipWs, At, Ends, ItemText, ValidItem, InDoc, StringText, Scan;
    EntryTextIs(e);
    var i := KeyItem(e);
    assert i.doc == DString(e.key) && DocText(i.doc) == StringText(e.key);
    if CutsDoc(i, t) {
      DocEnds(s, o, i, t);
      CutString(s, o + |i.before|, e.key, InDoc(i, t));
    }
    CutAround(s, o, i, t);
    if Hanging(t) {
      LastKeyOverruns(s, o, acc);
    } else {
      NoMembersYet(s, o, acc);
    }
  }

  lemma {:induction false} CutEntries(s: string, o: nat, acc: seq<Member>, entries: seq<Entry>, t: string)
    requires 0 < o && entries != [] && ValidEntries(entries) && Ends(s, o, t) && t <= EntriesText(entries)
    ensures o <= |s| && At(s, SkipWs(s, o)) != '}'
    ensures if Hanging(t) then ParseMembers(s, o, acc) == OutOfBounds else Stuck(s, ParseMembers(s, o, acc))
    decreases entries, 5
  {
    hide *;
    PutMemberList(acc, entries);
    var e := entries[0];
    var text := EntryText(e);
    EntriesTextIs(entries);
    EndsLength(s, o, t);
    if |t| <= |text| {
      assert t <= text by {
        if |entries| > 1 {
          PrefixOf(t, text, [','] + EntriesText(entries[1..]));
        }
      }
      CutEntry(s, o, acc, e, t);
    } else {
      var rest := EntriesText(entries[1..]);
      var u := t[|text| + 1..];
      assert t == text + ([','] + u) && u <= rest by {
        PrefixOf(t, text, [','] + rest);
        PrefixOf(t[|text|..], [','], rest);
      }
      var p := o + |text|;
      EndsSplit(s, o, text, [','] + u);
      EndsHead(s, p, ',', u);
      AtIs(s, p);
      ParseEntry(s, o, acc, e);
      ScanEntry(e);
      CommaIsPlain();
      HangingBehind(text, ',', u);
      CutEntries(s, p + 1, Put(acc, MemberOf(e).key, MemberOf(e).val), entries[1..], u);
    }
  }

  lemma EntriesTextIs(entries: seq<Entry>)
    requires entries != []
    ensures EntriesText(entries)
         == if |entries| == 1 then EntryText(entries[0])
            else EntryText(entries[0]) + ([','] + EntriesText(entries[1..]))
  {
    hide EntryText;
  }

  // Whole messages

  /** A test on what arrived: it ends in a string, but not in a `\u` escape, or it starts with a
      bracket and ends outside strings with a number. */
  predicate RunsOut(s: string) {
    var m := Scan(Outside, s);
    var c := At(s, SkipWs(s, 0));
    || m.InString? || m.AfterSlash?
    || (m.Outside? && s != [] && IsNumberChar(s[|s| - 1]) && (c == '[' || c == '{'))
  }

  /** Of a document, with any layout and white space around it, cut after any number of characters
      or complete, exactly such a text is read out of bounds. */
  lemma CutMessageOverrunsIff(i: Item, n: nat)
    requires ValidItem(i) && n <= |ItemText(i)|
    ensures var s := ItemText(i)[..n]; Load(s).OutOfBounds? <==> RunsOut(s)
  {
    hide ParseNext, ValidDoc, Scan, SkipWs, ItemText;
    var s := ItemText(i)[..n];
    assert Ends(s, 0, s);
    CutItem(s, 0, i, s);
    FirstOf(i);
  }

  lemma FirstOf(i: Item)
    requires ValidItem(i)
    ensures DocText(i.doc) != []
    ensures i.doc.DArray? || i.doc.DObject? <==> DocText(i.doc)[0] == '[' || DocText(i.doc)[0] == '{'
  {
    hide ItemsText, EntriesText, AtomsText, ValidItems, ValidEntries, Convert;
  }

  // The three kinds of cut in a string

  /** In the string, here a key. */
  lemma CutInKey()
    ensures Load("{\"a") == OutOfBounds
  {
    var d := OpenKey("", [], OpenString("", [Plain('a')], false));
    hide Load;
    assert OpenText(d) == "{\"a";
    BrokenOffTexts(d);
  }

  /** Just after a backslash. */
  lemma CutAfterBackslash()
    ensures Load("\"\\") == OutOfBounds
  {
    var d := OpenString("", [], true);
    hide Load;
    assert OpenText(d) == "\"\\";
    BrokenOffTexts(d);
  }

  /** In a `\u` escape, which is the one that is read in bounds. */
  lemma CutInUnicodeEscape()
    ensures Load("[\"\\u12") == Done(Array([]), 3)
  {
    hide ParseNext, ParseItems, SkipWs;
    var s := "[\"\\u12";
    NoSkip(s, 1);
    NoSkip(s, 3);
    StartsString(s, 1);
    assert ParseStringBody(s, 2, "") == Done(String(""), 3);
    StartsItems(s, 0);
    UnfinishedArray(s, 1, String(""), 3);
  }

  lemma UnfinishedArray(s: string, o: nat, v: Value, p: nat)
    requires 0 < o && p <= |s| && ParseNext(s, o) == Done(v, p) && SkipWs(s, p) == p
    requires At(s, p) != ',' && At(s, p) != ']'
    ensures ParseItems(s, o, []) == Done(Array([]), p)
  {
    hide ParseNext;
  }
}
