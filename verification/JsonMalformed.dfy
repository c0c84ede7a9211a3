/** What the parser makes of texts that go wrong: separators that are missing, wrong or too many, bad
    escapes and unfollowed numbers, in place behind any number of complete elements. */
module JsonMalformed {
  import opened Chars
  import opened Escapes
  import opened OrderedMap
  import opened JsonValue
  import opened JsonGrammar
  import opened JsonDoc
  import opened JsonBounds

  // Complete elements, each with its comma

  lemma {:induction false} ItemsBefore(s: string, o: nat, acc: seq<Value>, items: seq<Item>, rest: string)
    requires 0 < o && ValidItems(items) && HasAt(s, o, OpenItems(items, rest))
    ensures |rest| <= |OpenItems(items, rest)|
    ensures var p := o + |OpenItems(items, rest)| - |rest|;
            HasAt(s, p, rest) && ParseItems(s, o, acc) == ParseItems(s, p, acc + Meanings(items))
    ensures items != [] ==> At(s, SkipWs(s, o)) != ']'
    decreases |items|
  {
    hide *;
    if items == [] {
      NoOpenItems(rest);
      NoMeanings();
      assert acc + [] == acc;
    } else {
      var i, others := items[0], OpenItems(items[1..], rest);
      var p := o + |ItemText(i)|;
      OpenItemsParts(items, rest);
      HasAtSplit(s, o, ItemText(i), [','] + others);
      HasAtHead(s, p, ',', others);
      AtIs(s, p);
      MeaningsOf(items);
      ParseItemRound(s, o, acc, i);
      ItemsBefore(s, p + 1, acc + [Meaning(i.doc)], items[1..], rest);
      AssocCat(acc, [Meaning(i.doc)], Meanings(items[1..]));
    }
  }

  lemma NoMeanings()
    ensures ValidItems([]) && Meanings([]) == []
    ensures ValidEntries([]) && MemberList([]) == []
  {
  }

  lemma {:induction false} EntriesBefore(s: string, o: nat, acc: seq<Member>, entries: seq<Entry>, rest: string)
    requires 0 < o && ValidEntries(entries) && HasAt(s, o, OpenEntries(entries, rest))
    ensures |rest| <= |OpenEntries(entries, rest)|
    ensures var p := o + |OpenEntries(entries, rest)| - |rest|;
            HasAt(s, p, rest) && ParseMembers(s, o, acc) == ParseMembers(s, p, PutAll(acc, MemberList(entries)))
    ensures entries != [] ==> At(s, SkipWs(s, o)) == '\"'
    decreases |entries|
  {
    hide *;
    if entries == [] {
      NoOpenItems(rest);
      NoMeanings();
      NothingAssigned(acc);
    } else {
      var e, others := entries[0], OpenEntries(entries[1..], rest);
      var p := o + |EntryText(e)|;
      OpenEntriesParts(entries, rest);
      HasAtSplit(s, o, EntryText(e), [','] + others);
      HasAtHead(s, p, ',', others);
      AtIs(s, p);
      PutMemberList(acc, entries);
      ParseEntry(s, o, acc, e);
      EntriesBefore(s, p + 1, Put(acc, MemberOf(e).key, MemberOf(e).val), entries[1..], rest);
    }
  }

  lemma NothingAssigned(acc: seq<Member>)
    ensures PutAll(acc, []) == acc
  {
  }

  /** The character after an element ends the element, and is none that goes on. */
  predicate Interrupts(c: char, i: Item) {
    !IsSpace(c) && c != ',' && (i.doc.DNumber? && i.after == [] ==> IsFollower(c))
  }

  // Arrays

  lemma StopsItems(s: string, o: nat, acc: seq<Value>, v: Value, e: nat)
    requires 0 < o && e <= |s| && ParseNext(s, o) == Done(v, e)
    requires var c := At(s, SkipWs(s, e)); c != ',' && c != ']'
    ensures ParseItems(s, o, acc) == Done(Array([]), SkipWs(s, e))
  {
    hide ParseNext, SkipWs, At;
  }

  /** An item followed by neither a comma nor the bracket: whatever was read, the array is empty, and
      the parser stays in front of what it found. */
  lemma BadArraySeparator(s: string, o: nat, items: seq<Item>, last: Item)
    requires ValidItems(items) && ValidItem(last) && HasAt(s, o, "[" + OpenItems(items, ItemText(last)))
    requires var c := At(s, o + 1 + |OpenItems(items, ItemText(last))|); Interrupts(c, last) && c != ']'
    ensures ParseNext(s, o) == Done(Array([]), o + 1 + |OpenItems(items, ItemText(last))|)
  {
    hide ParseNext, ParseItems, OpenItems, ItemText, HasAt, At, SkipWs, Meanings, Meaning, DocText, IsSpace;
    HasAtHead(s, o, '[', OpenItems(items, ItemText(last)));
    ItemsBefore(s, o + 1, [], items, ItemText(last));
    var p := o + 1 + |OpenItems(items, ItemText(last))| - |ItemText(last)|;
    ParseItemUpTo(s, p, last);
    DocStart(last.doc);
    StopsItems(s, p, [] + Meanings(items), Meaning(last.doc), p + |last.before| + |DocText(last.doc)|);
    if items == [] {
      NoOpenItems(ItemText(last));
    }
    StartsItems(s, o);
  }

  lemma NullBeforeBracket(s: string, o: nat, acc: seq<Value>, blank: string)
    requires 0 < o && Blank(blank) && HasAt(s, o, blank + "]")
    ensures ParseItems(s, o, acc) == Done(Array(acc + [Null]), o + |blank| + 1)
  {
    HasAtSplit(s, o, blank, "]");
    var p := o + |blank|;
    HasAtHead(s, p, ']', "");
    SkipBlank(s, o, blank);
    NoSkip(s, p);
  }

  /** A comma before the closing bracket adds a Null. */
  lemma TrailingComma(s: string, o: nat, items: seq<Item>, blank: string)
    requires ValidItems(items) && items != [] && Blank(blank) && HasAt(s, o, "[" + OpenItems(items, blank + "]"))
    ensures ParseNext(s, o) == Done(Array(Meanings(items) + [Null]), o + 1 + |OpenItems(items, blank + "]")|)
  {
    hide ParseNext, ParseItems, OpenItems, HasAt, At, SkipWs, Meanings;
    HasAtHead(s, o, '[', OpenItems(items, blank + "]"));
    ItemsBefore(s, o + 1, [], items, blank + "]");
    var p := o + 1 + |OpenItems(items, blank + "]")| - |blank + "]"|;
    assert [] + Meanings(items) == Meanings(items);
    NullBeforeBracket(s, p, Meanings(items), blank);
    StartsItems(s, o);
  }

  // Objects

  lemma StopsAfterValue(s: string, o: nat, acc: seq<Member>, key: string, q: nat, v: Value, e: nat)
    requires 0 < o && AfterKey(s, acc, ParseNext(s, o)) == More(key, q)
    requires e <= |s| && ParseNext(s, q) == Done(v, e)
    requires var c := At(s, SkipWs(s, e)); c != ',' && c != '}'
    ensures ParseMembers(s, o, acc) == Done(Object(Put(acc, key, v)), SkipWs(s, e))
  {
    hide ParseNext, AfterKey, Put, SkipWs, At;
  }

  lemma LastEntry(s: string, o: nat, acc: seq<Member>, e: Entry)
    requires 0 < o && ValidEntry(e) && HasAt(s, o, EntryText(e))
    requires var c := At(s, o + |EntryText(e)|); Interrupts(c, e.value) && c != '}'
    ensures ParseMembers(s, o, acc) == Done(Object(Put(acc, MemberOf(e).key, MemberOf(e).val)), o + |EntryText(e)|)
    ensures At(s, SkipWs(s, o)) == '\"'
  {
    hide ParseNext, ParseMembers, AfterKey, EntryText, ItemText, HasAt, At, SkipWs, Meaning, DocText, IsSpace, Put;
    EntryParts(e);
    EntryLayout(s, o, e);
    ParseKey(s, o, acc, e);
    var v := ValueStart(o, e);
    ParseItemUpTo(s, v, e.value);
    SkipIsIdempotent(s, v);
    ParseNextAfterSpace(s, v, SkipWs(s, v));
    StopsAfterValue(s, o, acc, MemberOf(e).key, SkipWs(s, v), MemberOf(e).val,
                    v + |e.value.before| + |DocText(e.value.doc)|);
  }

  /** A member followed by neither a comma nor the brace: the object has the members read so far, that
      one included, and the parser stays in front of what it found. */
  lemma BadObjectSeparator(s: string, o: nat, entries: seq<Entry>, last: Entry)
    requires ValidEntries(entries) && ValidEntry(last) && HasAt(s, o, "{" + OpenEntries(entries, EntryText(last)))
    requires var c := At(s, o + 1 + |OpenEntries(entries, EntryText(last))|); Interrupts(c, last.value) && c != '}'
    ensures var members := PutAll([], MemberList(entries));
            ParseNext(s, o) == Done(Object(Put(members, MemberOf(last).key, MemberOf(last).val)),
                                    o + 1 + |OpenEntries(entries, EntryText(last))|)
  {
    hide ParseNext, ParseMembers, OpenEntries, EntryText, HasAt, At, SkipWs, MemberList, MemberOf, PutAll, Put, IsSpace;
    HasAtHead(s, o, '{', OpenEntries(entries, EntryText(last)));
    EntriesBefore(s, o + 1, [], entries, EntryText(last));
    var p := o + 1 + |OpenEntries(entries, EntryText(last))| - |EntryText(last)|;
    LastEntry(s, p, PutAll([], MemberList(entries)), last);
    if entries == [] {
      NoOpenItems(EntryText(last));
    }
    StartsMembers(s, o);
  }

  lemma NoColon(s: string, o: nat, acc: seq<Member>, key: Parsed, p: nat)
    requires 0 < o && ParseNext(s, o) == key && key.Done? && key.offset <= |s|
    requires SkipWs(s, key.offset) == p && At(s, p) != ':'
    ensures ParseMembers(s, o, acc) == Done(Object(acc), p)
  {
    hide ParseNext, SkipWs, At;
  }

  /** A comma before the closing brace: the object has the members read so far, and the parser stays
      in front of the brace. */
  lemma TrailingCommaInObject(s: string, o: nat, entries: seq<Entry>, blank: string)
    requires ValidEntries(entries) && entries != [] && Blank(blank)
    requires HasAt(s, o, "{" + OpenEntries(entries, blank + "}"))
    ensures ParseNext(s, o) == Done(Object(PutAll([], MemberList(entries))), o + |OpenEntries(entries, blank + "}")|)
  {
    hide ParseNext, ParseMembers, OpenEntries, HasAt, At, SkipWs, MemberList, PutAll;
    HasAtHead(s, o, '{', OpenEntries(entries, blank + "}"));
    EntriesBefore(s, o + 1, [], entries, blank + "}");
    var p := o + 1 + |OpenEntries(entries, blank + "}")| - |blank + "}"|;
    NullBeforeBrace(s, p, blank);
    NoColon(s, p, PutAll([], MemberList(entries)), ParseNext(s, p), p + |blank|);
    StartsMembers(s, o);
  }

  lemma NullBeforeBrace(s: string, o: nat, blank: string)
    requires Blank(blank) && HasAt(s, o, blank + "}")
    ensures var p := o + |blank|;
            p < |s| && ParseNext(s, o) == Done(Null, p) && SkipWs(s, p) == p && At(s, p) == '}'
  {
    HasAtSplit(s, o, blank, "}");
    var p := o + |blank|;
    HasAtHead(s, p, '}', "");
    SkipBlank(s, o, blank);
    NoSkip(s, p);
  }

  /** A key without its colon: the object has the members read before it, and the parser stays in
      front of what it found. */
  lemma MissingColon(s: string, o: nat, entries: seq<Entry>, before: string, key: seq<Atom>, after: string)
    requires ValidEntries(entries) && Blank(before) && ValidAtoms(key) && Blank(after)
    requires var rest := before + (StringText(key) + after);
             && HasAt(s, o, "{" + OpenEntries(entries, rest))
             && var c := At(s, o + 1 + |OpenEntries(entries, rest)|); !IsSpace(c) && c != ':'
    ensures var text := OpenEntries(entries, before + (StringText(key) + after));
            ParseNext(s, o) == Done(Object(PutAll([], MemberList(entries))), o + 1 + |text|)
  {
    hide ParseNext, ParseMembers, OpenEntries, HasAt, At, SkipWs, MemberList, PutAll, StringText, Blank, IsSpace;
    var rest := before + (StringText(key) + after);
    HasAtHead(s, o, '{', OpenEntries(entries, rest));
    EntriesBefore(s, o + 1, [], entries, rest);
    var p := o + 1 + |OpenEntries(entries, rest)| - |rest|;
    LoneKey(s, p, before, key, after);
    NoColon(s, p, PutAll([], MemberList(entries)), ParseNext(s, p), p + |rest|);
    if entries == [] {
      NoOpenItems(rest);
    }
    StartsMembers(s, o);
  }

  lemma LoneKey(s: string, o: nat, before: string, key: seq<Atom>, after: string)
    requires Blank(before) && ValidAtoms(key) && Blank(after) && HasAt(s, o, before + (StringText(key) + after))
    requires !IsSpace(At(s, o + |before| + |StringText(key)| + |after|))
    ensures var e := o + |before| + |StringText(key)|;
            && ParseNext(s, o) == Done(String(AtomsMeaning(key)), e) && e <= |s|
            && SkipWs(s, e) == e + |after| && At(s, SkipWs(s, o)) == '\"'
  {
    hide ParseNext, HasAt, At, SkipWs, Blank, AtomsText;
    var text := StringText(key);
    BracketsAreVisible();
    hide IsSpace, StringText;
    assert text[0] == '\"' by {
      QuoteComesFirst(key);
    }
    Sandwich(s, o, before, text, after);
    ParseStringText(s, o + |before|, key);
    ParseNextAfterSpace(s, o, o + |before|);
  }

  lemma QuoteComesFirst(key: seq<Atom>)
    ensures StringText(key) != [] && StringText(key)[0] == '\"'
  {
  }

  // Scalars

  /** A `\u` without its four hexadecimal digits: the whole string is empty, and the parser stays in
      front of the `u`. */
  lemma BadUnicodeEscape(s: string, o: nat, atoms: seq<Atom>)
    requires ValidAtoms(atoms) && HasAt(s, o, "\"" + (AtomsText(atoms) + "\\u"))
    requires var d := o + |AtomsText(atoms)| + 3;
             d + 4 > |s| || exists k :: d <= k < d + 4 && s[k] !in "0123456789abcdefABCDEF"
    ensures ParseNext(s, o) == Done(String(""), o + |AtomsText(atoms)| + 2)
  {
    hide ParseStringBody, AtomsText, HasAt, ParseArray, ParseObject;
    HasAtHead(s, o, '\"', AtomsText(atoms) + "\\u");
    HasAtSplit(s, o + 1, AtomsText(atoms), "\\u");
    NoSkip(s, o);
    AtomsBefore(s, o + 1, "", atoms);
    NoHexFollows(s, o + 1 + |AtomsText(atoms)|, AtomsMeaning(atoms));
    assert "" + AtomsMeaning(atoms) == AtomsMeaning(atoms);
  }

  lemma {:induction false} AtomsBefore(s: string, i: nat, acc: string, atoms: seq<Atom>)
    requires ValidAtoms(atoms) && HasAt(s, i, AtomsText(atoms))
    ensures ParseStringBody(s, i, acc) == ParseStringBody(s, i + |AtomsText(atoms)|, acc + AtomsMeaning(atoms))
    decreases |atoms|
  {
    hide ParseStringBody, Atom.Text, Atom.Meaning, Atom.Valid, AtomsText, AtomsMeaning, HasAt;
    if atoms == [] {
      NoAtoms();
      assert acc + "" == acc;
    } else {
      var a := atoms[0];
      FirstAtom(atoms);
      HasAtSplit(s, i, a.Text(), AtomsText(atoms[1..]));
      DecodedAtom(s, i, acc, a);
      AtomsBefore(s, i + |a.Text()|, acc + a.Meaning(), atoms[1..]);
      AssocCat(acc, a.Meaning(), AtomsMeaning(atoms[1..]));
    }
  }

  lemma NoHexFollows(s: string, i: nat, acc: string)
    requires HasAt(s, i, "\\u")
    requires i + 6 > |s| || exists k :: i + 2 <= k < i + 6 && s[k] !in "0123456789abcdefABCDEF"
    ensures ParseStringBody(s, i, acc) == Done(String(""), i + 1)
  {
    assert s[i] == s[i..i + 2][0] && s[i + 1] == s[i..i + 2][1];
    if i + 6 <= |s| {
      var k :| i + 2 <= k < i + 6 && s[k] !in "0123456789abcdefABCDEF";
      HexMembers(s[k]);
      assert s[i + 2..i + 6][k - i - 2] == s[k];
    }
  }

  /** A number that nothing it may stand before follows: Null, and one character too many is gone. */
  lemma UnfollowedNumber(s: string, o: nat, lex: string)
    requires lex != [] && (lex[0] == '-' || IsDigit(lex[0])) && All(lex, IsNumberChar) && HasAt(s, o, lex)
    requires At(s, o + |lex|) !in " \t\n\U{0B}\U{0C}\r,]}-.0123456789eE"
    ensures ParseNext(s, o) == Done(Null, o + |lex| + 1)
  {
    hide Convert, ParseExponent, ParseNext, IsNumberChar, IsFollower, IsDigit;
    var c := At(s, o + |lex|);
    ClassMembers(c);
    OutsideClasses(c);
    assert s[o] == lex[0];
    StartsNumber(s, o);
    RunEndOf(s, o, lex, IsNumberChar);
  }

  lemma OutsideClasses(c: char)
    requires c !in " \t\n\U{0B}\U{0C}\r,]}-.0123456789eE"
    ensures c !in " \t\n\U{0B}\U{0C}\r,]}" && c !in "-.0123456789" && c != 'e' && c != 'E'
  {
    assert " \t\n\U{0B}\U{0C}\r,]}-.0123456789eE" == " \t\n\U{0B}\U{0C}\r,]}" + "-.0123456789" + "eE";
  }

  /** A misspelt word, or a character that starts no value: Null, and nothing of it is consumed. */
  lemma NothingStarts(s: string, o: nat)
    requires o <= |s|
    requires var p := SkipWs(s, o);
             var c := At(s, p);
             && c !in "[{\"-0123456789"
             && !HasAt(s, p, "true") && !HasAt(s, p, "false") && !HasAt(s, p, "null")
    ensures ParseNext(s, o) == Done(Null, SkipWs(s, o))
  {
    hide HasAt, ParseArray, ParseObject, ParseString, ParseNumber, SkipWs;
    var c := At(s, SkipWs(s, o));
    assert "[{\"-0123456789" == "[{\"-" + "0123456789";
    DigitMembers(c);
  }

  // Escapes

  lemma OneAtom(a: Atom)
    requires a.Valid()
    ensures Load("\"" + (a.Text() + "\"")) == Done(String(a.Meaning()), |a.Text()| + 2)
  {
    hide ParseNext, Atom.Text, Atom.Meaning, Atom.Valid;
    var s := "\"" + (a.Text() + "\"");
    FirstAtom([a]);
    assert [a][1..] == [];
    NoAtoms();
    assert a.Text() + "" == a.Text() && a.Meaning() + "" == a.Meaning();
    assert HasAt(s, 0, StringText([a]));
    ParseStringText(s, 0, [a]);
  }

  /** `\/` is a slash, */
  lemma SlashIsRead()
    ensures Load("\"\\/\"") == Done(String("/"), 4)
  {
    hide Load;
    OneAtom(Known('/'));
    assert "\"" + ("\\/" + "\"") == "\"\\/\"";
  }

  /** an unknown escape is a lone backslash, */
  lemma UnknownEscapeIsRead()
    ensures Load("\"\\x\"") == Done(String("\\"), 4)
  {
    hide Load;
    OneAtom(Unknown('x'));
    assert "\"" + ("\\x" + "\"") == "\"\\x\"";
  }

  /** and a `\u` escape stays as it is. */
  lemma UnicodeEscapeIsRead()
    ensures Load("\"\\u00e9\"") == Done(String("\\u00e9"), 8)
  {
    hide Load;
    OneAtom(Unicode("00e9"));
    assert "\\u" + "00e9" == "\\u00e9";
    assert "\"" + ("\\u00e9" + "\"") == "\"\\u00e9\"";
  }
}
