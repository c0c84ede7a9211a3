/** Printing and parsing are inverse to each other, and exactly when. */
module JsonRoundTrip {
  import opened Chars
  import opened Numbers
  import opened Escapes
  import opened OrderedMap
  import opened JsonValue
  import opened JsonGrammar
  import opened JsonDoc
  import opened JsonLayout

  // Everything the parser produces is canonical.

  lemma {:induction false} ParsedIsCanonical(s: string, o: nat)
    ensures var r := ParseNext(s, o); r.Done? ==> Canonical(r.value)
    decreases |s| - o, 3
  {
    if o <= |s| {
      var p := SkipWs(s, o);
      var c := At(s, p);
      if c == '[' {
        if At(s, SkipWs(s, p + 1)) != ']' {
          ParsedItemsAreCanonical(s, SkipWs(s, p + 1), []);
        }
      } else if c == '{' {
        if At(s, SkipWs(s, p + 1)) != '}' {
          ParsedMembersAreCanonical(s, SkipWs(s, p + 1), []);
        }
      } else if c != '\"' && c != 't' && c != 'f' && c != 'n' && (IsDigit(c) || c == '-') {
        ParsedNumberIsScalar(s, p);
      }
    }
  }

  lemma ParsedNumberIsScalar(s: string, o: nat)
    requires o <= |s|
    ensures var r := ParseNumber(s, o); r.Done? ==> r.value.Null? || r.value.IsNumber()
  {
  }

  lemma {:induction false} ParsedItemsAreCanonical(s: string, o: nat, acc: seq<Value>)
    requires 0 < o && CanonicalItems(acc)
    ensures var r := ParseItems(s, o, acc); r.Done? ==> Canonical(r.value)
    decreases |s| - o, 4
  {
    hide ParseNext, Canonical;
    var item := ParseNext(s, o);
    ParsedIsCanonical(s, o);
    match AfterItem(s, acc, item) {
      case More(acc', p) =>
        assert acc' == acc + [item.value];
        ParsedItemsAreCanonical(s, p, acc');
      case Stop(r) =>
        assert ParseItems(s, o, acc) == r;
        StoppedArray(s, acc, item);
    }
  }

  lemma StoppedArray(s: string, acc: seq<Value>, item: Parsed)
    requires CanonicalItems(acc) && (item.Done? ==> Canonical(item.value))
    ensures var r := AfterItem(s, acc, item); r.Stop? && r.result.Done? ==> Canonical(r.result.value)
  {
  }

  lemma PutCanonical(acc: seq<Member>, key: string, v: Value)
    requires CanonicalMembers(acc) && Sorted(acc) && IsEscaped(key) && Canonical(v)
    ensures CanonicalMembers(Put(acc, key, v)) && Sorted(Put(acc, key, v))
  {
    hide Canonical, IsEscaped;
    PutSorted(acc, key, v);
    PutMembers(acc, key, v);
    var r := Put(acc, key, v);
    forall i | 0 <= i < |r|
      ensures IsEscaped(r[i].key) && Canonical(r[i].val)
    {
      assert r[i] in r;
    }
  }

  lemma {:induction false} ParsedMembersAreCanonical(s: string, o: nat, acc: seq<Member>)
    requires 0 < o && CanonicalMembers(acc) && Sorted(acc)
    ensures var r := ParseMembers(s, o, acc); r.Done? ==> Canonical(r.value)
    decreases |s| - o, 5
  {
    hide ParseMember, Canonical;
    var step := ParseMember(s, o, acc);
    ParsedMemberIsCanonical(s, o, acc);
    if step.More? {
      ParsedMembersAreCanonical(s, step.offset, step.acc);
    }
  }

  lemma {:induction false} ParsedMemberIsCanonical(s: string, o: nat, acc: seq<Member>)
    requires 0 < o && CanonicalMembers(acc) && Sorted(acc)
    ensures var r := ParseMember(s, o, acc);
            && (r.More? ==> CanonicalMembers(r.acc) && Sorted(r.acc))
            && (r.Stop? && r.result.Done? ==> Canonical(r.result.value))
    decreases |s| - o, 4
  {
    var key := AfterKey(s, acc, ParseNext(s, o));
    if key.More? {
      var value := ParseNext(s, key.offset);
      ParsedIsCanonical(s, key.offset);
      KeyIsEscaped(s, acc, ParseNext(s, o));
      hide ParseNext, AfterKey, Put, IsEscaped;
      if value.Done? {
        PutCanonical(acc, key.acc, value.value);
      }
    }
  }

  lemma KeyIsEscaped(s: string, acc: seq<Member>, key: Parsed)
    ensures var r := AfterKey(s, acc, key); r.More? ==> IsEscaped(r.acc)
  {
    if key.Done? && key.value.String? {
      EscapeIsEscaped(key.value.str);
    }
  }

  /** `JSON::Load` produces canonical values, whatever the text. */
  lemma LoadIsCanonical(s: string)
    ensures Load(s).Done? ==> Canonical(Load(s).value)
  {
    ParsedIsCanonical(s, 0);
  }

  // The parser inverts the printer.

  /** In place: a printed canonical value is read back, floats rounded to six decimals, and the
      offset rests just past it. A number needs one of its followers next. */
  lemma ParserInvertsPrinter(s: string, o: nat, v: Value, depth: int, tab: string)
    requires Canonical(v) && Blank(tab) && HasAt(s, o, Print(v, depth, tab))
    requires v.IsNumber() ==> IsFollower(At(s, o + |Print(v, depth, tab)|))
    ensures ParseNext(s, o) == Done(Rounded(v), o + |Print(v, depth, tab)|)
  {
    hide ParseNext, Print, DocText, Meaning, ValidDoc, Rounded, Canonical;
    LayoutText(v, depth, tab);
    LayoutMeaning(v, depth, tab);
    ParseDoc(s, o, DocOf(v, depth, tab));
  }

  lemma Embedded(prefix: string, text: string, suffix: string)
    ensures HasAt(prefix + text + suffix, |prefix|, text)
    ensures At(prefix + text + suffix, |prefix| + |text|) == if suffix == [] then '\0' else suffix[0]
  {
    var s := prefix + text + suffix;
    assert s[|prefix|..|prefix| + |text|] == text;
  }

  lemma ParserInvertsPrinterWithin(prefix: string, v: Value, depth: int, tab: string, suffix: string)
    requires Canonical(v) && Blank(tab)
    requires v.IsNumber() ==> suffix != [] && IsFollower(suffix[0])
    ensures var text := Print(v, depth, tab);
            ParseNext(prefix + text + suffix, |prefix|) == Done(Rounded(v), |prefix| + |text|)
  {
    hide *;
    var text := Print(v, depth, tab);
    Embedded(prefix, text, suffix);
    ParserInvertsPrinter(prefix + text + suffix, |prefix|, v, depth, tab);
  }

  /** Layout independence: whatever white space, escapes and numerals a writer chooses, only the
      meaning of the document is read. */
  lemma EveryLayoutIsReadAlike(prefix: string, d: Doc, suffix: string)
    requires ValidDoc(d)
    requires d.DNumber? ==> suffix != [] && IsFollower(suffix[0])
    ensures ParseNext(prefix + DocText(d) + suffix, |prefix|) == Done(Meaning(d), |prefix| + |DocText(d)|)
  {
    hide *;
    Embedded(prefix, DocText(d), suffix);
    ParseDoc(prefix + DocText(d) + suffix, |prefix|, d);
  }

  /** `dump` is one such layout. */
  lemma PrintIsALayout(v: Value, depth: int, tab: string)
    requires Canonical(v) && Blank(tab)
    ensures exists d :: ValidDoc(d) && DocText(d) == Print(v, depth, tab) && Meaning(d) == Rounded(v)
  {
    LayoutText(v, depth, tab);
    LayoutMeaning(v, depth, tab);
  }

  // Whole texts

  /** A bare number does not load: nothing follows it. */
  lemma BareNumberLoadsAsNull(v: Value)
    requires v.IsNumber()
    ensures Load(Dump(v)) == Done(Null, |Dump(v)| + 1)
  {
    var t := Dump(v);
    if v.Floating? {
      FloatTextChars(v.float);
    } else {
      IntTextChars(v.num);
    }
    hide FloatText, IntText, Print;
    NoSkip(t, 0);
    assert ParseNext(t, 0) == ParseNumber(t, 0) by {
      hide ParseNumber;
    }
    hide ParseNext, ParseExponent, Convert;
    RunEndIs(t, 0, |t|, IsNumberChar);
  }

  /** Printing and loading gives a value back, up to six decimals, exactly if the value is
      canonical and is not a bare number. */
  lemma LoadInvertsDumpIff(v: Value)
    ensures Load(Dump(v)) == Done(Rounded(v), |Dump(v)|) <==> Canonical(v) && !v.IsNumber()
  {
    if v.IsNumber() {
      BareNumberLoadsAsNull(v);
    } else if Canonical(v) {
      assert HasAt(Dump(v), 0, Dump(v));
      ParserInvertsPrinter(Dump(v), 0, v, 1, "  ");
    } else if Load(Dump(v)) == Done(Rounded(v), |Dump(v)|) {
      LoadIsCanonical(Dump(v));
      RoundedCanonical(v);
    }
  }

  /** Reprinting what was loaded from any text at all, however malformed: the second load agrees
      with the first up to six decimals and the second print agrees with the first exactly, if and
      only if the first load was not of a bare number. */
  lemma ReprintIsStable(s: string)
    requires Load(s).Done?
    ensures var v := Load(s).value;
            var again := Load(Dump(v));
            && again.Done?
            && (!v.IsNumber() ==> again.value == Rounded(v) && Dump(again.value) == Dump(v))
            && (v.IsNumber() ==> again.value == Null && Dump(again.value) != Dump(v))
            && (Rounded(v) == v ==> (again.value == v <==> !v.IsNumber()))
  {
    var v := Load(s).value;
    LoadIsCanonical(s);
    LoadInvertsDumpIff(v);
    PrintRounded(v, 1, "  ");
    if v.IsNumber() {
      BareNumberLoadsAsNull(v);
      if v.Floating? {
        FloatTextChars(v.float);
      } else {
        IntTextChars(v.num);
      }
      assert Dump(v)[0] != 'n';
    }
  }

  // Strings

  /** Quote, escape, quote is read back to the string, just past the closing quote. */
  lemma StringTextIsInverted(prefix: string, str: string, suffix: string)
    ensures var text := "\"" + (Escape(str) + "\"");
            ParseString(prefix + text + suffix, |prefix|) == Done(String(str), |prefix| + |text|)
  {
    var text := "\"" + (Escape(str) + "\"");
    var s := prefix + text + suffix;
    Embedded(prefix, text, suffix);
    HasAtHead(s, |prefix|, '\"', Escape(str) + "\"");
    AtomsOfSpells(str);
    ParseAtoms(s, |prefix| + 1, "", AtomsOf(str));
    assert "" + str == str;
  }

  /** Hence `json_escape` loses nothing. */
  lemma EscapeIsInjective(a: string, b: string)
    requires Escape(a) == Escape(b)
    ensures a == b
  {
    StringTextIsInverted("", a, "");
    StringTextIsInverted("", b, "");
  }

  // Numbers

  lemma IntegerTextIsInverted(prefix: string, i: int64, suffix: string)
    requires suffix != [] && IsFollower(suffix[0])
    ensures ParseNumber(prefix + IntText(i) + suffix, |prefix|) == Done(Integral(i), |prefix| + |IntText(i)|)
  {
    hide *;
    NumeralOfInt(i);
    Embedded(prefix, IntText(i), suffix);
    NumeralIsRead(prefix + IntText(i) + suffix, |prefix|, IntText(i));
  }

  /** Every double comes back rounded to six decimals, still as a double and with its sign. */
  lemma FloatTextIsInverted(prefix: string, f: Float, suffix: string)
    requires suffix != [] && IsFollower(suffix[0])
    ensures ParseNumber(prefix + FloatText(f) + suffix, |prefix|)
         == Done(Floating(RoundedFloat(f)), |prefix| + |FloatText(f)|)
  {
    hide *;
    NumeralOfFloat(f);
    Embedded(prefix, FloatText(f), suffix);
    NumeralIsRead(prefix + FloatText(f) + suffix, |prefix|, FloatText(f));
  }

  /** A whole number of millionths survives exactly: whole and fractional part, padding and sign. */
  lemma MillionthsSurvive(neg: bool, m: nat)
    ensures var f := Float(neg, m as real / 1000000.0); RoundedFloat(f) == f
  {
    RoundingIsStable(m);
  }

  // Objects

  /** However an object is laid out, a key has the value of its last occurrence; keys are equal if
      the strings they spell are. */
  lemma LastMemberWins(prefix: string, d: Doc, suffix: string, i: nat)
    requires ValidDoc(d) && d.DObject? && i < |d.entries|
    requires forall j :: i < j < |d.entries| ==> KeyOf(d.entries, j) != KeyOf(d.entries, i)
    ensures var r := ParseNext(prefix + DocText(d) + suffix, |prefix|);
            && r.Done? && r.value.Object?
            && Find(r.value.members, Escape(KeyOf(d.entries, i))) == Some(ValueOf(d.entries, i))
  {
    hide ParseNext, Meaning, MemberList, ValidEntries;
    EveryLayoutIsReadAlike(prefix, d, suffix);
    var ps := MemberList(d.entries);
    MemberListAt(d.entries, i);
    MemberListLength(d.entries);
    forall j | i <= j < |d.entries|
      ensures j < |ps| && ps[j] == Pair(Escape(KeyOf(d.entries, j)), ValueOf(d.entries, j))
    {
      MemberListAt(d.entries, j);
    }
    forall j | i < j < |ps|
      ensures ps[j].key != ps[i].key
    {
      if Escape(KeyOf(d.entries, j)) == Escape(KeyOf(d.entries, i)) {
        EscapeIsInjective(KeyOf(d.entries, j), KeyOf(d.entries, i));
      }
    }
    LastAssignmentWins([], ps, i);
    assert Meaning(d) == Object(PutAll([], ps)) by {
      MeaningOfObject(d);
    }
  }

  /** A key that no member spells is not found. */
  lemma MissingMember(d: Doc, key: string)
    requires ValidDoc(d) && d.DObject?
    requires forall j :: 0 <= j < |d.entries| ==> KeyOf(d.entries, j) != key
    ensures var r := Load(DocText(d));
            r.Done? && r.value.Object? && Find(r.value.members, Escape(key)) == None
  {
    hide ParseNext, Meaning, MemberList, ValidEntries;
    EveryLayoutIsReadAlike("", d, "");
    assert "" + DocText(d) + "" == DocText(d);
    var ps := MemberList(d.entries);
    MemberListLength(d.entries);
    forall j | 0 <= j < |ps|
      ensures ps[j].key != Escape(key)
    {
      MemberListAt(d.entries, j);
      if ps[j].key == Escape(key) {
        EscapeIsInjective(KeyOf(d.entries, j), key);
      }
    }
    PutAllKeeps([], ps, Escape(key));
    MeaningOfObject(d);
  }

  lemma MeaningOfObject(d: Doc)
    requires ValidDoc(d) && d.DObject?
    ensures Meaning(d) == Object(PutAll([], MemberList(d.entries)))
  {
  }

  lemma {:induction false} MemberListLength(entries: seq<Entry>)
    requires ValidEntries(entries)
    ensures |MemberList(entries)| == |entries|
  {
    if entries != [] {
      MemberListLength(entries[1..]);
    }
  }

  lemma {:induction false} ValidEntryAt(entries: seq<Entry>, i: nat)
    requires ValidEntries(entries) && i < |entries|
    ensures ValidEntry(entries[i]) && ValidDoc(entries[i].value.doc)
  {
    if i == 0 {
      assert ValidItem(entries[0].value);
    } else {
      ValidEntryAt(entries[1..], i - 1);
    }
  }

  /** The string a key spells. */
  function KeyOf(entries: seq<Entry>, i: nat): string
    requires ValidEntries(entries) && i < |entries|
  {
    ValidEntryAt(entries, i);
    AtomsMeaning(entries[i].key)
  }

  function ValueOf(entries: seq<Entry>, i: nat): Value
    requires ValidEntries(entries) && i < |entries|
  {
    ValidEntryAt(entries, i);
    Meaning(entries[i].value.doc)
  }

  lemma {:induction false} MemberListAt(entries: seq<Entry>, i: nat)
    requires ValidEntries(entries) && i < |entries|
    ensures i < |MemberList(entries)|
    ensures MemberList(entries)[i] == Pair(Escape(KeyOf(entries, i)), ValueOf(entries, i))
  {
    if i > 0 {
      MemberListAt(entries[1..], i - 1);
      assert entries[1..][i - 1] == entries[i];
    }
  }

  /** Two objects that list the same members with distinct keys, in whatever order and layout, load
      as the same value and so print the same. */
  lemma MemberOrderIsIrrelevant(d: Doc, e: Doc)
    requires ValidDoc(d) && ValidDoc(e) && d.DObject? && e.DObject?
    requires multiset(MemberList(d.entries)) == multiset(MemberList(e.entries))
    requires DistinctKeys(MemberList(d.entries)) && DistinctKeys(MemberList(e.entries))
    ensures Load(DocText(d)).Done? && Load(DocText(e)).Done?
    ensures Load(DocText(d)).value == Load(DocText(e)).value
    ensures Dump(Load(DocText(d)).value) == Dump(Load(DocText(e)).value)
  {
    var s, t := DocText(d), DocText(e);
    assert HasAt(s, 0, s) && HasAt(t, 0, t);
    ParseDoc(s, 0, d);
    ParseDoc(t, 0, e);
    OrderOfAssignmentsIsIrrelevant(MemberList(d.entries), MemberList(e.entries));
  }
}
