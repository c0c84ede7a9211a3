/** Which texts the parser reads past their end, which never, and which load as nothing. */
module JsonBounds {
  import opened Chars
  import opened Numbers
  import opened Escapes
  import opened OrderedMap
  import opened JsonValue
  import opened JsonGrammar
  import opened JsonDoc

  // Texts that are read within their bounds

  /** Just past the closing quote of a string whose body is looked at from `i` on. */
  function StringEnd(s: string, i: nat): (r: Option<nat>)
    ensures r.Some? ==> i < r.value <= |s|
    decreases |s| - i
  {
    if i >= |s| then None
    else if s[i] == '\"' then Some(i + 1)
    else if s[i] == '\\' then StringEnd(s, i + 2)
    else StringEnd(s, i + 1)
  }

  /** A digit, or a sign and a digit. */
  predicate ExponentAt(s: string, i: nat) {
    i < |s| && (IsDigit(s[i]) || ((s[i] == '+' || s[i] == '-') && i + 1 < |s| && IsDigit(s[i + 1])))
  }

  /** From `i` on, outside strings: every string is closed, no number runs into a quote, and an `e`
      after a number has an exponent. */
  predicate Tame(s: string, i: nat)
    decreases |s| - i
  {
    if i >= |s| then true
    else if s[i] == '\"' then StringEnd(s, i + 1).Some? && Tame(s, StringEnd(s, i + 1).value)
    else
      && (IsNumberChar(s[i]) && i + 1 < |s| ==>
            s[i + 1] != '\"' && (s[i + 1] == 'e' || s[i + 1] == 'E' ==> ExponentAt(s, i + 2)))
      && Tame(s, i + 1)
  }

  /** A text one can recognise by scanning it once: tame, and not ending in a number. */
  predicate Tidy(s: string) {
    Tame(s, 0) && (s != [] ==> !IsNumberChar(s[|s| - 1]))
  }

  /** Where the parser may be after reading something: outside strings, or at the `u` of a bad
      escape, where every caller stops. */
  predicate Settled(s: string, p: nat) {
    p <= |s| && (Tame(s, p) || At(s, p) == 'u')
  }

  predicate Within(s: string, r: Parsed) {
    !r.OutOfBounds? && (r.Done? ==> Settled(s, r.offset))
  }

  predicate StepWithin<A>(s: string, step: Step<A>) {
    match step
    case More(_, p) => Tame(s, p)
    case Stop(r) => Within(s, r)
  }

  lemma {:induction false} TameRun(s: string, i: nat, r: nat)
    requires i <= r <= |s| && Tame(s, i) && forall k :: i <= k < r ==> s[k] != '\"'
    ensures Tame(s, r)
    decreases r - i
  {
    if i < r {
      TameRun(s, i + 1, r);
    }
  }

  lemma SkipTame(s: string, i: nat)
    requires i <= |s| && Tame(s, i)
    ensures Tame(s, SkipWs(s, i))
  {
    TameRun(s, i, SkipWs(s, i));
  }

  lemma SkipSettled(s: string, i: nat)
    requires Settled(s, i)
    ensures Settled(s, SkipWs(s, i)) && (At(s, SkipWs(s, i)) == 'u' || Tame(s, SkipWs(s, i)))
  {
    hide Tame;
    if Tame(s, i) {
      SkipTame(s, i);
    } else {
      NoSkip(s, i);
    }
  }

  lemma TameNext(s: string, i: nat)
    requires i < |s| && Tame(s, i) && s[i] != '\"'
    ensures Tame(s, i + 1)
  {
  }

  lemma HexEnds(s: string, i: nat)
    requires HexFollows(s, i)
    ensures StringEnd(s, i) == StringEnd(s, i + 4)
  {
    var h := s[i..i + 4];
    assert s[i] == h[0] && s[i + 1] == h[1] && s[i + 2] == h[2] && s[i + 3] == h[3];
    assert StringEnd(s, i) == StringEnd(s, i + 1);
    assert StringEnd(s, i + 1) == StringEnd(s, i + 2);
    assert StringEnd(s, i + 2) == StringEnd(s, i + 3);
    assert StringEnd(s, i + 3) == StringEnd(s, i + 4);
  }

  /** A closed string is read up to its end, or up to the `u` of a bad escape. */
  lemma {:induction false} ClosedString(s: string, i: nat, acc: string)
    requires StringEnd(s, i).Some?
    ensures var r := ParseStringBody(s, i, acc);
            r.Done? && (r.offset == StringEnd(s, i).value || At(s, r.offset) == 'u')
    decreases |s| - i
  {
    var c := s[i];
    if c == '\\' {
      var code := At(s, i + 1);
      if EscapeMeaning(code).Some? {
        ClosedString(s, i + 2, acc + [EscapeMeaning(code).value]);
      } else if code != 'u' {
        ClosedString(s, i + 2, acc + "\\");
      } else if HexFollows(s, i + 2) {
        HexEnds(s, i + 2);
        ClosedString(s, i + 6, acc + "\\u" + s[i + 2..i + 6]);
      }
    } else if c != '\"' {
      ClosedString(s, i + 1, acc + [c]);
    }
  }

  lemma NumberWithin(s: string, o: nat)
    requires o < |s| && (IsDigit(s[o]) || s[o] == '-') && Tame(s, o) && !IsNumberChar(s[|s| - 1])
    ensures Within(s, ParseNumber(s, o))
  {
    hide ParseExponent, Convert, RunEnd, ExponentAt;
    var e := RunEnd(s, o, IsNumberChar);
    assert o < e < |s| && IsNumberChar(s[e - 1]);
    TameRun(s, o, e - 1);
    TameRun(s, o, e);
    TameNext(s, e);
    if s[e] == 'e' || s[e] == 'E' {
      ExponentWithin(s, e + 1, s[o..e]);
    }
  }

  lemma ExponentWithin(s: string, o: nat, val: string)
    requires o <= |s| && Tame(s, o) && ExponentAt(s, o) && !IsNumberChar(s[|s| - 1])
    ensures Within(s, ParseExponent(s, o, val))
  {
    hide Convert, Stoll, RunEnd, Tame;
    var d := if s[o] == '-' then o + 2 else o + 1;
    assert s[o] == '+' ==> IsDigit(s[d]);
    var e := RunEnd(s, d, IsDigit);
    assert d <= e < |s| && IsDigit(s[e - 1]);
    TameRun(s, o, e - 1);
    TameAfterDigit(s, e - 1);
    TameNext(s, e);
  }

  lemma TameAfterDigit(s: string, i: nat)
    requires i + 1 < |s| && Tame(s, i) && IsDigit(s[i])
    ensures s[i + 1] != '\"' && Tame(s, i + 1)
  {
  }

  lemma WordWithin(s: string, o: nat, word: string)
    requires HasAt(s, o, word) && Tame(s, o) && '\"' !in word
    ensures Tame(s, o + |word|)
  {
    forall k | o <= k < o + |word|
      ensures s[k] != '\"'
    {
      assert s[k] == word[k - o];
    }
    TameRun(s, o, o + |word|);
  }

  /** From outside strings, reading a tidy text never leaves its bounds. */
  lemma {:induction false} TidyWithin(s: string, o: nat)
    requires o <= |s| && Tame(s, o) && (s != [] ==> !IsNumberChar(s[|s| - 1]))
    ensures Within(s, ParseNext(s, o))
    decreases |s| - o, 3
  {
    var p := SkipWs(s, o);
    var c := At(s, p);
    SkipTame(s, o);
    if c == '[' {
      ArrayWithin(s, p);
    } else if c == '{' {
      ObjectWithin(s, p);
    } else if c == '\"' {
      ClosedString(s, p + 1, "");
    } else if c == 't' || c == 'f' {
      BoolWithin(s, p);
    } else if c == 'n' {
      NullWithin(s, p);
    } else if IsDigit(c) || c == '-' {
      NumberWithin(s, p);
    }
  }

  lemma {:induction false} ArrayWithin(s: string, o: nat)
    requires o < |s| && s[o] == '[' && Tame(s, o) && !IsNumberChar(s[|s| - 1])
    ensures Within(s, ParseArray(s, o))
    decreases |s| - o, 2
  {
    hide ParseNext, ParseItems, Tame;
    TameNext(s, o);
    SkipTame(s, o + 1);
    var p := SkipWs(s, o + 1);
    if At(s, p) != ']' {
      ItemsWithin(s, p, []);
    } else {
      TameNext(s, p);
    }
  }

  lemma {:induction false} ObjectWithin(s: string, o: nat)
    requires o < |s| && s[o] == '{' && Tame(s, o) && !IsNumberChar(s[|s| - 1])
    ensures Within(s, ParseObject(s, o))
    decreases |s| - o, 2
  {
    hide ParseNext, ParseMembers, Tame;
    TameNext(s, o);
    SkipTame(s, o + 1);
    var p := SkipWs(s, o + 1);
    if At(s, p) != '}' {
      MembersWithin(s, p, []);
    } else {
      TameNext(s, p);
    }
  }

  lemma BoolWithin(s: string, o: nat)
    requires o <= |s| && Tame(s, o)
    ensures Within(s, ParseBool(s, o))
  {
    if HasAt(s, o, "true") {
      WordWithin(s, o, "true");
    } else if HasAt(s, o, "false") {
      WordWithin(s, o, "false");
    }
  }

  lemma NullWithin(s: string, o: nat)
    requires o <= |s| && Tame(s, o)
    ensures Within(s, ParseNull(s, o))
  {
    if HasAt(s, o, "null") {
      WordWithin(s, o, "null");
    }
  }

  lemma {:induction false} ItemsWithin(s: string, o: nat, acc: seq<Value>)
    requires 0 < o <= |s| && Tame(s, o) && !IsNumberChar(s[|s| - 1])
    ensures Within(s, ParseItems(s, o, acc))
    decreases |s| - o, 4
  {
    hide ParseNext, Tame;
    var item := ParseNext(s, o);
    TidyWithin(s, o);
    ItemWithin(s, acc, item);
    match AfterItem(s, acc, item) {
      case More(acc', p) => ItemsWithin(s, p, acc');
      case Stop(r) => assert ParseItems(s, o, acc) == r;
    }
  }

  lemma ItemWithin(s: string, acc: seq<Value>, item: Parsed)
    requires Within(s, item)
    ensures StepWithin(s, AfterItem(s, acc, item))
  {
    hide Tame;
    if item.Done? {
      var p := SkipWs(s, item.offset);
      SkipSettled(s, item.offset);
      if At(s, p) == ',' || At(s, p) == ']' {
        TameNext(s, p);
      }
    }
  }

  lemma {:induction false} MembersWithin(s: string, o: nat, acc: seq<Member>)
    requires 0 < o <= |s| && Tame(s, o) && !IsNumberChar(s[|s| - 1])
    ensures Within(s, ParseMembers(s, o, acc))
    decreases |s| - o, 5
  {
    hide ParseMember, Tame;
    MemberWithin(s, o, acc);
    var step := ParseMember(s, o, acc);
    if step.More? {
      MembersWithin(s, step.offset, step.acc);
    }
  }

  lemma {:induction false} MemberWithin(s: string, o: nat, acc: seq<Member>)
    requires 0 < o <= |s| && Tame(s, o) && !IsNumberChar(s[|s| - 1])
    ensures StepWithin(s, ParseMember(s, o, acc))
    decreases |s| - o, 4
  {
    hide ParseNext, AfterKey, AfterValue, Tame;
    var key := ParseNext(s, o);
    TidyWithin(s, o);
    KeyWithin(s, acc, key);
    var colon := AfterKey(s, acc, key);
    if colon.More? {
      TidyWithin(s, colon.offset);
      ValueWithin(s, acc, colon.acc, ParseNext(s, colon.offset));
    }
  }

  lemma KeyWithin(s: string, acc: seq<Member>, key: Parsed)
    requires Within(s, key)
    ensures StepWithin(s, AfterKey(s, acc, key))
  {
    hide Tame;
    if key.Done? {
      var p := SkipWs(s, key.offset);
      SkipSettled(s, key.offset);
      if At(s, p) == ':' {
        TameNext(s, p);
        SkipTame(s, p + 1);
      }
    }
  }

  lemma ValueWithin(s: string, acc: seq<Member>, key: string, value: Parsed)
    requires Within(s, value)
    ensures StepWithin(s, AfterValue(s, acc, key, value))
  {
    hide Tame;
    if value.Done? {
      var p := SkipWs(s, value.offset);
      SkipSettled(s, value.offset);
      if At(s, p) == ',' || At(s, p) == '}' {
        TameNext(s, p);
      }
    }
  }

  /** A tidy text, well-formed or not, is read within its bounds. */
  lemma TidyTextsAreReadInBounds(s: string)
    requires Tidy(s)
    ensures !Load(s).OutOfBounds?
  {
    TidyWithin(s, 0);
  }

  // Texts that are read past their end

  /** A text that breaks off: in a number; in a string, perhaps just after a backslash; or in an
      array or object of which some elements are complete and the last one breaks off, in the key or
      in the value. */
  datatype Open =
    | OpenNumber(before: string, lex: string, exp: string)
    | OpenString(before: string, atoms: seq<Atom>, slash: bool)
    | OpenArray(before: string, items: seq<Item>, lastItem: Open)
    | OpenKey(before: string, entries: seq<Entry>, lastKey: Open)
    | OpenObject(before: string, entries: seq<Entry>, lead: string, key: seq<Atom>, beforeColon: string,
                 lastValue: Open)

  function OpenItems(items: seq<Item>, rest: string): string {
    if items == [] then rest else ItemText(items[0]) + ("," + OpenItems(items[1..], rest))
  }

  function OpenEntries(entries: seq<Entry>, rest: string): string {
    if entries == [] then rest else EntryText(entries[0]) + ("," + OpenEntries(entries[1..], rest))
  }

  /** The key of the last member, up to its colon. */
  function KeyText(lead: string, key: seq<Atom>, beforeColon: string, rest: string): string {
    lead + (StringText(key) + (beforeColon + (":" + rest)))
  }

  function Slash(slash: bool): string {
    if slash then "\\" else ""
  }

  function OpenText(d: Open): string {
    match d
    case OpenNumber(before, lex, exp) => before + (lex + exp)
    case OpenString(before, atoms, slash) => before + ("\"" + (AtomsText(atoms) + Slash(slash)))
    case OpenArray(before, items, last) => before + ("[" + OpenItems(items, OpenText(last)))
    case OpenKey(before, entries, last) => before + ("{" + OpenEntries(entries, OpenText(last)))
    case OpenObject(before, entries, lead, key, beforeColon, last) =>
      before + ("{" + OpenEntries(entries, KeyText(lead, key, beforeColon, OpenText(last))))
  }

  /** What `parse_number` passes over from the `e` on: one character more, two if it is a minus. */
  function Passed(exp: string): nat {
    if |exp| > 1 && exp[1] == '-' then 3 else 2
  }

  /** Nothing, or an `e` with any character after it, and then digits. */
  predicate IsExponent(exp: string) {
    exp == [] || ((exp[0] == 'e' || exp[0] == 'E') && (Passed(exp) <= |exp| ==> All(exp[Passed(exp)..], IsDigit)))
  }

  predicate ValidOpen(d: Open) {
    match d
    case OpenNumber(before, lex, exp) =>
      Blank(before) && lex != [] && (lex[0] == '-' || IsDigit(lex[0])) && All(lex, IsNumberChar) && IsExponent(exp)
    case OpenString(before, atoms, _) => Blank(before) && ValidAtoms(atoms)
    case OpenArray(before, items, last) => Blank(before) && ValidItems(items) && ValidOpen(last)
    case OpenKey(before, entries, last) => Blank(before) && ValidEntries(entries) && last.OpenString? && ValidOpen(last)
    case OpenObject(before, entries, lead, key, beforeColon, last) =>
      && Blank(before) && ValidEntries(entries) && Blank(lead) && ValidAtoms(key) && Blank(beforeColon)
      && ValidOpen(last)
  }

  /** The text from `o` to the end. */
  predicate Ends(s: string, o: nat, t: string) {
    o <= |s| && s[o..] == t
  }

  lemma EndsLength(s: string, o: nat, t: string)
    requires Ends(s, o, t)
    ensures |s| == o + |t|
  {
  }

  lemma EndsSplit(s: string, o: nat, a: string, b: string)
    requires Ends(s, o, a + b)
    ensures HasAt(s, o, a) && Ends(s, o + |a|, b)
  {
    assert s[o..][..|a|] == a && s[o..][|a|..] == b;
    assert s[o..o + |a|] == s[o..][..|a|] && s[o + |a|..] == s[o..][|a|..];
  }

  lemma EndsHead(s: string, o: nat, c: char, b: string)
    requires Ends(s, o, [c] + b)
    ensures o < |s| && s[o] == c && Ends(s, o + 1, b)
  {
    EndsSplit(s, o, [c], b);
    assert s[o] == s[o..][0];
  }

  /** How reading a broken-off text ends: with Null beyond the end for a number that stands alone,
      out of bounds in all other cases. */
  predicate Overruns(s: string, d: Open, r: Parsed) {
    if d.OpenNumber? && (d.exp == [] || Passed(d.exp) <= |d.exp|) then r == Done(Null, |s| + 1) else r == OutOfBounds
  }

  /** White space before a broken-off text, and its first character. */
  lemma OpenStart(s: string, o: nat, before: string, c: char, rest: string)
    requires Blank(before) && Ends(s, o, before + ([c] + rest)) && !IsSpace(c)
    ensures var p := o + |before|;
            && p < |s| && s[p] == c && Ends(s, p, [c] + rest) && Ends(s, p + 1, rest)
            && SkipWs(s, o) == p == SkipWs(s, p) && ParseNext(s, o) == ParseNext(s, p)
  {
    hide ParseNext, Ends;
    var p := o + |before|;
    EndsSplit(s, o, before, [c] + rest);
    EndsHead(s, p, c, rest);
    SkipBlank(s, o, before);
    NoSkip(s, p);
    ParseNextAfterSpace(s, o, p);
  }

  lemma OpenNumberOverruns(s: string, o: nat, d: Open)
    requires ValidOpen(d) && d.OpenNumber? && Ends(s, o, OpenText(d))
    ensures Overruns(s, d, ParseNext(s, o))
    ensures var c := At(s, SkipWs(s, o)); c != ']' && c != '}'
  {
    hide ParseNext, ParseNumber, Ends, IsExponent;
    var rest := d.lex[1..] + d.exp;
    assert d.lex + d.exp == [d.lex[0]] + rest;
    OpenStart(s, o, d.before, d.lex[0], rest);
    StartsNumber(s, o + |d.before|);
    NumberOverruns(s, o + |d.before|, d.lex, d.exp);
  }

  lemma NumberOverruns(s: string, p: nat, lex: string, exp: string)
    requires All(lex, IsNumberChar) && IsExponent(exp) && Ends(s, p, lex + exp)
    ensures ParseNumber(s, p) == if exp == [] || Passed(exp) <= |exp| then Done(Null, |s| + 1) else OutOfBounds
  {
    hide ParseExponent, Convert, Ends;
    EndsSplit(s, p, lex, exp);
    var e := p + |lex|;
    FirstOfExponent(s, e, exp);
    RunEndOf(s, p, lex, IsNumberChar);
    if exp != [] {
      ExponentOverruns(s, e, exp, s[p..e]);
    } else {
      EndsLength(s, e, []);
    }
  }

  lemma FirstOfExponent(s: string, e: nat, exp: string)
    requires IsExponent(exp) && Ends(s, e, exp)
    ensures At(s, e) == if exp == [] then '\0' else exp[0]
  {
    assert exp != [] ==> s[e] == s[e..][0];
  }

  lemma ExponentOverruns(s: string, e: nat, exp: string, val: string)
    requires IsExponent(exp) && exp != [] && Ends(s, e, exp)
    ensures ParseExponent(s, e + 1, val) == if Passed(exp) <= |exp| then Done(Null, |s| + 1) else OutOfBounds
  {
    hide Convert, Stoll;
    assert |s| == e + |exp|;
    assert |exp| > 1 ==> s[e + 1] == s[e..][1];
    var d := e + Passed(exp);
    if d <= |s| {
      assert s[d..] == s[e..][Passed(exp)..] == exp[Passed(exp)..];
      assert HasAt(s, d, s[d..]);
      RunEndOf(s, d, s[d..], IsDigit);
    }
  }

  lemma {:induction false} OpenAtoms(s: string, i: nat, acc: string, atoms: seq<Atom>, slash: bool)
    requires ValidAtoms(atoms) && Ends(s, i, AtomsText(atoms) + Slash(slash))
    ensures ParseStringBody(s, i, acc) == OutOfBounds
    decreases |atoms|
  {
    hide ParseStringBody, Atom.Text, Atom.Meaning, Atom.Valid, AtomsText, AtomsMeaning, Ends, Slash;
    if atoms != [] {
      var a, rest := atoms[0], AtomsText(atoms[1..]) + Slash(slash);
      FirstAtom(atoms);
      AssocCat(a.Text(), AtomsText(atoms[1..]), Slash(slash));
      EndsSplit(s, i, a.Text(), rest);
      DecodedAtom(s, i, acc, a);
      OpenAtoms(s, i + |a.Text()|, acc + a.Meaning(), atoms[1..], slash);
    } else {
      NoAtoms();
      assert "" + Slash(slash) == Slash(slash);
      EndOfBody(s, i, acc, slash);
    }
  }

  /** The end of the text in a string, or just after a backslash in it. */
  lemma EndOfBody(s: string, i: nat, acc: string, slash: bool)
    requires Ends(s, i, Slash(slash))
    ensures ParseStringBody(s, i, acc) == OutOfBounds
  {
    EndsLength(s, i, Slash(slash));
    assert slash ==> s[i] == s[i..][0];
  }

  lemma OpenStringOverruns(s: string, o: nat, d: Open)
    requires ValidOpen(d) && d.OpenString? && Ends(s, o, OpenText(d))
    ensures ParseNext(s, o) == OutOfBounds
    ensures At(s, SkipWs(s, o)) == '\"'
  {
    hide ParseStringBody, Ends, Slash;
    OpenStart(s, o, d.before, '\"', AtomsText(d.atoms) + Slash(d.slash));
    OpenAtoms(s, o + |d.before| + 1, "", d.atoms, d.slash);
  }

  // The main induction

  /** Every text that breaks off is read past its end; in place, so also behind other text. */
  lemma {:induction false} OpenTextOverruns(s: string, o: nat, d: Open)
    requires ValidOpen(d) && Ends(s, o, OpenText(d))
    ensures Overruns(s, d, ParseNext(s, o))
    ensures var c := At(s, SkipWs(s, o)); c != ']' && c != '}'
    decreases d, 2
  {
    hide ParseNext, Ends, OpenText, ValidOpen, SkipWs, At;
    match d
    case OpenNumber(_, _, _) => OpenNumberOverruns(s, o, d);
    case OpenString(_, _, _) => OpenStringOverruns(s, o, d);
    case OpenArray(_, _, _) => OpenArrayOverruns(s, o, d);
    case OpenKey(_, _, _) => OpenObjectOverruns(s, o, d);
    case OpenObject(_, _, _, _, _, _) => OpenObjectOverruns(s, o, d);
  }

  lemma OverrunsTo(s: string, d: Open, r: Parsed)
    requires Overruns(s, d, r)
    ensures r == OutOfBounds || r == Done(Null, |s| + 1)
  {
  }

  // Arrays

  lemma ArrayParts(d: Open)
    requires ValidOpen(d) && d.OpenArray?
    ensures Blank(d.before) && ValidItems(d.items) && ValidOpen(d.lastItem)
    ensures OpenText(d) == d.before + (['['] + OpenItems(d.items, OpenText(d.lastItem)))
  {
    hide OpenItems, Blank, ValidItems;
  }

  lemma {:induction false} OpenArrayOverruns(s: string, o: nat, d: Open)
    requires ValidOpen(d) && d.OpenArray? && Ends(s, o, OpenText(d))
    ensures ParseNext(s, o) == OutOfBounds && At(s, SkipWs(s, o)) == '['
    decreases d, 1
  {
    hide *;
    ArrayParts(d);
    var p := o + |d.before|;
    BracketsAreVisible();
    OpenStart(s, o, d.before, '[', OpenItems(d.items, OpenText(d.lastItem)));
    OpenItemsOverrun(s, p + 1, [], d.items, d.lastItem);
    StartsItems(s, p);
    AtIs(s, p);
  }

  lemma AtIs(s: string, p: nat)
    requires p < |s|
    ensures At(s, p) == s[p]
  {
  }

  lemma OpenItemsParts(items: seq<Item>, rest: string)
    requires items != []
    ensures OpenItems(items, rest) == ItemText(items[0]) + ([','] + OpenItems(items[1..], rest))
  {
    hide ItemText;
  }

  /** The last item of the loop. */
  lemma LastItem(s: string, o: nat, acc: seq<Value>)
    requires 0 < o && (ParseNext(s, o) == OutOfBounds || ParseNext(s, o) == Done(Null, |s| + 1))
    ensures ParseItems(s, o, acc) == OutOfBounds
  {
    hide ParseNext;
  }

  lemma {:induction false} OpenItemsOverrun(s: string, o: nat, acc: seq<Value>, items: seq<Item>, last: Open)
    requires 0 < o && ValidItems(items) && ValidOpen(last) && Ends(s, o, OpenItems(items, OpenText(last)))
    ensures o <= |s| && ParseItems(s, o, acc) == OutOfBounds
    ensures At(s, SkipWs(s, o)) != ']'
    decreases last, 3, |items|
  {
    hide *;
    EndsLength(s, o, OpenItems(items, OpenText(last)));
    if items == [] {
      NoOpenItems(OpenText(last));
      OpenTextOverruns(s, o, last);
      OverrunsTo(s, last, ParseNext(s, o));
      LastItem(s, o, acc);
    } else {
      var i, rest := items[0], OpenItems(items[1..], OpenText(last));
      var p := o + |ItemText(i)|;
      OpenItemsParts(items, OpenText(last));
      EndsSplit(s, o, ItemText(i), [','] + rest);
      EndsHead(s, p, ',', rest);
      AtIs(s, p);
      MeaningsOf(items);
      ParseItemRound(s, o, acc, i);
      OpenItemsOverrun(s, p + 1, acc + [Meaning(i.doc)], items[1..], last);
    }
  }

  lemma NoOpenItems(rest: string)
    ensures OpenItems([], rest) == rest && OpenEntries([], rest) == rest
  {
  }

  // Objects

  /** The member that breaks off. */
  function LastText(d: Open): string
    requires d.OpenKey? || d.OpenObject?
  {
    if d.OpenKey? then OpenText(d.lastKey) else KeyText(d.lead, d.key, d.beforeColon, OpenText(d.lastValue))
  }

  lemma ObjectParts(d: Open)
    requires ValidOpen(d) && (d.OpenKey? || d.OpenObject?)
    ensures Blank(d.before) && ValidEntries(d.entries)
    ensures OpenText(d) == d.before + (['{'] + OpenEntries(d.entries, LastText(d)))
    ensures d.OpenKey? ==> d.lastKey.OpenString? && ValidOpen(d.lastKey) && LastText(d) == OpenText(d.lastKey)
    ensures d.OpenObject? ==>
              && Blank(d.lead) && ValidAtoms(d.key) && Blank(d.beforeColon) && ValidOpen(d.lastValue)
              && LastText(d) == KeyText(d.lead, d.key, d.beforeColon, OpenText(d.lastValue))
  {
    hide OpenEntries, Blank, ValidEntries, ValidAtoms, KeyText;
  }

  lemma {:induction false} OpenObjectOverruns(s: string, o: nat, d: Open)
    requires ValidOpen(d) && (d.OpenKey? || d.OpenObject?) && Ends(s, o, OpenText(d))
    ensures ParseNext(s, o) == OutOfBounds && At(s, SkipWs(s, o)) == '{'
    decreases d, 1
  {
    hide *;
    ObjectParts(d);
    var p := o + |d.before|;
    BracketsAreVisible();
    OpenStart(s, o, d.before, '{', OpenEntries(d.entries, LastText(d)));
    OpenEntriesOverrun(s, p + 1, [], d.entries, d);
    StartsMembers(s, p);
    AtIs(s, p);
  }

  lemma OpenEntriesParts(entries: seq<Entry>, rest: string)
    requires entries != []
    ensures OpenEntries(entries, rest) == EntryText(entries[0]) + ([','] + OpenEntries(entries[1..], rest))
  {
    hide EntryText;
  }

  lemma {:induction false} OpenEntriesOverrun(s: string, o: nat, acc: seq<Member>, entries: seq<Entry>, d: Open)
    requires 0 < o && ValidOpen(d) && (d.OpenKey? || d.OpenObject?) && ValidEntries(entries)
    requires Ends(s, o, OpenEntries(entries, LastText(d)))
    ensures o <= |s| && ParseMembers(s, o, acc) == OutOfBounds
    ensures At(s, SkipWs(s, o)) == '\"'
    decreases d, 0, |entries|
  {
    hide *;
    EndsLength(s, o, OpenEntries(entries, LastText(d)));
    if entries == [] {
      NoOpenItems(LastText(d));
      ObjectParts(d);
      if d.OpenKey? {
        OpenStringOverruns(s, o, d.lastKey);
        LastKeyOverruns(s, o, acc);
      } else {
        LastKey(s, o, acc, d.lead, d.key, d.beforeColon, OpenText(d.lastValue));
        var v := ValueFrom(o, d.lead, d.key, d.beforeColon);
        OpenTextOverruns(s, v, d.lastValue);
        OverrunsTo(s, d.lastValue, ParseNext(s, v));
        LastMember(s, o, acc, v);
      }
    } else {
      var e, rest := entries[0], OpenEntries(entries[1..], LastText(d));
      var p := o + |EntryText(e)|;
      OpenEntriesParts(entries, LastText(d));
      EndsSplit(s, o, EntryText(e), [','] + rest);
      EndsHead(s, p, ',', rest);
      AtIs(s, p);
      PutMemberList(acc, entries);
      ParseEntry(s, o, acc, e);
      OpenEntriesOverrun(s, p + 1, Put(acc, MemberOf(e).key, MemberOf(e).val), entries[1..], d);
    }
  }

  lemma LastKeyOverruns(s: string, o: nat, acc: seq<Member>)
    requires 0 < o && ParseNext(s, o) == OutOfBounds
    ensures ParseMembers(s, o, acc) == OutOfBounds
  {
    hide ParseNext;
  }

  /** Where the value after a key starts. */
  function ValueFrom(o: nat, lead: string, key: seq<Atom>, beforeColon: string): nat {
    o + |lead| + |StringText(key)| + |beforeColon| + 1
  }

  lemma KeyTextEnds(s: string, o: nat, lead: string, key: seq<Atom>, beforeColon: string, rest: string)
    requires Ends(s, o, KeyText(lead, key, beforeColon, rest))
    ensures var k := o + |lead|;
            var c := k + |StringText(key)|;
            var v := ValueFrom(o, lead, key, beforeColon);
            && HasAt(s, o, lead) && HasAt(s, k, StringText(key)) && HasAt(s, c, beforeColon)
            && v == c + |beforeColon| + 1 <= |s| && s[v - 1] == ':' && Ends(s, v, rest)
            && At(s, k) == '\"' && !IsSpace(At(s, k)) && !IsSpace(At(s, v - 1))
  {
    hide Ends, StringText, HasAt;
    var text := StringText(key);
    var k := o + |lead|;
    EndsSplit(s, o, lead, text + (beforeColon + ([':'] + rest)));
    EndsSplit(s, k, text, beforeColon + ([':'] + rest));
    EndsSplit(s, k + |text|, beforeColon, [':'] + rest);
    EndsHead(s, k + |text| + |beforeColon|, ':', rest);
    EndsLength(s, ValueFrom(o, lead, key, beforeColon), rest);
    FirstQuote(s, k, key);
  }

  lemma LastKey(s: string, o: nat, acc: seq<Member>, lead: string, key: seq<Atom>, beforeColon: string, rest: string)
    requires Blank(lead) && ValidAtoms(key) && Blank(beforeColon)
    requires Ends(s, o, KeyText(lead, key, beforeColon, rest))
    ensures var v := ValueFrom(o, lead, key, beforeColon);
            && v <= |s| && Ends(s, v, rest)
            && AfterKey(s, acc, ParseNext(s, o)).More? && AfterKey(s, acc, ParseNext(s, o)).offset == SkipWs(s, v)
    ensures At(s, SkipWs(s, o)) == '\"'
  {
    hide *;
    KeyTextEnds(s, o, lead, key, beforeColon, rest);
    var k := o + |lead|;
    var c := k + |StringText(key)|;
    AtIs(s, c + |beforeColon|);
    ValueFromIs(o, lead, key, beforeColon);
    ParseStringText(s, k, key);
    SkipTo(s, o, lead);
    SkipTo(s, c, beforeColon);
    ParseNextAfterSpace(s, o, k);
    KeyThenColon(s, acc, ParseNext(s, o), c + |beforeColon|);
  }

  lemma ValueFromIs(o: nat, lead: string, key: seq<Atom>, beforeColon: string)
    ensures ValueFrom(o, lead, key, beforeColon) == o + |lead| + |StringText(key)| + |beforeColon| + 1
  {
    hide StringText;
  }

  lemma LastMember(s: string, o: nat, acc: seq<Member>, v: nat)
    requires 0 < o && v <= |s| && AfterKey(s, acc, ParseNext(s, o)).More?
    requires AfterKey(s, acc, ParseNext(s, o)).offset == SkipWs(s, v)
    requires ParseNext(s, v) == OutOfBounds || ParseNext(s, v) == Done(Null, |s| + 1)
    ensures ParseMembers(s, o, acc) == OutOfBounds
  {
    hide ParseNext, AfterKey;
    SkipIsIdempotent(s, v);
    ParseNextAfterSpace(s, v, SkipWs(s, v));
  }

  /** So an array or object that breaks off is read out of bounds, however deep it breaks off. */
  lemma BrokenOffTexts(d: Open)
    requires ValidOpen(d)
    ensures Overruns(OpenText(d), d, Load(OpenText(d)))
  {
    hide ParseNext, ValidOpen, OpenText, Overruns;
    assert Ends(OpenText(d), 0, OpenText(d));
    OpenTextOverruns(OpenText(d), 0, d);
  }

  /** A number at the end of an array. */
  lemma NumberBeforeTheEnd()
    ensures Load("[1") == OutOfBounds
  {
    var d := OpenArray("", [], OpenNumber("", "1", ""));
    hide Load;
    assert OpenText(d) == "[1";
    BrokenOffTexts(d);
  }

  /** An exponent just before the bracket, which is passed over. */
  lemma ExponentBeforeTheBracket()
    ensures Load("[1e]") == OutOfBounds
  {
    var d := OpenArray("", [], OpenNumber("", "1", "e]"));
    hide Load;
    assert OpenText(d) == "[1e]";
    BrokenOffTexts(d);
  }

  // Texts that load as nothing

  /** The number at `p` is not followed by what may follow a number. */
  predicate Unfollowed(s: string, p: nat)
    requires p <= |s|
  {
    var e := RunEnd(s, p, IsNumberChar);
    if At(s, e) != 'e' && At(s, e) != 'E' then !IsFollower(At(s, e))
    else
      var d := if At(s, e + 1) == '-' then e + 3 else e + 2;
      d <= |s| && !IsFollower(At(s, RunEnd(s, d, IsDigit)))
  }

  /** The first visible character starts nothing, or a word that is not there, or a number that is
      not followed. */
  predicate NothingToLoad(s: string) {
    var p := SkipWs(s, 0);
    var c := At(s, p);
    if c == '[' || c == '{' || c == '\"' then false
    else if c == 't' || c == 'f' then !HasAt(s, p, "true") && !HasAt(s, p, "false")
    else if IsDigit(c) || c == '-' then Unfollowed(s, p)
    else true
  }

  lemma ConvertedIsNumber(val: string, exp: Option<int64>)
    ensures Convert(val, exp).Ok? ==> Convert(val, exp).value.IsNumber()
  {
    hide Stod, Stoll, Scale;
  }

  lemma NullNumberIff(s: string, p: nat)
    requires p <= |s|
    ensures ParseNumber(s, p).Done? && ParseNumber(s, p).value.Null? <==> Unfollowed(s, p)
  {
    hide Convert, Stoll, IsFollower, RunEnd;
    var e := RunEnd(s, p, IsNumberChar);
    forall exp
      ensures Convert(s[p..e], exp).Ok? ==> Convert(s[p..e], exp).value.IsNumber()
    {
      ConvertedIsNumber(s[p..e], exp);
    }
  }

  lemma {:induction false} ItemsGiveArray(s: string, o: nat, acc: seq<Value>)
    requires 0 < o
    ensures ParseItems(s, o, acc).Done? ==> ParseItems(s, o, acc).value.Array?
    decreases |s| - o
  {
    hide ParseNext;
    match AfterItem(s, acc, ParseNext(s, o)) {
      case More(acc', p) => ItemsGiveArray(s, p, acc');
      case Stop(_) =>
    }
  }

  lemma {:induction false} MembersGiveObject(s: string, o: nat, acc: seq<Member>)
    requires 0 < o
    ensures ParseMembers(s, o, acc).Done? ==> ParseMembers(s, o, acc).value.Object?
    decreases |s| - o
  {
    hide ParseNext, Put;
    match ParseMember(s, o, acc) {
      case More(acc', p) => MembersGiveObject(s, p, acc');
      case Stop(_) =>
    }
  }

  lemma ContainersAreNotNull(s: string, p: nat)
    requires p < |s|
    ensures ParseArray(s, p).Done? ==> ParseArray(s, p).value.Array?
    ensures ParseObject(s, p).Done? ==> ParseObject(s, p).value.Object?
  {
    hide ParseItems, ParseMembers;
    ItemsGiveArray(s, SkipWs(s, p + 1), []);
    MembersGiveObject(s, SkipWs(s, p + 1), []);
  }

  /** A text loads as Null exactly if there is nothing to load. */
  lemma LoadsAsNullIff(s: string)
    ensures Load(s).Done? && Load(s).value.Null? <==> NothingToLoad(s)
  {
    hide ParseArray, ParseObject, ParseNumber, Unfollowed, ParseStringBody;
    var p := SkipWs(s, 0);
    if p < |s| {
      ContainersAreNotNull(s, p);
    }
    NullNumberIff(s, p);
  }
}
