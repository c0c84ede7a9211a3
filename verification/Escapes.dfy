/** `json_escape`, and the spellings of a string that `parse_string` accepts. */
module Escapes {
  import opened Chars

  /** The seven characters `json_escape` rewrites. */
  predicate Special(c: char) {
    c == '\"' || c == '\\' || c == '\U{08}' || c == '\U{0C}' || c == '\n' || c == '\r' || c == '\t'
  }

  /** The letter that stands for a special character after a backslash. */
  function Code(c: char): char
    requires Special(c)
  {
    if c == '\U{08}' then 'b'
    else if c == '\U{0C}' then 'f'
    else if c == '\n' then 'n'
    else if c == '\r' then 'r'
    else if c == '\t' then 't'
    else c
  }

  function EscapeChar(c: char): string {
    if Special(c) then ['\\', Code(c)] else [c]
  }

  function Escape(s: string): string {
    if s == [] then [] else EscapeChar(s[0]) + Escape(s[1..])
  }

  /** The seven rewritings, and that there is no other one. */
  lemma EscapeTable(c: char)
    ensures Escape("\"") == "\\\"" && Escape("\\") == "\\\\" && Escape("\U{08}") == "\\b"
    ensures Escape("\U{0C}") == "\\f" && Escape("\n") == "\\n" && Escape("\r") == "\\r" && Escape("\t") == "\\t"
    ensures c !in "\"\\\U{08}\U{0C}\n\r\t" ==> Escape([c]) == [c]
  {
    OneEscape('\"');
    OneEscape('\\');
    OneEscape('\U{08}');
    OneEscape('\U{0C}');
    OneEscape('\n');
    OneEscape('\r');
    OneEscape('\t');
    OneEscape(c);
    assert Special(c) ==> c in "\"\\\U{08}\U{0C}\n\r\t";
  }

  /** A string is escaped character by character. */
  lemma OneEscape(c: char)
    ensures Escape([c]) == EscapeChar(c)
  {
    assert [c][1..] == [] && EscapeChar(c) + [] == EscapeChar(c);
  }

  lemma {:induction false} EscapeCat(a: string, b: string)
    ensures Escape(a + b) == Escape(a) + Escape(b)
  {
    hide EscapeChar;
    if a == [] {
      assert a + b == b;
    } else {
      EscapeCat(a[1..], b);
      assert (a + b)[0] == a[0] && (a + b)[1..] == a[1..] + b;
      AssocCat(EscapeChar(a[0]), Escape(a[1..]), Escape(b));
    }
  }

  method JsonEscape(str: string) returns (output: string)
    ensures output == Escape(str)
  {
    output := "";
    var i := 0;
    while i < |str|
      invariant i <= |str|
      invariant output + Escape(str[i..]) == Escape(str)
    {
      assert str[i..][1..] == str[i + 1..];
      assert output + (EscapeChar(str[i]) + Escape(str[i + 1..]))
          == (output + EscapeChar(str[i])) + Escape(str[i + 1..]);
      match str[i] {
        case '\"' => output := output + "\\\"";
        case '\\' => output := output + "\\\\";
        case '\U{08}' => output := output + "\\b";
        case '\U{0C}' => output := output + "\\f";
        case '\n' => output := output + "\\n";
        case '\r' => output := output + "\\r";
        case '\t' => output := output + "\\t";
        case _ => output := output + [str[i]];
      }
      i := i + 1;
    }
    assert str[i..] == [];
  }

  // The spellings

  /** What a letter after a backslash stands for, if it is one of the eight known ones. */
  function EscapeMeaning(c: char): Option<char> {
    match c
    case '\"' => Some('\"')
    case '\\' => Some('\\')
    case '/' => Some('/')
    case 'b' => Some('\U{08}')
    case 'f' => Some('\U{0C}')
    case 'n' => Some('\n')
    case 'r' => Some('\r')
    case 't' => Some('\t')
    case _ => None
  }

  /** The eight known ones, and that there is no other one. */
  lemma KnownEscapes(c: char)
    ensures EscapeMeaning('\"') == Some('\"') && EscapeMeaning('\\') == Some('\\') && EscapeMeaning('/') == Some('/')
    ensures EscapeMeaning('b') == Some('\U{08}') && EscapeMeaning('f') == Some('\U{0C}')
    ensures EscapeMeaning('n') == Some('\n') && EscapeMeaning('r') == Some('\r') && EscapeMeaning('t') == Some('\t')
    ensures c !in "\"\\/bfnrt" ==> EscapeMeaning(c) == None
  {
    assert c == '\"' || c == '\\' || c == '/' || c == 'b' || c == 'f' || c == 'n' || c == 'r' || c == 't' ==>
        c in "\"\\/bfnrt";
  }

  /** One step of a string literal: a plain character, a known escape, a `\u` escape (kept as
      literal text), or an unknown escape (which becomes a lone backslash). */
  datatype Atom =
    | Plain(c: char)
    | Known(code: char)
    | Unicode(hex: string)
    | Unknown(code: char)
  {
    predicate Valid() {
      match this
      case Plain(c) => c != '\"' && c != '\\'
      case Known(code) => EscapeMeaning(code).Some?
      case Unicode(hex) => |hex| == 4 && All(hex, IsHex)
      case Unknown(code) => EscapeMeaning(code).None? && code != 'u'
    }

    function Text(): string {
      match this
      case Plain(c) => [c]
      case Known(code) => ['\\', code]
      case Unicode(hex) => "\\u" + hex
      case Unknown(code) => ['\\', code]
    }

    function Meaning(): string
      requires Valid()
    {
      match this
      case Plain(c) => [c]
      case Known(code) => [EscapeMeaning(code).value]
      case Unicode(hex) => "\\u" + hex
      case Unknown(_) => "\\"
    }
  }

  predicate ValidAtoms(atoms: seq<Atom>) {
    forall i :: 0 <= i < |atoms| ==> atoms[i].Valid()
  }

  function AtomsText(atoms: seq<Atom>): string {
    if atoms == [] then [] else atoms[0].Text() + AtomsText(atoms[1..])
  }

  function AtomsMeaning(atoms: seq<Atom>): string
    requires ValidAtoms(atoms)
  {
    if atoms == [] then [] else atoms[0].Meaning() + AtomsMeaning(atoms[1..])
  }

  /** The spelling `json_escape` chooses. */
  function AtomsOf(s: string): (atoms: seq<Atom>)
    ensures ValidAtoms(atoms)
  {
    if s == [] then []
    else [if Special(s[0]) then Known(Code(s[0])) else Plain(s[0])] + AtomsOf(s[1..])
  }

  lemma {:induction false} AtomsOfSpells(s: string)
    ensures AtomsText(AtomsOf(s)) == Escape(s)
    ensures AtomsMeaning(AtomsOf(s)) == s
  {
    if s != [] {
      AtomsOfSpells(s[1..]);
      assert s == [s[0]] + s[1..];
      assert AtomsOf(s)[1..] == AtomsOf(s[1..]);
    }
  }

  // The image of Escape

  /** No raw special character, and every backslash starts an escape `json_escape` writes. */
  predicate IsEscaped(k: string) {
    if k == [] then true
    else if k[0] == '\\' then
      |k| >= 2 && k[1] != '/' && EscapeMeaning(k[1]).Some? && IsEscaped(k[2..])
    else !Special(k[0]) && IsEscaped(k[1..])
  }

  function Unescape(k: string): string
    requires IsEscaped(k)
  {
    if k == [] then []
    else if k[0] == '\\' then [EscapeMeaning(k[1]).value] + Unescape(k[2..])
    else [k[0]] + Unescape(k[1..])
  }

  lemma {:induction false} EscapeIsEscaped(s: string)
    ensures IsEscaped(Escape(s))
    ensures Unescape(Escape(s)) == s
  {
    if s != [] {
      EscapeIsEscaped(s[1..]);
      assert s == [s[0]] + s[1..];
      var e := Escape(s);
      if Special(s[0]) {
        assert e[2..] == Escape(s[1..]);
      } else {
        assert e[1..] == Escape(s[1..]);
      }
    }
  }

  lemma EscapeOfMeaning(c: char)
    requires EscapeMeaning(c).Some? && c != '/'
    ensures EscapeChar(EscapeMeaning(c).value) == ['\\', c]
  {
  }

  lemma {:induction false} EscapeUnescape(k: string)
    requires IsEscaped(k)
    ensures Escape(Unescape(k)) == k
  {
    hide Escape, EscapeMeaning, EscapeChar;
    if k == [] {
      EscapeCat("", "");
      assert "" + "" == "" && |Escape("") + Escape("")| == 2 * |Escape("")|;
    } else if k[0] == '\\' {
      EscapeUnescape(k[2..]);
      var c := EscapeMeaning(k[1]).value;
      OneEscape(c);
      EscapeOfMeaning(k[1]);
      EscapeCat([c], Unescape(k[2..]));
      assert k == [k[0], k[1]] + k[2..];
    } else {
      EscapeUnescape(k[1..]);
      OneEscape(k[0]);
      PlainEscape(k[0]);
      EscapeCat([k[0]], Unescape(k[1..]));
      assert k == [k[0]] + k[1..];
    }
  }

  lemma PlainEscape(c: char)
    requires !Special(c)
    ensures EscapeChar(c) == [c]
  {
  }

  /** `IsEscaped` decides the image of `json_escape`. */
  lemma EscapedIffImage(k: string)
    ensures IsEscaped(k) <==> exists r :: Escape(r) == k
  {
    if IsEscaped(k) {
      EscapeUnescape(k);
    }
    if r :| Escape(r) == k {
      EscapeIsEscaped(r);
    }
  }

  predicate Clean(s: string) {
    forall i :: 0 <= i < |s| ==> !Special(s[i])
  }

  lemma {:induction false} EscapeLength(s: string)
    ensures |Escape(s)| >= |s|
    ensures |Escape(s)| == |s| <==> Clean(s)
  {
    if s != [] {
      EscapeLength(s[1..]);
      assert Clean(s) <==> !Special(s[0]) && Clean(s[1..]) by {
        assert forall i :: 1 <= i < |s| ==> s[i] == s[1..][i - 1];
      }
    }
  }

  lemma {:induction false} EscapeClean(s: string)
    requires Clean(s)
    ensures Escape(s) == s
  {
    if s != [] {
      EscapeClean(s[1..]);
    }
  }

  /** `json_escape` is the identity exactly on the strings without a special character. */
  lemma EscapeIsIdentityIff(s: string)
    ensures Escape(s) == s <==> Clean(s)
  {
    EscapeLength(s);
    if Clean(s) {
      EscapeClean(s);
    }
  }
}
