/** Character classes, and reading a text the way `std::string::operator[]` does. */
module Chars {

  datatype Option<+T> = None | Some(value: T)

  /** `str[i]` for `i <= str.size()`: the position just past the end reads as NUL. */
  function At(s: string, i: nat): char
    requires i <= |s|
  {
    if i < |s| then s[i] else '\0'
  }

  /** `isspace` in the C locale: space, and the controls from tab to carriage return. */
  predicate IsSpace(c: char) {
    c == ' ' || '\t' <= c <= '\r'
  }

  predicate IsDigit(c: char) {
    '0' <= c <= '9'
  }

  predicate IsHex(c: char) {
    '0' <= c <= '9' || 'a' <= c <= 'f' || 'A' <= c <= 'F'
  }

  /** The characters `parse_number` collects. */
  predicate IsNumberChar(c: char) {
    c == '-' || c == '.' || IsDigit(c)
  }

  /** The characters that may follow a number. */
  predicate IsFollower(c: char) {
    IsSpace(c) || c == ',' || c == ']' || c == '}'
  }

  /** The classes character by character; 11 is the vertical tab, 12 the form feed. */
  lemma ClassMembers(c: char)
    ensures IsSpace(c) <==> c in " \t\n\U{0B}\U{0C}\r"
    ensures IsDigit(c) <==> c in "0123456789"
    ensures IsHex(c) <==> c in "0123456789abcdefABCDEF"
    ensures IsNumberChar(c) <==> c in "-.0123456789"
    ensures IsFollower(c) <==> c in " \t\n\U{0B}\U{0C}\r,]}"
  {
    DigitMembers(c);
    HexMembers(c);
    assert " \t\n\U{0B}\U{0C}\r" == [' ', '\t', '\n', 11 as char, 12 as char, '\r'];
  }

  lemma DigitMembers(c: char)
    ensures IsDigit(c) <==> c in "0123456789"
    ensures IsNumberChar(c) <==> c in "-.0123456789"
  {
    assert c == '0' || c == '1' || c == '2' || c == '3' || c == '4' || c == '5' || c == '6' || c == '7' || c == '8'
        || c == '9' || c < '0' || '9' < c;
  }

  lemma HexMembers(c: char)
    ensures IsHex(c) <==> c in "0123456789abcdefABCDEF"
  {
    DigitMembers(c);
    assert "0123456789abcdefABCDEF" == "0123456789" + "abcdefABCDEF";
  }

  predicate All(s: string, p: char -> bool) {
    forall k :: 0 <= k < |s| ==> p(s[k])
  }

  /** The end of the longest run of `p`-characters that starts at `i`. */
  function RunEnd(s: string, i: nat, p: char -> bool): (r: nat)
    requires i <= |s|
    ensures i <= r <= |s|
    ensures forall k :: i <= k < r ==> p(s[k])
    ensures r < |s| ==> !p(s[r])
    decreases |s| - i
  {
    if i < |s| && p(s[i]) then RunEnd(s, i + 1, p) else i
  }

  function SkipWs(s: string, i: nat): (r: nat)
    requires i <= |s|
    ensures i <= r <= |s|
    ensures !IsSpace(At(s, r))
  {
    RunEnd(s, i, IsSpace)
  }

  /** The text `t` stands in `s` from position `o` on. */
  predicate HasAt(s: string, o: nat, t: string) {
    o + |t| <= |s| && s[o..o + |t|] == t
  }

  lemma RunEndIs(s: string, i: nat, r: nat, p: char -> bool)
    requires i <= r <= |s|
    requires forall k :: i <= k < r ==> p(s[k])
    requires r < |s| ==> !p(s[r])
    ensures RunEnd(s, i, p) == r
  {
    var e := RunEnd(s, i, p);
    assert e < |s| ==> !p(s[e]);
  }

  /** A run that is written out in `s` ends exactly where it is written to end. */
  lemma RunEndOf(s: string, i: nat, run: string, p: char -> bool)
    requires HasAt(s, i, run) && All(run, p)
    requires !p(At(s, i + |run|))
    ensures RunEnd(s, i, p) == i + |run|
  {
    forall k | i <= k < i + |run|
      ensures p(s[k])
    {
      assert s[k] == run[k - i];
    }
    RunEndIs(s, i, i + |run|, p);
  }

  lemma AssocCat<T>(a: seq<T>, b: seq<T>, c: seq<T>)
    ensures (a + b) + c == a + (b + c)
  {
  }

  lemma HasAtSplit(s: string, o: nat, a: string, b: string)
    requires HasAt(s, o, a + b)
    ensures HasAt(s, o, a) && HasAt(s, o + |a|, b)
  {
    var t := a + b;
    assert s[o..o + |t|][..|a|] == a;
    assert s[o..o + |t|][|a|..] == b;
    assert s[o..o + |a|] == s[o..o + |t|][..|a|];
    assert s[o + |a|..o + |a| + |b|] == s[o..o + |t|][|a|..];
  }

  lemma HasAtHead(s: string, o: nat, c: char, b: string)
    requires HasAt(s, o, [c] + b)
    ensures o < |s| && s[o] == c && HasAt(s, o + 1, b)
  {
    HasAtSplit(s, o, [c], b);
    assert s[o..o + 1][0] == c;
  }

  // Sequences with one more element

  /** Where an element of the longer sequence stands in the shorter one. */
  function Source(i: nat, p: nat): nat
    requires i != p
  {
    if i < p then i else i - 1
  }

  function InsertAt<T>(s: seq<T>, p: nat, x: T): (r: seq<T>)
    requires p <= |s|
    ensures |r| == |s| + 1 && r[p] == x
    ensures forall i :: 0 <= i < |r| && i != p ==> r[i] == s[Source(i, p)]
  {
    s[..p] + [x] + s[p..]
  }
}
