/** `JSON::dump` over the objects of a tree. */
module JsonDump {
  import opened Chars
  import opened Numbers
  import opened Escapes
  import opened OrderedMap
  import opened JsonValue
  import opened JsonHeap

  method MakePad(depth: int, tab: string) returns (pad: string)
    ensures pad == Pad(depth, tab)
  {
    pad := "";
    var i := 0;
    while i < depth
      invariant 0 <= i && (i <= depth || i == 0)
      invariant pad == Pad(i, tab)
    {
      pad := pad + tab;
      i := i + 1;
    }
  }

  method Dump(node: JSON, ghost t: Shape, depth: int, tab: string) returns (s: string)
    requires Owns(node, t)
    ensures s == Print(Val(t), depth, tab)
    decreases t, 1
  {
    assert allocated(Foot(t));
    var pad := MakePad(depth, tab);
    FormOfType(t);
    match node.type_ {
      case NullClass => s := "null";
      case ObjectClass =>
        var body := DumpMembers(node, t, pad, depth, tab);
        s := "{\n" + (body + ("\n" + (Erase2(pad) + "}")));
      case ArrayClass =>
        var body := DumpItems(node, t, depth, tab);
        s := "[" + (body + "]");
      case StringClass =>
        var escaped := JsonEscape(node.str);
        s := "\"" + (escaped + "\"");
      case FloatingClass => s := FloatText(node.float);
      case IntegralClass => s := IntText(node.num);
      case BooleanClass => s := if node.truth then "true" else "false";
    }
  }

  /** What the loops have still to write from the `i`-th element on. */
  ghost function MembersLeft(ms: seq<Member>, i: nat, depth: int, tab: string): string
    requires i <= |ms|
  {
    if i == 0 || i == |ms| then PrintMembers(ms[i..], depth, tab) else ",\n" + PrintMembers(ms[i..], depth, tab)
  }

  ghost function ItemsLeft(xs: seq<Value>, i: nat, depth: int, tab: string): string
    requires i <= |xs|
  {
    if i == 0 || i == |xs| then PrintItems(xs[i..], depth, tab) else ", " + PrintItems(xs[i..], depth, tab)
  }

  lemma MembersLeftStep(ms: seq<Member>, i: nat, depth: int, tab: string)
    requires i < |ms|
    ensures MembersLeft(ms, i, depth, tab)
         == (if i == 0 then "" else ",\n") + (PrintMember(ms[i], depth, tab) + MembersLeft(ms, i + 1, depth, tab))
  {
    hide PrintMember;
    assert ms[i..][0] == ms[i] && ms[i..][1..] == ms[i + 1..];
    var text := PrintMember(ms[i], depth, tab);
    var rest := text + MembersLeft(ms, i + 1, depth, tab);
    assert text + "" == text && "" + rest == rest;
  }

  lemma ItemsLeftStep(xs: seq<Value>, i: nat, depth: int, tab: string)
    requires i < |xs|
    ensures ItemsLeft(xs, i, depth, tab)
         == (if i == 0 then "" else ", ") + (Print(xs[i], depth, tab) + ItemsLeft(xs, i + 1, depth, tab))
  {
    hide Print;
    assert xs[i..][0] == xs[i] && xs[i..][1..] == xs[i + 1..];
    var text := Print(xs[i], depth, tab);
    var rest := text + ItemsLeft(xs, i + 1, depth, tab);
    assert text + "" == text && "" + rest == rest;
  }

  lemma Appended(s: string, sep: string, text: string, rest: string)
    ensures s + (sep + (text + rest)) == s + sep + text + rest
  {
    AssocCat(sep, text, rest);
    AssocCat(s, sep + text, rest);
    AssocCat(s, sep, text);
  }

  method DumpMembers(node: JSON, ghost t: Shape, pad: string, depth: int, tab: string) returns (s: string)
    requires Owns(node, t) && t.form.Keyed? && pad == Pad(depth, tab)
    ensures s == PrintMembers(Members(t.form.keys, t.children), depth, tab)
    decreases t, 0
  {
    hide Holds, Disjoint, Foot, Val, Print, PrintMember, PrintMembers, MembersLeft, Pad, Members;
    ghost var ms := Members(t.form.keys, t.children);
    NodeEntries(t);
    s := "";
    var skip := true;
    NothingLeft(ms, depth, tab);
    for i := 0 to |node.entries|
      invariant skip == (i == 0) && Owns(node, t)
      invariant s + MembersLeft(ms, i, depth, tab) == PrintMembers(ms, depth, tab)
    {
      NodeEntries(t);
      assert allocated(Foot(t));
      MembersLeftStep(ms, i, depth, tab);
      ghost var before := s;
      if !skip {
        s := s + ",\n";
      }
      var text := Dump(node.entries[i].val, t.children[i], depth + 1, tab);
      var line := pad + ("\"" + (node.entries[i].key + ("\" : " + text)));
      MemberLine(ms[i], text, depth, tab);
      Appended(before, if i == 0 then "" else ",\n", line, MembersLeft(ms, i + 1, depth, tab));
      s := s + line;
      skip := false;
    }
  }

  lemma MemberLine(m: Member, text: string, depth: int, tab: string)
    requires text == Print(m.val, depth + 1, tab)
    ensures PrintMember(m, depth, tab) == Pad(depth, tab) + ("\"" + (m.key + ("\" : " + text)))
  {
  }

  lemma NothingLeft(ms: seq<Member>, depth: int, tab: string)
    ensures "" + MembersLeft(ms, 0, depth, tab) == PrintMembers(ms, depth, tab)
    ensures MembersLeft(ms, |ms|, depth, tab) == ""
  {
    assert ms[0..] == ms && ms[|ms|..] == [];
  }

  lemma NoItemsLeft(xs: seq<Value>, depth: int, tab: string)
    ensures "" + ItemsLeft(xs, 0, depth, tab) == PrintItems(xs, depth, tab)
    ensures ItemsLeft(xs, |xs|, depth, tab) == ""
  {
    assert xs[0..] == xs && xs[|xs|..] == [];
  }

  /** The entries of a node, one by one. */
  lemma NodeEntries(t: Shape)
    requires Disjoint(t) && Holds(t) && t.form.Keyed?
    ensures var ms := Members(t.form.keys, t.children);
            && |ms| == |t.children| == |t.node.entries|
            && forall i :: 0 <= i < |ms| ==>
                 && Owns(t.node.entries[i].val, t.children[i])
                 && ms[i] == Pair(t.node.entries[i].key, Val(t.children[i]))
  {
  }

  lemma NodeItems(t: Shape)
    requires Disjoint(t) && Holds(t) && t.form.Listed?
    ensures var xs := Vals(t.children);
            && |xs| == |t.children| == |t.node.list|
            && forall i :: 0 <= i < |xs| ==> Owns(t.node.list[i], t.children[i]) && xs[i] == Val(t.children[i])
  {
  }

  method DumpItems(node: JSON, ghost t: Shape, depth: int, tab: string) returns (s: string)
    requires Owns(node, t) && t.form.Listed?
    ensures s == PrintItems(Vals(t.children), depth + 1, tab)
    decreases t, 0
  {
    hide Holds, Disjoint, Foot, Val, Print, PrintItems, ItemsLeft, Vals;
    ghost var xs := Vals(t.children);
    NodeItems(t);
    s := "";
    var skip := true;
    NoItemsLeft(xs, depth + 1, tab);
    for i := 0 to |node.list|
      invariant skip == (i == 0) && Owns(node, t)
      invariant s + ItemsLeft(xs, i, depth + 1, tab) == PrintItems(xs, depth + 1, tab)
    {
      NodeItems(t);
      assert allocated(Foot(t));
      ItemsLeftStep(xs, i, depth + 1, tab);
      ghost var before := s;
      if !skip {
        s := s + ", ";
      }
      var text := Dump(node.list[i], t.children[i], depth + 1, tab);
      Appended(before, if i == 0 then "" else ", ", text, ItemsLeft(xs, i + 1, depth + 1, tab));
      s := s + text;
      skip := false;
    }
  }
}
