/** The class `JSON` as objects that own one another: copies, moves, in-place updates. */
module JsonHeap {
  import opened Chars
  import opened Numbers
  import opened OrderedMap
  import opened JsonValue

  datatype Class = NullClass | ObjectClass | ArrayClass | StringClass | FloatingClass | IntegralClass | BooleanClass

  // The tree of objects a JSON object owns

  /** What a node holds besides its children. */
  datatype Form = Scalar(value: Value) | Keyed(keys: seq<string>) | Listed

  /** A node and the nodes it owns. */
  datatype Shape = Shape(node: JSON, form: Form, children: seq<Shape>)

  ghost function Foot(t: Shape): set<JSON> {
    {t.node} + FootAll(t.children)
  }

  ghost function FootAll(ts: seq<Shape>): set<JSON> {
    set i, o | 0 <= i < |ts| && o in Foot(ts[i]) :: o
  }

  /** No node is owned twice. */
  ghost predicate Disjoint(t: Shape) {
    && t.node !in FootAll(t.children)
    && DisjointAll(t.children)
  }

  ghost predicate DisjointAll(ts: seq<Shape>) {
    && (forall i :: 0 <= i < |ts| ==> Disjoint(ts[i]))
    && (forall i, j :: 0 <= i < j < |ts| ==> Foot(ts[i]) !! Foot(ts[j]))
  }

  ghost predicate SortedKeys(keys: seq<string>) {
    forall i, j :: 0 <= i < j < |keys| ==> Less(keys[i], keys[j])
  }

  /** The heap holds the tree `t`. */
  ghost predicate Holds(t: Shape)
    reads Foot(t)
  {
    && HoldsNode(t)
    && HoldsAll(t.children)
  }

  ghost predicate HoldsAll(ts: seq<Shape>)
    reads FootAll(ts)
  {
    forall i :: 0 <= i < |ts| ==> Holds(ts[i])
  }

  /** One node: its fields against its form and its children. */
  ghost predicate HoldsNode(t: Shape)
    reads t.node
  {
    match t.form
    case Scalar(v) => t.children == [] && t.node.IsScalar(v)
    case Keyed(keys) =>
      && SortedKeys(keys) && |keys| == |t.children| == |t.node.entries|
      && t.node.type_ == ObjectClass
      && forall i :: 0 <= i < |keys| ==> t.node.entries[i] == Pair(keys[i], t.children[i].node)
    case Listed =>
      && |t.children| == |t.node.list|
      && t.node.type_ == ArrayClass
      && forall i :: 0 <= i < |t.children| ==> t.node.list[i] == t.children[i].node
  }

  /** No content on the heap besides the node. */
  ghost predicate IsPlain(t: Shape) {
    t.form.Scalar? && !t.form.value.String?
  }

  ghost predicate Owns(node: JSON, t: Shape)
    reads Foot(t)
  {
    t.node == node && Disjoint(t) && Holds(t)
  }

  /** The value of a tree. */
  ghost function Val(t: Shape): Value {
    match t.form
    case Scalar(v) => v
    case Keyed(keys) => Object(Members(keys, t.children))
    case Listed => Array(Vals(t.children))
  }

  ghost function Vals(ts: seq<Shape>): (vs: seq<Value>)
    ensures |vs| == |ts| && forall i :: 0 <= i < |ts| ==> vs[i] == Val(ts[i])
  {
    if ts == [] then [] else [Val(ts[0])] + Vals(ts[1..])
  }

  ghost function Members(keys: seq<string>, ts: seq<Shape>): (ms: seq<Member>)
    ensures |keys| == |ts| ==> |ms| == |ts| && forall i :: 0 <= i < |ts| ==> ms[i] == Pair(keys[i], Val(ts[i]))
    decreases ts
  {
    if ts == [] || keys == [] then [] else [Pair(keys[0], Val(ts[0]))] + Members(keys[1..], ts[1..])
  }

  // Trees put together and taken apart

  ghost predicate AreNodes(nodes: seq<JSON>, ts: seq<Shape>) {
    |nodes| == |ts| && forall i :: 0 <= i < |ts| ==> nodes[i] == ts[i].node
  }

  lemma ListNode(u: Shape, was: seq<JSON>, x: Shape)
    requires AreNodes(was, u.children) && u.node.type_ == ArrayClass && u.node.list == was + [x.node]
    ensures HoldsNode(Shape(u.node, Listed, u.children + [x]))
  {
    var all := u.children + [x];
    forall i | 0 <= i < |all|
      ensures u.node.list[i] == all[i].node
    {
      if i < |was| {
        assert u.node.list[i] == was[i];
      }
    }
  }

  lemma ValOfListed(t: Shape)
    requires t.form.Listed?
    ensures Val(t) == Array(Vals(t.children))
  {
  }

  lemma ListVal(u: Shape, x: Shape)
    ensures Val(Shape(u.node, Listed, u.children + [x])) == Array(Vals(u.children) + [Val(x)])
  {
    hide Val;
    var all := u.children + [x];
    var vs := Vals(u.children) + [Val(x)];
    assert Vals(all) == vs by {
      forall i | 0 <= i < |all|
        ensures Vals(all)[i] == vs[i]
      {
        if i < |u.children| {
          assert all[i] == u.children[i];
        }
      }
    }
    ValOfListed(Shape(u.node, Listed, all));
  }

  lemma NodeIsOwned(t: Shape)
    ensures t.node in Foot(t)
  {
  }

  lemma NullOwns(node: JSON)
    requires node.type_ == NullClass
    ensures Owns(node, Shape(node, Scalar(Null), []))
  {
  }

  lemma LeafFoot(node: JSON)
    ensures Foot(Shape(node, Scalar(Null), [])) == {node} && Val(Shape(node, Scalar(Null), [])) == Null
  {
  }

  lemma SortedInsert(entries: seq<Pair<JSON>>, key: string, child: JSON)
    requires Sorted(entries) && !HasKeyAt(entries, Position(entries, key), key)
    ensures var q := Position(entries, key); Sorted(InsertAt(entries, q, Pair(key, child)))
  {
    PutSorted(entries, key, child);
    PutAt(entries, key, child);
  }

  lemma KeysOfEntries(keys: seq<string>, es: seq<Pair<JSON>>)
    requires |keys| == |es| && Sorted(es) && forall i :: 0 <= i < |es| ==> es[i].key == keys[i]
    ensures SortedKeys(keys)
  {
  }

  ghost function InsertKey(t: Shape, p: nat, key: string, child: Shape): Shape
    requires t.form.Keyed? && p <= |t.form.keys| == |t.children|
  {
    Shape(t.node, Keyed(InsertAt(t.form.keys, p, key)), InsertAt(t.children, p, child))
  }

  /** The node after the insertion; `es` are the entries before it. */
  lemma InsertedNode(u: Shape, es: seq<Pair<JSON>>, q: nat, key: string, leaf: Shape)
    requires u.form.Keyed? && q <= |u.form.keys| == |u.children| == |es|
    requires forall i :: 0 <= i < |es| ==> es[i] == Pair(u.form.keys[i], u.children[i].node)
    requires u.node.type_ == ObjectClass && Sorted(u.node.entries)
    requires u.node.entries == InsertAt(es, q, Pair(key, leaf.node))
    ensures HoldsNode(InsertKey(u, q, key, leaf))
  {
    hide InsertAt;
    var c := InsertKey(u, q, key, leaf);
    var now := u.node.entries;
    forall i | 0 <= i < |now|
      ensures now[i] == Pair(c.form.keys[i], c.children[i].node)
    {
      if i != q {
        var k := Source(i, q);
        assert now[i] == es[k];
        assert c.form.keys[i] == u.form.keys[k];
        assert c.children[i] == u.children[k];
      }
    }
    KeysOfEntries(c.form.keys, now);
  }

  function Values(entries: seq<Pair<JSON>>): (nodes: seq<JSON>)
    ensures |nodes| == |entries| && forall i :: 0 <= i < |entries| ==> nodes[i] == entries[i].val
  {
    if entries == [] then [] else [entries[0].val] + Values(entries[1..])
  }

  function WithValues(entries: seq<Pair<JSON>>, nodes: seq<JSON>): (r: seq<Pair<JSON>>)
    requires |entries| == |nodes|
    ensures |r| == |entries| && forall i :: 0 <= i < |entries| ==> r[i] == Pair(entries[i].key, nodes[i])
  {
    if entries == [] then [] else [Pair(entries[0].key, nodes[0])] + WithValues(entries[1..], nodes[1..])
  }

  lemma NoTrees()
    ensures HoldsAll([]) && DisjointAll([]) && FootAll([]) == {}
  {
  }

  lemma Nth(ts: seq<Shape>, i: nat)
    requires i < |ts| && HoldsAll(ts) && DisjointAll(ts)
    ensures Owns(ts[i].node, ts[i]) && Foot(ts[i]) <= FootAll(ts)
  {
  }

  lemma FormOfType(t: Shape)
    requires Holds(t)
    ensures t.form.Keyed? <==> t.node.type_ == ObjectClass
    ensures t.form.Listed? <==> t.node.type_ == ArrayClass
    ensures t.form.Keyed? ==> AreNodes(Values(t.node.entries), t.children)
    ensures t.form.Listed? ==> AreNodes(t.node.list, t.children)
  {
    hide HoldsAll;
  }

  lemma SameMembers(keys: seq<string>, ts: seq<Shape>, cs: seq<Shape>)
    requires |keys| == |ts| && Vals(ts) == Vals(cs)
    ensures Members(keys, ts) == Members(keys, cs)
  {
    assert |ts| == |Vals(ts)| == |cs|;
    forall i | 0 <= i < |ts|
      ensures Members(keys, ts)[i] == Members(keys, cs)[i]
    {
      assert Val(ts[i]) == Vals(ts)[i];
      assert Val(cs[i]) == Vals(cs)[i];
    }
  }

  lemma Assemble(t: Shape)
    requires HoldsNode(t) && HoldsAll(t.children)
    requires DisjointAll(t.children) && t.node !in FootAll(t.children)
    ensures Owns(t.node, t)
  {
    hide HoldsNode, HoldsAll, DisjointAll, FootAll;
  }

  lemma Parts(t: Shape)
    requires Owns(t.node, t)
    ensures HoldsNode(t) && HoldsAll(t.children) && DisjointAll(t.children)
    ensures t.node !in FootAll(t.children) && Foot(t) == {t.node} + FootAll(t.children)
  {
    hide HoldsAll, DisjointAll, FootAll, HoldsNode;
  }

  lemma SameVal(t: Shape, node: JSON)
    ensures Val(Shape(node, t.form, t.children)) == Val(t)
  {
  }

  lemma AssembleFoot(t: Shape)
    ensures Foot(t) == {t.node} + FootAll(t.children)
  {
  }

  lemma InsertedFoot(ts: seq<Shape>, p: nat, t: Shape)
    requires p <= |ts|
    ensures FootAll(InsertAt(ts, p, t)) == FootAll(ts) + Foot(t)
  {
    hide Foot, InsertAt;
    var all := InsertAt(ts, p, t);
    forall i | 0 <= i < |ts|
      ensures Foot(ts[i]) <= FootAll(all)
    {
      var k := if i < p then i else i + 1;
      assert all[k] == ts[Source(k, p)] == ts[i];
    }
    assert Foot(all[p]) <= FootAll(all);
    forall i | 0 <= i < |all|
      ensures Foot(all[i]) <= FootAll(ts) + Foot(t)
    {
      assert i != p ==> all[i] == ts[Source(i, p)];
    }
    assert FootAll(all) <= FootAll(ts) + Foot(t);
    assert FootAll(ts) <= FootAll(all);
  }

  /** One more tree among others. */
  lemma InsertTree(ts: seq<Shape>, p: nat, t: Shape)
    requires p <= |ts| && DisjointAll(ts) && Disjoint(t) && Foot(t) !! FootAll(ts)
    requires HoldsAll(ts) && Holds(t)
    ensures var all := InsertAt(ts, p, t);
            DisjointAll(all) && HoldsAll(all) && FootAll(all) == FootAll(ts) + Foot(t)
  {
    hide Holds, Disjoint, Foot, InsertAt;
    var all := InsertAt(ts, p, t);
    assert HoldsAll(all);
    InsertedFoot(ts, p, t);
    forall i, j | 0 <= i < j < |all|
      ensures Foot(all[i]) !! Foot(all[j])
    {
      if i == p {
        assert Foot(ts[Source(j, p)]) <= FootAll(ts);
      } else if j == p {
        assert Foot(ts[Source(i, p)]) <= FootAll(ts);
      }
    }
  }

  lemma Append(ts: seq<Shape>, t: Shape)
    requires DisjointAll(ts) && Disjoint(t) && Foot(t) !! FootAll(ts)
    requires HoldsAll(ts) && Holds(t)
    ensures DisjointAll(ts + [t]) && HoldsAll(ts + [t]) && FootAll(ts + [t]) == FootAll(ts) + Foot(t)
  {
    InsertTree(ts, |ts|, t);
    assert InsertAt(ts, |ts|, t) == ts + [t];
  }

  predicate IsPrimitive(v: Value) {
    !v.Null? && !v.Object? && !v.Array?
  }

  /** The keys of a node, of its entries and of its value are the same sorted sequence. */
  lemma KeysAndEntries(t: Shape)
    requires HoldsNode(t) && t.form.Keyed?
    ensures var ms := Members(t.form.keys, t.children);
            && Sorted(ms) && Sorted(t.node.entries)
            && (forall key :: Position(ms, key) == Position(t.node.entries, key))
  {
    var ms := Members(t.form.keys, t.children);
    forall key
      ensures Position(ms, key) == Position(t.node.entries, key)
    {
      PositionByKeys(ms, t.node.entries, key);
    }
  }

  lemma LookUp(t: Shape, key: string)
    requires HoldsNode(t) && t.form.Keyed?
    ensures |t.form.keys| == |t.children| == |t.node.entries|
    ensures var p := Position(t.node.entries, key);
            if HasKeyAt(t.node.entries, p, key)
            then t.form.keys[p] == key && Touch(Val(t), key) == Val(t) && Get(Val(t), key) == Val(t.children[p])
            else
              && Touch(Val(t), key) == Object(Put(Members(t.form.keys, t.children), key, Null))
              && Get(Val(t), key) == Null
  {
    KeysAndEntries(t);
    FindAt(Members(t.form.keys, t.children), key);
  }

  lemma PutNull(t: Shape, key: string)
    requires HoldsNode(t) && t.form.Keyed?
    ensures var q := Position(t.node.entries, key);
            var ms := Members(t.form.keys, t.children);
            !HasKeyAt(t.node.entries, q, key) ==> q <= |ms| && Put(ms, key, Null) == InsertAt(ms, q, Pair(key, Null))
  {
    hide Put;
    KeysAndEntries(t);
    PutAt(Members(t.form.keys, t.children), key, Null);
  }

  /** `c` is `t` with one more member, at position `p`. */
  ghost predicate IsInsertKey(t: Shape, p: nat, key: string, c: Shape) {
    && t.form.Keyed? && p <= |t.form.keys| == |t.children|
    && p < |c.children| && c == InsertKey(t, p, key, c.children[p])
  }

  lemma InsertedKey(t: Shape, p: nat, key: string, child: Shape)
    requires t.form.Keyed? && p <= |t.form.keys| == |t.children|
    requires DisjointAll(t.children) && HoldsAll(t.children) && t.node !in FootAll(t.children)
    requires Disjoint(child) && Holds(child) && Foot(child) !! FootAll(t.children) && t.node !in Foot(child)
    requires HoldsNode(InsertKey(t, p, key, child))
    ensures Owns(t.node, InsertKey(t, p, key, child))
    ensures Foot(InsertKey(t, p, key, child)) == Foot(t) + Foot(child)
  {
    hide HoldsNode, HoldsAll, DisjointAll, FootAll;
    InsertTree(t.children, p, child);
    Assemble(InsertKey(t, p, key, child));
  }

  lemma ValOfKeyed(t: Shape)
    requires t.form.Keyed?
    ensures Val(t) == Object(Members(t.form.keys, t.children))
  {
  }

  lemma InsertedMembers(t: Shape, p: nat, key: string, child: Shape)
    requires t.form.Keyed? && p <= |t.form.keys| == |t.children|
    ensures var ms := Members(t.form.keys, t.children);
            Val(InsertKey(t, p, key, child)) == Object(InsertAt(ms, p, Pair(key, Val(child))))
  {
    hide Val, InsertAt;
    var c := InsertKey(t, p, key, child);
    var ms := Members(t.form.keys, t.children);
    assert Members(c.form.keys, c.children) == InsertAt(ms, p, Pair(key, Val(child)));
    assert Val(c) == Object(Members(c.form.keys, c.children)) by {
      ValOfKeyed(c);
    }
  }

  // The class

  class JSON {
    var type_: Class
    // The union `Internal`: only the field that `type_` selects means anything.
    var entries: seq<Pair<JSON>>
    var list: seq<JSON>
    var str: string
    var float: Float
    var num: int64
    var truth: bool

    predicate IsScalar(v: Value)
      reads this
    {
      match v
      case Null => type_ == NullClass
      case String(s) => type_ == StringClass && str == s
      case Floating(f) => type_ == FloatingClass && float == f
      case Integral(i) => type_ == IntegralClass && num == i
      case Boolean(b) => type_ == BooleanClass && truth == b
      case _ => false
    }

    constructor ()
      ensures Owns(this, Shape(this, Scalar(Null), []))
    {
      type_ := NullClass;
      entries, list, str, float, num, truth := [], [], "", Float(false, 0.0), 0, false;
    }

    /** Nothing happens if the type is right already; otherwise the content is dropped. */
    method SetType(type': Class)
      modifies this
      ensures type_ == type'
      ensures old(type_) == type' ==> unchanged(this)
      ensures old(type_) != type' ==> match type'
                                      case ObjectClass => entries == []
                                      case ArrayClass => list == []
                                      case StringClass => str == ""
                                      case FloatingClass => float == Float(false, 0.0)
                                      case IntegralClass => num == 0
                                      case BooleanClass => !truth
                                      case NullClass => true
    {
      if type' == type_ {
        return;
      }
      match type' {
        case NullClass =>
        case ObjectClass => entries := [];
        case ArrayClass => list := [];
        case StringClass => str := "";
        case FloatingClass => float := Float(false, 0.0);
        case IntegralClass => num := 0;
        case BooleanClass => truth := false;
      }
      type_ := type';
    }

    method CopyEntries(other: JSON, ghost t: Shape) returns (ghost c: Shape)
      requires Owns(other, t) && other.type_ == ObjectClass
      modifies this
      ensures Owns(this, c) && (forall o :: o in Foot(c) ==> o == this || fresh(o)) && Val(c) == Val(t)
      decreases t, 1
    {
      hide Holds, HoldsAll, Disjoint, DisjointAll, Foot, FootAll, Val, Vals, Members;
      FormOfType(t);
      Parts(t);
      assert allocated(FootAll(t.children));
      var nodes;
      ghost var children;
      nodes, children := CopyAll(Values(other.entries), t.children);
      type_, entries := ObjectClass, WithValues(other.entries, nodes);
      c := Shape(this, t.form, children);
      SameMembers(t.form.keys, t.children, children);
      ValOfKeyed(t);
      ValOfKeyed(c);
      AssembleFoot(c);
      Assemble(c);
    }

    method CopyList(other: JSON, ghost t: Shape) returns (ghost c: Shape)
      requires Owns(other, t) && other.type_ == ArrayClass
      modifies this
      ensures Owns(this, c) && (forall o :: o in Foot(c) ==> o == this || fresh(o)) && Val(c) == Val(t)
      decreases t, 1
    {
      hide Holds, HoldsAll, Disjoint, DisjointAll, Foot, FootAll, Val, Vals;
      FormOfType(t);
      Parts(t);
      assert allocated(FootAll(t.children));
      var nodes;
      ghost var children;
      nodes, children := CopyAll(other.list, t.children);
      type_, list := ArrayClass, nodes;
      c := Shape(this, t.form, children);
      ValOfListed(t);
      ValOfListed(c);
      AssembleFoot(c);
      Assemble(c);
    }

    /** The switch that the copy constructor and the copy assignment share. It reads all of the source
        before it writes, so this object may even be one of the source's. */
    method TakeCopy(other: JSON, ghost t: Shape) returns (ghost c: Shape)
      requires Owns(other, t)
      modifies this
      ensures Owns(this, c) && (forall o :: o in Foot(c) ==> o == this || fresh(o)) && Val(c) == Val(t)
      decreases t, 2
    {
      FormOfType(t);
      if other.type_ == ObjectClass {
        c := CopyEntries(other, t);
      } else if other.type_ == ArrayClass {
        c := CopyList(other, t);
      } else {
        type_, str, float, num, truth := other.type_, other.str, other.float, other.num, other.truth;
        c := Shape(this, t.form, []);
      }
    }

    /** The copy constructor: a new tree of new objects with the same value. */
    static method Copy(other: JSON, ghost t: Shape) returns (r: JSON, ghost c: Shape)
      requires Owns(other, t)
      ensures Owns(r, c) && fresh(Foot(c)) && Val(c) == Val(t)
      decreases t, 3
    {
      hide Holds, HoldsAll, HoldsNode, Disjoint, DisjointAll;
      assert allocated(Foot(t));
      r := new JSON();
      c := r.TakeCopy(other, t);
    }

    static method CopyAll(nodes: seq<JSON>, ghost ts: seq<Shape>) returns (copies: seq<JSON>, ghost cs: seq<Shape>)
      requires AreNodes(nodes, ts) && DisjointAll(ts) && HoldsAll(ts)
      ensures AreNodes(copies, cs) && DisjointAll(cs) && HoldsAll(cs)
      ensures fresh(FootAll(cs)) && Vals(cs) == Vals(ts)
      decreases ts, 0
    {
      hide Holds, Disjoint, HoldsAll, DisjointAll, FootAll, Val;
      copies, cs := [], [];
      NoTrees();
      for i := 0 to |nodes|
        invariant |copies| == |cs| == i
        invariant HoldsAll(ts)
        invariant AreNodes(copies, cs) && DisjointAll(cs) && HoldsAll(cs) && fresh(FootAll(cs))
        invariant forall k :: 0 <= k < i ==> Val(cs[k]) == Val(ts[k])
      {
        var r;
        ghost var c;
        Nth(ts, i);
        assert allocated(FootAll(cs)) && allocated(FootAll(ts));
        r, c := Copy(nodes[i], ts[i]);
        assert HoldsAll(cs) && HoldsAll(ts);
        assert Foot(c) !! FootAll(cs);
        Append(cs, c);
        copies, cs := copies + [r], cs + [c];
      }
    }

    /** Copy assignment. The old content is deleted before the source is read, so the source must
        not overlap the target, unless the target has no content on the heap to delete. */
    method Assign(other: JSON, ghost t: Shape, ghost s: Shape) returns (ghost c: Shape)
      requires Owns(this, t) && Owns(other, s) && (Foot(t) !! Foot(s) || IsPlain(t))
      modifies this
      ensures Owns(this, c) && Val(c) == Val(s) && (forall o :: o in Foot(c) ==> o == this || fresh(o))
      ensures Foot(t) !! Foot(s) ==> Owns(other, s)
    {
      assert this in Foot(t);
      assert allocated(Foot(s));
      c := TakeCopy(other, s);
    }

    method TakeFields(other: JSON, ghost s: Shape)
      requires other == s.node && HoldsNode(s)
      modifies this, other
      ensures other.type_ == NullClass
      ensures other != this ==> HoldsNode(Shape(this, s.form, s.children))
    {
      type_, entries, list, str, float, num, truth :=
        other.type_, other.entries, other.list, other.str, other.float, other.num, other.truth;
      other.entries, other.type_ := [], NullClass;
    }

    /** Move assignment: the nodes change owner. An object moved onto itself must have no content on
        the heap, and is Null afterwards. */
    method MoveAssign(other: JSON, ghost t: Shape, ghost s: Shape) returns (ghost c: Shape)
      requires Owns(this, t) && Owns(other, s) && (Foot(t) !! Foot(s) || (other == this && IsPlain(t)))
      modifies this, other
      ensures Owns(this, c) && Owns(other, Shape(other, Scalar(Null), []))
      ensures if other == this then c == Shape(this, Scalar(Null), [])
              else Val(c) == Val(s) && Foot(c) == Foot(s) - {other} + {this}
    {
      hide Holds, HoldsAll, HoldsNode, Disjoint, DisjointAll, Foot, FootAll, Val;
      Parts(t);
      Parts(s);
      NodeIsOwned(t);
      assert allocated(Foot(s)) && allocated(FootAll(s.children));
      TakeFields(other, s);
      NullOwns(other);
      c := Shape(this, if other == this then Scalar(Null) else s.form, if other == this then [] else s.children);
      if other != this {
        SameVal(s, this);
        AssembleFoot(c);
        Assemble(c);
      }
    }

    /** The move constructor. */
    static method Moved(other: JSON, ghost s: Shape) returns (r: JSON, ghost c: Shape)
      requires Owns(other, s)
      modifies other
      ensures fresh(r) && Owns(r, c) && Val(c) == Val(s) && Foot(c) == Foot(s) - {other} + {r}
      ensures Owns(other, Shape(other, Scalar(Null), []))
    {
      hide Holds, HoldsAll, HoldsNode, Disjoint, DisjointAll, Foot, FootAll, Val;
      Parts(s);
      assert allocated(Foot(s)) && allocated(FootAll(s.children));
      r := new JSON();
      r.TakeFields(other, s);
      NullOwns(other);
      c := Shape(r, s.form, s.children);
      SameVal(s, r);
      AssembleFoot(c);
      Assemble(c);
    }

    /** Assignment of a bool, a number or a string. */
    method AssignScalar(v: Value, ghost t: Shape) returns (ghost c: Shape)
      requires Owns(this, t) && IsPrimitive(v)
      modifies this
      ensures c == Shape(this, Scalar(v), []) && Owns(this, c)
    {
      match v {
        case Boolean(b) => SetType(BooleanClass); truth := b;
        case Integral(i) => SetType(IntegralClass); num := i;
        case Floating(f) => SetType(FloatingClass); float := f;
        case String(s) => SetType(StringClass); str := s;
      }
      c := Shape(this, Scalar(v), []);
    }

    method BecomeObject(ghost key: string, ghost t: Shape) returns (ghost u: Shape)
      requires Owns(this, t)
      modifies this
      ensures Owns(this, u) && Foot(u) <= Foot(t) && u.form.Keyed? && (t.form.Keyed? ==> u == t)
      ensures Touch(Val(u), key) == Touch(Val(t), key) && Get(Val(u), key) == Get(Val(t), key)
    {
      hide HoldsAll, DisjointAll, FootAll;
      FormOfType(t);
      assert allocated(Foot(t));
      SetType(ObjectClass);
      u := if t.form.Keyed? then t else Shape(this, Keyed([]), []);
      assert HoldsNode(u);
      NoTrees();
      Assemble(u);
    }

    method InsertEntry(q: nat, key: string, ghost u: Shape) returns (child: JSON)
      requires u.node == this && u.form.Keyed? && HoldsNode(u)
      requires q == Position(entries, key) && !HasKeyAt(entries, q, key)
      modifies this
      ensures fresh(child) && child.type_ == NullClass && child != this
      ensures q <= |u.form.keys| == |u.children| == |old(entries)|
      ensures HoldsNode(InsertKey(u, q, key, Shape(child, Scalar(Null), [])))
    {
      child := new JSON();
      KeysAndEntries(u);
      SortedInsert(entries, key, child);
      ghost var was := entries;
      entries := InsertAt(entries, q, Pair(key, child));
      InsertedNode(u, was, q, key, Shape(child, Scalar(Null), []));
    }

    /** A new Null member at its place among the entries. */
    method AddMember(q: nat, key: string, ghost u: Shape) returns (child: JSON, ghost c: Shape)
      requires Owns(this, u) && u.form.Keyed?
      requires q == Position(entries, key) && !HasKeyAt(entries, q, key)
      modifies this
      ensures Owns(this, c) && (forall o :: o in Foot(c) ==> o in Foot(u) || fresh(o))
      ensures c.form.Keyed? && q < |c.children| == |c.form.keys| && IsInsertKey(u, q, key, c)
      ensures c.form.keys[q] == key && c.children[q].node == child && Val(c.children[q]) == Null
      ensures Val(c) == Object(Put(Members(u.form.keys, u.children), key, Null))
    {
      hide Holds, HoldsAll, HoldsNode, Disjoint, DisjointAll, Foot, FootAll, Val, Members, InsertAt;
      Parts(u);
      PutNull(u, key);
      assert allocated(Foot(u));
      child := InsertEntry(q, key, u);
      ghost var leaf := Shape(child, Scalar(Null), []);
      NullOwns(child);
      LeafFoot(child);
      c := InsertKey(u, q, key, leaf);
      InsertedKey(u, q, key, leaf);
      InsertedMembers(u, q, key, leaf);
    }

    /** `operator[](key)`: a reference to the member, which is added as Null if it is missing. */
    method Index(key: string, ghost t: Shape) returns (child: JSON, ghost c: Shape, ghost p: nat)
      requires Owns(this, t)
      modifies this
      ensures Owns(this, c) && (forall o :: o in Foot(c) ==> o in Foot(t) || fresh(o))
      ensures c.form.Keyed? && p < |c.children| == |c.form.keys|
      ensures c.form.keys[p] == key && c.children[p].node == child
      ensures Val(c) == Touch(Val(t), key) && Val(c.children[p]) == Get(Val(t), key)
      ensures t.form.Keyed? ==> c == t || IsInsertKey(t, p, key, c)
    {
      hide Holds, HoldsAll, HoldsNode, Disjoint, DisjointAll, Foot, FootAll, Val, Touch, Get;
      ghost var u := BecomeObject(key, t);
      Parts(u);
      FormOfType(u);
      var q := Position(entries, key);
      p := q;
      LookUp(u, key);
      if HasKeyAt(entries, q, key) {
        child := entries[q].val;
        c := u;
      } else {
        child, c := AddMember(q, key, u);
      }
    }

    /** `emplace_back`, of a node that stands apart */
    method Push(node: JSON, ghost x: Shape, ghost u: Shape) returns (ghost c: Shape)
      requires Owns(this, u) && u.form.Listed? && AreNodes(list, u.children)
      requires Owns(node, x) && Foot(x) !! Foot(u)
      modifies this
      ensures Owns(this, c) && Foot(c) == Foot(u) + Foot(x) && c == Shape(this, Listed, u.children + [x])
      ensures AreNodes(list, c.children) && Vals(c.children) == Vals(u.children) + [Val(x)]
    {
      hide HoldsAll, DisjointAll, FootAll, Vals, Val;
      FormOfType(u);
      ghost var was := list;
      assert HoldsAll(u.children) && Foot(u) == {this} + FootAll(u.children);
      list := list + [node];
      c := Shape(this, Listed, u.children + [x]);
      ListNode(u, was, x);
      ListVal(u, x);
      ValOfListed(c);
      hide HoldsNode, Holds, Disjoint, Foot;
      Append(u.children, x);
      AssembleFoot(c);
      Assemble(c);
    }

    method PushNull(ghost u: Shape) returns (ghost c: Shape)
      requires Owns(this, u) && u.form.Listed? && AreNodes(list, u.children)
      modifies this
      ensures Owns(this, c) && (forall o :: o in Foot(c) ==> o in Foot(u) || fresh(o))
      ensures c.form.Listed? && AreNodes(list, c.children) && |list| == old(|list|) + 1
      ensures u.children <= c.children
      ensures Vals(c.children) == Vals(u.children) + [Null]
    {
      assert allocated(Foot(u));
      assert this in Foot(u);
      var node := new JSON();
      assert Owns(this, u);
      c := Push(node, Shape(node, Scalar(Null), []), u);
    }

    /** `resize(n)` of the list, to a larger size */
    method Resize(n: nat, ghost u: Shape) returns (ghost c: Shape)
      requires Owns(this, u) && u.form.Listed? && AreNodes(list, u.children) && |list| < n
      modifies this
      ensures Owns(this, c) && (forall o :: o in Foot(c) ==> o in Foot(u) || fresh(o))
      ensures c.form.Listed? && AreNodes(list, c.children) && |list| == n && u.children <= c.children
      ensures Vals(c.children) == PadNulls(Vals(u.children), n)
    {
      hide HoldsAll, DisjointAll, FootAll, Disjoint, Holds, Val, Foot, Vals;
      c := u;
      ghost var items := Vals(u.children);
      assert items + Nulls(0) == items;
      while |list| < n
        invariant Owns(this, c) && (forall o :: o in Foot(c) ==> o in Foot(u) || fresh(o))
        invariant c.form.Listed? && AreNodes(list, c.children) && |items| <= |list| <= n && u.children <= c.children
        invariant Vals(c.children) == items + Nulls(|list| - |items|)
      {
        assert items + Nulls(|list| - |items|) + [Null] == items + Nulls(|list| + 1 - |items|);
        c := PushNull(c);
      }
    }

    method BecomeArray(ghost t: Shape) returns (ghost c: Shape)
      requires Owns(this, t)
      modifies this
      ensures Owns(this, c) && Foot(c) <= Foot(t) && c.form.Listed? && AreNodes(list, c.children)
      ensures Vals(c.children) == ItemsOf(Val(t)) && (t.form.Listed? ==> c == t)
    {
      hide HoldsAll, DisjointAll, FootAll;
      FormOfType(t);
      assert allocated(Foot(t));
      SetType(ArrayClass);
      c := if t.form.Listed? then t else Shape(this, Listed, []);
      assert HoldsNode(c);
      NoTrees();
      Assemble(c);
    }

    /** `operator[](index)`: a reference to the item; the array grows by Nulls to have it. */
    method IndexAt(index: nat, ghost t: Shape) returns (child: JSON, ghost c: Shape)
      requires Owns(this, t)
      modifies this
      ensures Owns(this, c) && (forall o :: o in Foot(c) ==> o in Foot(t) || fresh(o))
      ensures c.form.Listed? && index < |c.children| && c.children[index].node == child
      ensures Val(c) == Array(PadNulls(ItemsOf(Val(t)), index + 1))
      ensures t.form.Listed? ==> t.children <= c.children
    {
      hide HoldsAll, DisjointAll, FootAll, Disjoint, Holds, Val, Foot, Vals;
      c := BecomeArray(t);
      if index >= |list| {
        c := Resize(index + 1, c);
      }
      child := list[index];
      ValOfListed(c);
    }

    /** `append(arg)`: the argument is passed by value, so `arg` may even be this object. */
    method AppendCopy(arg: JSON, ghost t: Shape, ghost s: Shape) returns (ghost c: Shape)
      requires Owns(this, t) && Owns(arg, s)
      modifies this
      ensures Owns(this, c) && (forall o :: o in Foot(c) ==> o in Foot(t) || fresh(o))
      ensures Val(c) == Array(ItemsOf(Val(t)) + [Val(s)])
    {
      hide HoldsAll, DisjointAll, FootAll, Disjoint, Holds, Val, Foot, Vals;
      assert allocated(Foot(t)) && allocated(Foot(s));
      var node;
      ghost var x;
      node, x := Copy(arg, s);
      NodeIsOwned(t);
      assert Foot(x) !! Foot(t) && allocated(Foot(x));
      ghost var u := BecomeArray(t);
      c := Push(node, x, u);
      ValOfListed(c);
    }
  }
}
