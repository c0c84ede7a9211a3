/** Runs of declarations, assignments, moves and appends over any number of JSON objects that read
    from one another and from themselves: they behave like values, and no two share anything. */
module JsonEdits {
  import opened Chars
  import opened OrderedMap
  import opened JsonValue
  import opened JsonHeap
  import opened JsonPaths
  import opened JsonStatements

  // One operator[]

  /** `v` after `v[step]` has been evaluated. */
  function Entered(v: Value, step: Step): Value {
    match step
    case Key(k) => Touch(v, k)
    case Item(i) => Array(PadNulls(ItemsOf(v), i + 1))
  }

  lemma ReplaceEntered(v: Value, step: Step, w: Value)
    ensures Replace(Entered(v, step), step, w) == Replace(v, step, w)
  {
    if step.Key? && v.Object? {
      FindPut(v.members, step.key, Null, step.key);
    }
  }

  /** What was in `t` and still is in `u` is the same child. */
  ghost predicate SameSlots(t: Shape, u: Shape) {
    forall step :: Slot(t, step).Some? && Slot(u, step).Some? ==> Child(t, step) == Child(u, step)
  }

  lemma InsertedSlots(t: Shape, p: nat, key: string, u: Shape)
    requires IsInsertKey(t, p, key, u)
    ensures SameSlots(t, u)
  {
    forall step | Slot(t, step).Some? && Slot(u, step).Some?
      ensures Child(t, step) == Child(u, step)
    {
      var i := Slot(t, step).value;
      var j := if i < p then i else i + 1;
      assert Source(j, p) == i;
      assert u.form.keys[j] == t.form.keys[i] && u.children[j] == t.children[i];
      SlotOfKey(u.form.keys, j);
    }
  }

  method Enter(root: JSON, step: Step, ghost t: Shape) returns (child: JSON, ghost u: Shape)
    requires Owns(root, t)
    modifies root
    ensures Owns(root, u) && (forall o :: o in Foot(u) ==> o in Foot(t) || fresh(o))
    ensures Slot(u, step).Some? && Child(u, step).node == child && SameSlots(t, u)
    ensures Val(u) == Entered(Val(t), step) && Val(Child(u, step)) == Pick(Val(t), step)
  {
    hide Holds, Disjoint, Foot, Val, SameSlots, IsInsertKey, Get, Touch;
    match step {
      case Key(k) =>
        ghost var p;
        child, u, p := root.Index(k, t);
        KeysInOrder(u);
        SlotOfKey(u.form.keys, p);
        NewKeySlots(t, p, k, u);
      case Item(i) =>
        child, u := root.IndexAt(i, t);
        NewItemSlots(t, u);
        ValOfListed(u);
    }
  }

  lemma KeysInOrder(t: Shape)
    requires Holds(t) && t.form.Keyed?
    ensures SortedKeys(t.form.keys)
  {
  }

  lemma NewKeySlots(t: Shape, p: nat, key: string, u: Shape)
    requires u.form.Keyed? && (t.form.Keyed? ==> u == t || IsInsertKey(t, p, key, u))
    ensures SameSlots(t, u)
  {
    if t.form.Keyed? && u != t {
      InsertedSlots(t, p, key, u);
    }
  }

  lemma NewItemSlots(t: Shape, u: Shape)
    requires u.form.Listed? && (t.form.Listed? ==> t.children <= u.children)
    ensures SameSlots(t, u)
  {
  }

  // A chain of them

  /** Paths that were there and still are refer to the same objects. */
  ghost predicate Keeps(t: Shape, c: Shape) {
    forall q :: Reaches(t, q) && Reaches(c, q) ==> Sub(t, q).node == Sub(c, q).node
  }

  lemma KeepsBelow(t: Shape, u: Shape, step: Step, x: Shape)
    requires t.node == u.node && SameSlots(t, u)
    requires Slot(u, step).Some? && Keeps(Child(u, step), x)
    ensures Keeps(t, WithChild(u, step, x))
  {
    var c := WithChild(u, step, x);
    forall q | Reaches(t, q) && Reaches(c, q)
      ensures Sub(t, q).node == Sub(c, q).node
    {
      if q != [] {
        assert Slot(c, q[0]) == Slot(u, q[0]);
        assert Child(t, q[0]) == Child(u, q[0]);
        if Slot(u, q[0]) == Slot(u, step) {
          assert Reaches(Child(u, step), q[1..]) && Reaches(x, q[1..]);
        }
      }
    }
  }

  method Locate(root: JSON, path: seq<Step>, ghost t: Shape) returns (node: JSON, ghost c: Shape)
    requires Owns(root, t)
    modifies Foot(t)
    ensures Owns(root, c) && (forall o :: o in Foot(c) ==> o in Foot(t) || fresh(o))
    ensures Reaches(c, path) && Sub(c, path).node == node
    ensures Val(c) == TouchPath(Val(t), path) && Keeps(t, c)
    decreases |path|, 1
  {
    hide Holds, Disjoint, Foot, Val, SameSlots, Slot, Entered, Pick, Replace;
    NodeIsOwned(t);
    if path == [] {
      node, c := root, t;
    } else {
      var child;
      ghost var u;
      child, u := Enter(root, path[0], t);
      ChildOwned(u, path[0]);
      node, c := LocateBelow(child, path, t, u);
    }
  }

  /** The rest of the path; `t` is the tree before its first step, `u` the one after it. */
  method LocateBelow(child: JSON, path: seq<Step>, ghost t: Shape, ghost u: Shape)
    returns (node: JSON, ghost c: Shape)
    requires path != [] && Slot(u, path[0]).Some? && Child(u, path[0]).node == child
    requires Owns(u.node, u) && t.node == u.node && SameSlots(t, u)
    requires Val(u) == Entered(Val(t), path[0]) && Val(Child(u, path[0])) == Pick(Val(t), path[0])
    modifies Foot(Child(u, path[0]))
    ensures Owns(u.node, c) && (forall o :: o in Foot(c) ==> o in Foot(u) || fresh(o))
    ensures Reaches(c, path) && Sub(c, path).node == node
    ensures Val(c) == TouchPath(Val(t), path) && Keeps(t, c)
    decreases |path|, 0
  {
    hide Holds, HoldsBut, Disjoint, Foot, Val, SameSlots, Keeps, Slot, Entered, Pick, Replace;
    var step := path[0];
    ghost var x := Child(u, step);
    ChildOwned(u, step);
    HoldsButMore(u, Foot(x));
    assert allocated(Foot(u)) && allocated(Foot(x));
    ghost var y;
    node, y := Locate(child, path[1..], x);
    c := WithChild(u, step, y);
    OwnedWithChild(u, step, y);
    SlotVal(u, step, y);
    ReplaceEntered(Val(t), step, Val(y));
    KeepsBelow(t, u, step, y);
    SlotWithChild(u, step, y);
  }

  lemma SlotWithChild(t: Shape, step: Step, y: Shape)
    requires Slot(t, step).Some?
    ensures Slot(WithChild(t, step, y), step).Some? && Child(WithChild(t, step, y), step) == y
  {
  }

  lemma OwnedWithChild(t: Shape, step: Step, y: Shape)
    requires Disjoint(t) && Slot(t, step).Some? && Owns(y.node, y) && y.node == Child(t, step).node
    requires HoldsBut(t, Foot(Child(t, step))) && Foot(y) * Foot(t) <= Foot(Child(t, step))
    ensures Owns(t.node, WithChild(t, step, y)) && Foot(WithChild(t, step, y)) <= Foot(t) + Foot(y)
  {
    hide Holds, HoldsBut, Disjoint, Foot, Slot;
    var e := Foot(Child(t, step));
    assert {} + e == e;
    HoldsButMore(y, {});
    ChildHolds(t, step, y, {}, e);
    ChildDisjoint(t, step, y);
    HoldsButNothing(WithChild(t, step, y));
  }

  // The objects in play

  /** The objects own the trees `ts`, which share nothing. */
  ghost predicate Pool(roots: seq<JSON>, ts: seq<Shape>)
    reads FootAll(ts)
  {
    AreNodes(roots, ts) && DisjointAll(ts) && HoldsAll(ts)
  }

  ghost predicate ReachesRef(ts: seq<Shape>, r: Ref) {
    r.root < |ts| && Reaches(ts[r.root], r.path)
  }

  ghost function SubRef(ts: seq<Shape>, r: Ref): Shape
    requires ReachesRef(ts, r)
  {
    Sub(ts[r.root], r.path)
  }

  ghost function SpliceRef(ts: seq<Shape>, r: Ref, x: Shape): seq<Shape>
    requires ReachesRef(ts, r)
  {
    ts[r.root := Splice(ts[r.root], r.path, x)]
  }

  lemma SubRefOwned(ts: seq<Shape>, r: Ref)
    requires DisjointAll(ts) && HoldsAll(ts) && ReachesRef(ts, r)
    ensures Owns(SubRef(ts, r).node, SubRef(ts, r)) && Foot(SubRef(ts, r)) <= FootAll(ts)
    ensures SubRef(ts, r).node in Foot(SubRef(ts, r))
    ensures Val(SubRef(ts, r)) == GetRef(Vals(ts), r)
  {
    hide Holds, HoldsAll, Disjoint, DisjointAll, Foot, FootAll, Val;
    Nth(ts, r.root);
    SubOwned(ts[r.root], r.path);
    NodeIsOwned(SubRef(ts, r));
    SubVal(ts[r.root], r.path);
  }

  lemma AllHoldBut(ts: seq<Shape>, d: set<JSON>)
    requires HoldsAll(ts)
    ensures HoldsAllBut(ts, d)
  {
    hide HoldsBut, Holds;
    forall i | 0 <= i < |ts|
      ensures HoldsBut(ts[i], d)
    {
      HoldsButMore(ts[i], d);
    }
  }

  lemma AllHoldButNothing(ts: seq<Shape>)
    requires HoldsAllBut(ts, {})
    ensures HoldsAll(ts)
  {
    hide HoldsBut, Holds;
    forall i | 0 <= i < |ts|
      ensures Holds(ts[i])
    {
      HoldsButNothing(ts[i]);
    }
  }

  lemma OneTree(ts: seq<Shape>, p: nat, d: set<JSON>)
    requires p < |ts| && DisjointAll(ts) && HoldsAllBut(ts, d)
    ensures Disjoint(ts[p]) && HoldsBut(ts[p], d) && Foot(ts[p]) <= FootAll(ts)
  {
    hide HoldsBut, Disjoint;
    TreeOwned(ts, p);
  }

  /** A tree of own and new objects in the place of a part of the pool. */
  lemma SpliceRefOwned(roots: seq<JSON>, ts: seq<Shape>, r: Ref, x: Shape, d: set<JSON>, e: set<JSON>)
    requires AreNodes(roots, ts) && DisjointAll(ts) && ReachesRef(ts, r)
    requires x.node == SubRef(ts, r).node && Disjoint(x) && HoldsBut(x, d)
    requires HoldsAllBut(ts, d + e) && e <= Foot(SubRef(ts, r))
    requires Foot(x) * FootAll(ts) <= Foot(SubRef(ts, r))
    ensures var us := SpliceRef(ts, r, x);
            && AreNodes(roots, us) && DisjointAll(us) && HoldsAllBut(us, d)
            && FootAll(us) == FootAll(ts) - Foot(SubRef(ts, r)) + Foot(x)
            && Vals(us) == SetRef(Vals(ts), r, Val(x))
  {
    hide HoldsBut, HoldsAllBut, Disjoint, DisjointAll, Foot, FootAll, Val;
    var t := ts[r.root];
    OneTree(ts, r.root, d + e);
    SubOwned(t, r.path);
    SpliceDisjoint(t, r.path, x);
    SpliceHolds(t, r.path, x, d, e);
    SpliceVal(t, r.path, x);
    var y := Splice(t, r.path, x);
    ReplaceTree(ts, r.root, y);
    ReplaceHolds(ts, r.root, y, d, e);
    assert Vals(ts[r.root := y]) == Vals(ts)[r.root := Val(y)];
  }

  ghost predicate AllKeep(ts: seq<Shape>, us: seq<Shape>) {
    |us| == |ts| && forall i :: 0 <= i < |ts| ==> Keeps(ts[i], us[i])
  }

  lemma KeepsItself(t: Shape)
    ensures Keeps(t, t)
  {
  }

  // Operands

  method LocateRef(roots: seq<JSON>, r: Ref, ghost ts: seq<Shape>) returns (node: JSON, ghost us: seq<Shape>)
    requires Pool(roots, ts) && r.root < |ts|
    modifies FootAll(ts)
    ensures Pool(roots, us) && (forall o :: o in FootAll(us) ==> o in FootAll(ts) || fresh(o))
    ensures ReachesRef(us, r) && SubRef(us, r).node == node
    ensures Vals(us) == TouchRef(Vals(ts), r) && AllKeep(ts, us)
  {
    hide Holds, HoldsAll, HoldsAllBut, Disjoint, DisjointAll, Foot, FootAll, Val, Keeps;
    ghost var t := ts[r.root];
    Nth(ts, r.root);
    AllHoldBut(ts, Foot(t));
    assert allocated(FootAll(ts)) && allocated(Foot(t));
    ghost var x;
    node, x := Locate(roots[r.root], r.path, t);
    us := ts[r.root := x];
    assert {} + Foot(t) == Foot(t);
    HoldsButMore(x, {});
    ReplaceTree(ts, r.root, x);
    ReplaceHolds(ts, r.root, x, {}, Foot(t));
    AllHoldButNothing(us);
    assert Vals(us) == Vals(ts)[r.root := Val(x)];
    forall i | 0 <= i < |ts|
      ensures Keeps(ts[i], us[i])
    {
      KeepsItself(ts[i]);
    }
  }

  /** The left and the right operand, evaluated in either order. */
  method LocateBoth(roots: seq<JSON>, target: Ref, source: Ref, targetFirst: bool, ghost ts: seq<Shape>)
    returns (a: JSON, b: JSON, ghost us: seq<Shape>)
    requires Pool(roots, ts) && target.root < |ts| && source.root < |ts|
    requires var ws := TouchBoth(Vals(ts), target, source, targetFirst); HasRef(ws, target) && HasRef(ws, source)
    modifies FootAll(ts)
    ensures Pool(roots, us) && (forall o :: o in FootAll(us) ==> o in FootAll(ts) || fresh(o))
    ensures ReachesRef(us, target) && SubRef(us, target).node == a
    ensures ReachesRef(us, source) && SubRef(us, source).node == b
    ensures Vals(us) == TouchBoth(Vals(ts), target, source, targetFirst)
  {
    hide Holds, HoldsAll, Disjoint, DisjointAll, Foot, FootAll, Val, Keeps, TouchRef;
    ghost var between;
    if targetFirst {
      a, between := LocateRef(roots, target, ts);
      b, us := LocateRef(roots, source, between);
      StillThere(between, us, target);
    } else {
      b, between := LocateRef(roots, source, ts);
      a, us := LocateRef(roots, target, between);
      StillThere(between, us, source);
    }
  }

  lemma StillThere(ts: seq<Shape>, us: seq<Shape>, r: Ref)
    requires HoldsAll(us) && AllKeep(ts, us) && ReachesRef(ts, r) && HasRef(Vals(us), r)
    ensures ReachesRef(us, r) && SubRef(us, r).node == SubRef(ts, r).node
  {
    hide Holds, Val;
    ReachesIff(us[r.root], r.path);
    assert Keeps(ts[r.root], us[r.root]);
  }

  lemma PartsApart(ts: seq<Shape>, r: Ref, s: Ref)
    requires DisjointAll(ts) && ReachesRef(ts, r) && ReachesRef(ts, s) && RefsApart(r, s)
    ensures Foot(SubRef(ts, r)) !! Foot(SubRef(ts, s))
  {
    hide Foot, Disjoint;
    assert Disjoint(ts[r.root]) && Disjoint(ts[s.root]);
    SubOwned(ts[r.root], r.path);
    SubOwned(ts[s.root], s.path);
    if r.root == s.root {
      SubsApart(ts[r.root], r.path, s.path, ts[r.root]);
    } else {
      assert Foot(ts[r.root]) !! Foot(ts[s.root]) by {
        assert r.root < s.root || s.root < r.root;
      }
    }
  }

  lemma PlainShape(t: Shape)
    requires HoldsNode(t) && Plain(Val(t))
    ensures IsPlain(t)
  {
  }

  // Statements

  /** `a` takes a new tree `x`, which only it and new objects make up. */
  lemma Rebuilt(roots: seq<JSON>, ts: seq<Shape>, r: Ref, x: Shape)
    requires AreNodes(roots, ts) && DisjointAll(ts) && ReachesRef(ts, r)
    requires SubRef(ts, r).node == x.node && x.node in Foot(SubRef(ts, r))
    requires Owns(x.node, x) && Foot(x) * FootAll(ts) <= Foot(SubRef(ts, r))
    requires HoldsAllBut(ts, {x.node})
    ensures var us := SpliceRef(ts, r, x);
            && Pool(roots, us) && FootAll(us) <= FootAll(ts) + Foot(x)
            && Vals(us) == SetRef(Vals(ts), r, Val(x))
  {
    hide HoldsBut, HoldsAllBut, Holds, Disjoint, DisjointAll, Foot, FootAll, Val;
    assert {} + {x.node} == {x.node};
    HoldsButMore(x, {});
    SpliceRefOwned(roots, ts, r, x, {}, {x.node});
    AllHoldButNothing(SpliceRef(ts, r, x));
  }

  method DoDeclare(roots: seq<JSON>, source: Ref, ghost ts: seq<Shape>) returns (r: JSON, ghost us: seq<Shape>)
    requires Pool(roots, ts) && Defined(Vals(ts), Declare(source))
    modifies FootAll(ts)
    ensures Pool(roots + [r], us) && (forall o :: o in FootAll(us) ==> o in FootAll(ts) || fresh(o))
    ensures Vals(us) == Effect(Vals(ts), Declare(source))
  {
    hide Holds, HoldsAll, Disjoint, DisjointAll, Foot, FootAll, Val, TouchRef;
    var b;
    ghost var ms, x;
    b, ms := LocateRef(roots, source, ts);
    SubRefOwned(ms, source);
    assert allocated(FootAll(ms)) && allocated(Foot(SubRef(ms, source)));
    r, x := JSON.Copy(b, SubRef(ms, source));
    us := ms + [x];
    assert HoldsAll(ms) && Foot(x) !! FootAll(ms);
    Append(ms, x);
    assert Vals(us) == Vals(ms) + [Val(x)];
  }

  method DoDeclareNull(roots: seq<JSON>, ghost ts: seq<Shape>) returns (r: JSON, ghost us: seq<Shape>)
    requires Pool(roots, ts)
    ensures Pool(roots + [r], us) && (forall o :: o in FootAll(us) ==> o in FootAll(ts) || fresh(o))
    ensures Vals(us) == Effect(Vals(ts), DeclareNull)
  {
    hide Holds, HoldsAll, Disjoint, DisjointAll, Foot, FootAll, Val;
    assert allocated(FootAll(ts));
    r := new JSON();
    ghost var leaf := Shape(r, Scalar(Null), []);
    LeafFoot(r);
    us := ts + [leaf];
    assert HoldsAll(ts) && Foot(leaf) !! FootAll(ts);
    Append(ts, leaf);
    assert Vals(us) == Vals(ts) + [Null];
  }

  method DoDeclareMoved(roots: seq<JSON>, source: Ref, ghost ts: seq<Shape>) returns (r: JSON, ghost us: seq<Shape>)
    requires Pool(roots, ts) && Defined(Vals(ts), DeclareMoved(source))
    modifies FootAll(ts)
    ensures Pool(roots + [r], us) && (forall o :: o in FootAll(us) ==> o in FootAll(ts) || fresh(o))
    ensures Vals(us) == Effect(Vals(ts), DeclareMoved(source))
  {
    hide Holds, HoldsAll, HoldsAllBut, Disjoint, DisjointAll, Foot, FootAll, Val, TouchRef, SetRef;
    var b;
    ghost var ms, x;
    b, ms := LocateRef(roots, source, ts);
    SubRefOwned(ms, source);
    AllHoldBut(ms, {b});
    assert allocated(FootAll(ms)) && allocated(Foot(SubRef(ms, source)));
    r, x := JSON.Moved(b, SubRef(ms, source));
    ghost var leaf := Shape(b, Scalar(Null), []);
    us := SpliceRef(ms, source, leaf) + [x];
    TakenOut(roots, ms, source, r, x);
    assert Vals(us) == Vals(SpliceRef(ms, source, leaf)) + [Val(x)];
  }

  /** The nodes of a part are a new object's now, and the part is Null. */
  lemma {:induction false} TakenOut(roots: seq<JSON>, ts: seq<Shape>, r: Ref, node: JSON, x: Shape)
    requires AreNodes(roots, ts) && DisjointAll(ts) && ReachesRef(ts, r)
    requires var b := SubRef(ts, r).node;
             && HoldsAllBut(ts, {b}) && Owns(b, Shape(b, Scalar(Null), [])) && b in Foot(SubRef(ts, r))
             && Owns(node, x) && node !in FootAll(ts) && Foot(x) == Foot(SubRef(ts, r)) - {b} + {node}
             && Foot(SubRef(ts, r)) <= FootAll(ts)
    ensures var us := SpliceRef(ts, r, Shape(SubRef(ts, r).node, Scalar(Null), []));
            && Pool(roots + [node], us + [x]) && FootAll(us + [x]) <= FootAll(ts) + Foot(x)
            && Vals(us) == SetRef(Vals(ts), r, Null)
  {
    hide HoldsBut, HoldsAllBut, Holds, HoldsAll, Disjoint, DisjointAll, Foot, FootAll, Val, SetRef;
    var b := SubRef(ts, r).node;
    var leaf := Shape(b, Scalar(Null), []);
    LeafFoot(b);
    HoldsButMore(leaf, {});
    assert {} + {b} == {b};
    SpliceRefOwned(roots, ts, r, leaf, {}, {b});
    var us := SpliceRef(ts, r, leaf);
    AllHoldButNothing(us);
    Append(us, x);
  }

  method DoSetScalar(roots: seq<JSON>, target: Ref, v: Value, ghost ts: seq<Shape>) returns (ghost us: seq<Shape>)
    requires Pool(roots, ts) && Defined(Vals(ts), SetScalar(target, v))
    modifies FootAll(ts)
    ensures Pool(roots, us) && (forall o :: o in FootAll(us) ==> o in FootAll(ts) || fresh(o))
    ensures Vals(us) == Effect(Vals(ts), SetScalar(target, v))
  {
    hide Holds, HoldsAll, HoldsAllBut, Disjoint, DisjointAll, Foot, FootAll, Val, TouchRef, SetRef;
    var a;
    ghost var ms, x;
    a, ms := LocateRef(roots, target, ts);
    SubRefOwned(ms, target);
    AllHoldBut(ms, {a});
    assert allocated(FootAll(ms));
    x := a.AssignScalar(v, SubRef(ms, target));
    ScalarShape(x, v);
    Rebuilt(roots, ms, target, x);
    us := SpliceRef(ms, target, x);
  }

  lemma ScalarShape(c: Shape, v: Value)
    requires c.form == Scalar(v) && c.children == []
    ensures Foot(c) == {c.node} && Val(c) == v
  {
  }

  method DoCopyTo(roots: seq<JSON>, e: Edit, ghost ts: seq<Shape>) returns (ghost us: seq<Shape>)
    requires Pool(roots, ts) && e.CopyTo? && Defined(Vals(ts), e)
    modifies FootAll(ts)
    ensures Pool(roots, us) && (forall o :: o in FootAll(us) ==> o in FootAll(ts) || fresh(o))
    ensures Vals(us) == Effect(Vals(ts), e)
  {
    hide Holds, HoldsAll, HoldsAllBut, Disjoint, DisjointAll, Foot, FootAll, Val, TouchBoth, SetRef;
    var a, b;
    ghost var ms, x;
    a, b, ms := LocateBoth(roots, e.target, e.source, e.targetFirst, ts);
    SubRefOwned(ms, e.target);
    SubRefOwned(ms, e.source);
    ghost var t, s := SubRef(ms, e.target), SubRef(ms, e.source);
    if RefsApart(e.target, e.source) {
      PartsApart(ms, e.target, e.source);
    } else {
      Parts(t);
      PlainShape(t);
    }
    AllHoldBut(ms, {a});
    assert allocated(FootAll(ms));
    x := a.Assign(b, t, s);
    Rebuilt(roots, ms, e.target, x);
    us := SpliceRef(ms, e.target, x);
  }

  /** The argument of the append is copied before the target is evaluated. */
  method DoAppendCopied(roots: seq<JSON>, e: Edit, ghost ts: seq<Shape>) returns (ghost us: seq<Shape>)
    requires Pool(roots, ts) && e.AppendTo? && e.order.CopyFirst? && Defined(Vals(ts), e)
    modifies FootAll(ts)
    ensures Pool(roots, us) && (forall o :: o in FootAll(us) ==> o in FootAll(ts) || fresh(o))
    ensures Vals(us) == Effect(Vals(ts), e)
  {
    hide Holds, HoldsAll, HoldsAllBut, Disjoint, DisjointAll, Foot, FootAll, Val, TouchRef, SetRef;
    hide GetPath, HasPath, Sub, Splice, Apart;
    var b, arg, a;
    ghost var ms, y, ns, x;
    b, ms := LocateRef(roots, e.source, ts);
    SubRefOwned(ms, e.source);
    assert allocated(FootAll(ms)) && allocated(Foot(SubRef(ms, e.source)));
    arg, y := JSON.Copy(b, SubRef(ms, e.source));
    assert HoldsAll(ms) && Foot(y) !! FootAll(ms) && allocated(Foot(y));
    a, ns := LocateRef(roots, e.target, ms);
    SubRefOwned(ns, e.target);
    AllHoldBut(ns, {a});
    assert allocated(FootAll(ns)) && Owns(arg, y);
    x := a.AppendCopy(arg, SubRef(ns, e.target), y);
    Rebuilt(roots, ns, e.target, x);
    us := SpliceRef(ns, e.target, x);
  }

  method DoAppendTo(roots: seq<JSON>, e: Edit, ghost ts: seq<Shape>) returns (ghost us: seq<Shape>)
    requires Pool(roots, ts) && e.AppendTo? && !e.order.CopyFirst? && Defined(Vals(ts), e)
    modifies FootAll(ts)
    ensures Pool(roots, us) && (forall o :: o in FootAll(us) ==> o in FootAll(ts) || fresh(o))
    ensures Vals(us) == Effect(Vals(ts), e)
  {
    hide Holds, HoldsAll, HoldsAllBut, Disjoint, DisjointAll, Foot, FootAll, Val, TouchBoth, SetRef;
    var a, b;
    ghost var ms, x;
    a, b, ms := LocateBoth(roots, e.target, e.source, e.order.TargetFirst?, ts);
    SubRefOwned(ms, e.target);
    SubRefOwned(ms, e.source);
    AllHoldBut(ms, {a});
    assert allocated(FootAll(ms));
    x := a.AppendCopy(b, SubRef(ms, e.target), SubRef(ms, e.source));
    Rebuilt(roots, ms, e.target, x);
    us := SpliceRef(ms, e.target, x);
  }

  /** The source is Null now, and its nodes are the target's. */
  lemma Swapped(roots: seq<JSON>, ts: seq<Shape>, target: Ref, source: Ref, x: Shape)
    requires AreNodes(roots, ts) && DisjointAll(ts)
    requires ReachesRef(ts, target) && ReachesRef(ts, source) && RefsApart(target, source)
    requires var a, b := SubRef(ts, target).node, SubRef(ts, source).node;
             && HoldsAllBut(ts, {a, b}) && Owns(a, x) && Owns(b, Shape(b, Scalar(Null), []))
             && a in Foot(SubRef(ts, target)) && b in Foot(SubRef(ts, source))
             && Foot(x) == Foot(SubRef(ts, source)) - {b} + {a} && Foot(SubRef(ts, source)) <= FootAll(ts)
    ensures var leaf := Shape(SubRef(ts, source).node, Scalar(Null), []);
            var ls := SpliceRef(ts, source, leaf);
            && ReachesRef(ls, target)
            && var us := SpliceRef(ls, target, x);
               && Pool(roots, us) && FootAll(us) <= FootAll(ts) + Foot(x)
               && Vals(us) == SetRef(SetRef(Vals(ts), source, Null), target, Val(x))
  {
    hide HoldsBut, HoldsAllBut, Holds, Disjoint, DisjointAll, Foot, FootAll, Val, SetRef;
    var t, s := SubRef(ts, target), SubRef(ts, source);
    var leaf := Shape(s.node, Scalar(Null), []);
    LeafFoot(s.node);
    PartsApart(ts, target, source);
    HoldsButMore(leaf, {t.node});
    assert {t.node} + {s.node} == {t.node, s.node};
    SpliceRefOwned(roots, ts, source, leaf, {t.node}, {s.node});
    var ls := SpliceRef(ts, source, leaf);
    StillApart(ts, source, leaf, target);
    Rebuilt(roots, ls, target, x);
  }

  lemma StillApart(ts: seq<Shape>, r: Ref, x: Shape, s: Ref)
    requires DisjointAll(ts) && ReachesRef(ts, r) && ReachesRef(ts, s) && RefsApart(r, s)
    ensures ReachesRef(SpliceRef(ts, r, x), s) && SubRef(SpliceRef(ts, r, x), s) == SubRef(ts, s)
  {
    hide Disjoint;
    if r.root == s.root {
      SubsApart(ts[r.root], r.path, s.path, x);
    }
  }

  method DoMoveTo(roots: seq<JSON>, e: Edit, ghost ts: seq<Shape>) returns (ghost us: seq<Shape>)
    requires Pool(roots, ts) && e.MoveTo? && Defined(Vals(ts), e)
    modifies FootAll(ts)
    ensures Pool(roots, us) && (forall o :: o in FootAll(us) ==> o in FootAll(ts) || fresh(o))
    ensures Vals(us) == Effect(Vals(ts), e)
  {
    hide Holds, HoldsAll, HoldsAllBut, Disjoint, DisjointAll, Foot, FootAll, Val, TouchBoth, SetRef;
    hide GetPath, HasPath, Sub, Splice, Apart;
    var a, b;
    ghost var ms, x;
    a, b, ms := LocateBoth(roots, e.target, e.source, e.targetFirst, ts);
    SubRefOwned(ms, e.target);
    SubRefOwned(ms, e.source);
    ghost var t, s := SubRef(ms, e.target), SubRef(ms, e.source);
    if RefsApart(e.target, e.source) {
      PartsApart(ms, e.target, e.source);
    } else {
      Parts(t);
      PlainShape(t);
    }
    AllHoldBut(ms, {a, b});
    assert allocated(FootAll(ms));
    x := a.MoveAssign(b, t, s);
    ghost var leaf := Shape(b, Scalar(Null), []);
    LeafFoot(b);
    if e.target == e.source {
      assert {a, b} == {b};
      Rebuilt(roots, ms, e.source, leaf);
      us := SpliceRef(ms, e.source, leaf);
    } else {
      Swapped(roots, ms, e.target, e.source, x);
      us := SpliceRef(SpliceRef(ms, e.source, leaf), e.target, x);
    }
  }

  // Runs

  method Do(roots: seq<JSON>, e: Edit, ghost ts: seq<Shape>) returns (all: seq<JSON>, ghost us: seq<Shape>)
    requires Pool(roots, ts) && Defined(Vals(ts), e)
    modifies FootAll(ts)
    ensures Pool(all, us) && (forall o :: o in FootAll(us) ==> o in FootAll(ts) || fresh(o))
    ensures roots <= all && Vals(us) == Effect(Vals(ts), e)
  {
    hide Pool, Vals, Effect, Defined, FootAll;
    all := roots;
    match e {
      case DeclareNull =>
        var r;
        r, us := DoDeclareNull(roots, ts);
        all := roots + [r];
      case Declare(source) =>
        var r;
        r, us := DoDeclare(roots, source, ts);
        all := roots + [r];
      case DeclareMoved(source) =>
        var r;
        r, us := DoDeclareMoved(roots, source, ts);
        all := roots + [r];
      case SetScalar(target, v) => us := DoSetScalar(roots, target, v, ts);
      case CopyTo(_, _, _) => us := DoCopyTo(roots, e, ts);
      case MoveTo(_, _, _) => us := DoMoveTo(roots, e, ts);
      case AppendTo(_, _, order) =>
        if order.CopyFirst? {
          us := DoAppendCopied(roots, e, ts);
        } else {
          us := DoAppendTo(roots, e, ts);
        }
    }
  }

  /** Value semantics. Any run of statements over objects that share nothing, whichever of them they
      read and write, does to each object what it does to its value, and the objects still share
      nothing afterwards. */
  method Run(roots: seq<JSON>, edits: seq<Edit>, ghost ts: seq<Shape>) returns (all: seq<JSON>, ghost us: seq<Shape>)
    requires Pool(roots, ts) && AllDefined(Vals(ts), edits)
    modifies FootAll(ts)
    ensures Pool(all, us) && (forall o :: o in FootAll(us) ==> o in FootAll(ts) || fresh(o))
    ensures roots <= all && Vals(us) == EffectAll(Vals(ts), edits) && LastDoes(Vals(ts), edits, Vals(us))
  {
    hide Pool, Vals, Effect, Defined, FootAll, LastDoes;
    RunDoes(Vals(ts), edits);
    all, us := roots, ts;
    assert edits[0..] == edits;
    for i := 0 to |edits|
      invariant Pool(all, us) && (forall o :: o in FootAll(us) ==> o in FootAll(ts) || fresh(o))
      invariant roots <= all && AllDefined(Vals(us), edits[i..])
      invariant EffectAll(Vals(us), edits[i..]) == EffectAll(Vals(ts), edits)
    {
      assert edits[i..][0] == edits[i] && edits[i..][1..] == edits[i + 1..];
      all, us := Do(all, edits[i], us);
    }
    assert edits[|edits|..] == [];
  }

  // Independence

  /** The source is not the `i`-th object, or a part of it that is there: reading one that is not
      would add it. */
  predicate OnlyReads(vs: seq<Value>, s: Ref, i: nat)
    requires InPlay(vs, s)
  {
    s.root == i ==> HasRef(vs, s)
  }

  /** The statement reads the `i`-th object and its parts at most. */
  predicate Spares(vs: seq<Value>, e: Edit, i: nat)
    requires Defined(vs, e)
  {
    match e
    case DeclareNull => true
    case Declare(s) => OnlyReads(vs, s, i)
    case DeclareMoved(s) => s.root != i
    case SetScalar(t, _) => t.root != i
    case CopyTo(t, s, _) => t.root != i && OnlyReads(vs, s, i)
    case MoveTo(t, s, _) => t.root != i && s.root != i
    case AppendTo(t, s, _) => t.root != i && OnlyReads(vs, s, i)
  }

  /** So does every statement of a run. */
  predicate AllSpare(vs: seq<Value>, edits: seq<Edit>, i: nat)
    requires AllDefined(vs, edits)
    decreases |edits|
  {
    edits == [] || (Spares(vs, edits[0], i) && AllSpare(Effect(vs, edits[0]), edits[1..], i))
  }

  lemma TouchSpares(vs: seq<Value>, r: Ref, i: nat)
    requires InPlay(vs, r) && i < |vs| && OnlyReads(vs, r, i) && Ordered(vs[i])
    ensures TouchRef(vs, r)[i] == vs[i]
  {
    hide SetPath, GetPath, HasPath, Ordered;
    if r.root == i {
      TouchIsIdle(vs[i], r.path);
    }
  }

  lemma EffectSpares(vs: seq<Value>, e: Edit, i: nat)
    requires Defined(vs, e) && i < |vs| && Spares(vs, e, i) && Ordered(vs[i])
    ensures Effect(vs, e)[i] == vs[i]
  {
    hide GetRef, HasRef, Plain, TouchRef, TouchBoth, Ordered, OnlyReads, RefsApart;
    match e
    case DeclareNull =>
    case Declare(s) => TouchSpares(vs, s, i);
    case DeclareMoved(s) => TouchOther(vs, s, i);
    case SetScalar(t, _) => TouchOther(vs, t, i);
    case CopyTo(t, s, first) => TouchBothSpares(vs, t, s, first, i);
    case MoveTo(t, s, first) => OtherIsOnlyRead(vs, s, i); TouchBothSpares(vs, t, s, first, i);
    case AppendTo(t, s, order) => TouchBothSpares(vs, t, s, order.TargetFirst?, i);
  }

  lemma OtherIsOnlyRead(vs: seq<Value>, r: Ref, i: nat)
    requires InPlay(vs, r) && r.root != i
    ensures OnlyReads(vs, r, i)
  {
  }

  lemma TouchOther(vs: seq<Value>, r: Ref, i: nat)
    requires InPlay(vs, r) && i < |vs| && r.root != i
    ensures TouchRef(vs, r)[i] == vs[i]
  {
  }

  lemma TouchBothSpares(vs: seq<Value>, t: Ref, s: Ref, targetFirst: bool, i: nat)
    requires InPlay(vs, t) && InPlay(vs, s) && i < |vs| && t.root != i && OnlyReads(vs, s, i) && Ordered(vs[i])
    ensures TouchBoth(vs, t, s, targetFirst)[i] == vs[i]
  {
    hide TouchRef, Ordered;
    if targetFirst {
      TouchOther(vs, t, i);
      TouchSpares(TouchRef(vs, t), s, i);
    } else {
      TouchSpares(vs, s, i);
      TouchOther(TouchRef(vs, s), t, i);
    }
  }

  lemma {:induction false} RunSpares(vs: seq<Value>, edits: seq<Edit>, i: nat)
    requires AllDefined(vs, edits) && i < |vs| && AllSpare(vs, edits, i) && Ordered(vs[i])
    ensures var us := EffectAll(vs, edits); i < |us| && us[i] == vs[i]
    decreases |edits|
  {
    hide Effect, Defined, Spares, Ordered;
    if edits != [] {
      EffectSpares(vs, edits[0], i);
      RunSpares(Effect(vs, edits[0]), edits[1..], i);
    }
  }

  predicate Mentions(e: Edit, i: nat) {
    || (!e.DeclareNull? && !e.SetScalar? && e.source.root == i)
    || (!Declares(e) && e.target.root == i)
  }

  /** Statements that do not mention an object spare it. */
  lemma {:induction false} UnmentionedIsSpared(vs: seq<Value>, edits: seq<Edit>, i: nat)
    requires AllDefined(vs, edits) && forall k :: 0 <= k < |edits| ==> !Mentions(edits[k], i)
    ensures AllSpare(vs, edits, i)
    decreases |edits|
  {
    hide Effect, Defined, HasRef;
    if edits != [] {
      assert !Mentions(edits[0], i);
      UnmentionedIsSpared(Effect(vs, edits[0]), edits[1..], i);
    }
  }

  /** The statement stays within one object. */
  predicate IsLocal(e: Edit) {
    match e
    case DeclareNull => false
    case Declare(_) => false
    case DeclareMoved(_) => false
    case SetScalar(_, _) => true
    case CopyTo(t, s, _) => t.root == s.root
    case MoveTo(t, s, _) => t.root == s.root
    case AppendTo(t, s, _) => t.root == s.root
  }

  predicate Within(e: Edit, j: nat) {
    IsLocal(e) && e.target.root == j
  }

  /** The same statement on an object that stands alone. */
  function Alone(e: Edit): Edit {
    match e
    case DeclareNull => DeclareNull
    case Declare(s) => Declare(Ref(0, s.path))
    case DeclareMoved(s) => DeclareMoved(Ref(0, s.path))
    case SetScalar(t, v) => SetScalar(Ref(0, t.path), v)
    case CopyTo(t, s, first) => CopyTo(Ref(0, t.path), Ref(0, s.path), first)
    case MoveTo(t, s, first) => MoveTo(Ref(0, t.path), Ref(0, s.path), first)
    case AppendTo(t, s, order) => AppendTo(Ref(0, t.path), Ref(0, s.path), order)
  }

  function Mine(edits: seq<Edit>, i: nat): seq<Edit> {
    if edits == [] then []
    else (if Within(edits[0], i) then [Alone(edits[0])] else []) + Mine(edits[1..], i)
  }

  lemma TouchAlone(vs: seq<Value>, j: nat, p: seq<Step>)
    requires j < |vs|
    ensures TouchRef(vs, Ref(j, p))[j] == TouchRef([vs[j]], Ref(0, p))[0]
    ensures forall i :: 0 <= i < |vs| && i != j ==> TouchRef(vs, Ref(j, p))[i] == vs[i]
  {
  }

  lemma TouchBothAlone(vs: seq<Value>, j: nat, p: seq<Step>, q: seq<Step>, first: bool)
    requires j < |vs|
    ensures TouchBoth(vs, Ref(j, p), Ref(j, q), first)[j] == TouchBoth([vs[j]], Ref(0, p), Ref(0, q), first)[0]
    ensures forall i :: 0 <= i < |vs| && i != j ==> TouchBoth(vs, Ref(j, p), Ref(j, q), first)[i] == vs[i]
  {
    hide TouchRef;
    var (a, b) := if first then (p, q) else (q, p);
    TouchAlone(vs, j, a);
    var us := TouchRef(vs, Ref(j, a));
    TouchAlone(us, j, b);
    assert TouchRef([vs[j]], Ref(0, a)) == [us[j]];
  }

  lemma EffectAlone(vs: seq<Value>, e: Edit, j: nat)
    requires Defined(vs, e) && Within(e, j)
    ensures j < |vs| && Defined([vs[j]], Alone(e))
    ensures Effect(vs, e)[j] == Effect([vs[j]], Alone(e))[0]
    ensures forall i :: 0 <= i < |vs| && i != j ==> Effect(vs, e)[i] == vs[i]
  {
    hide TouchRef, TouchBoth, SetPath, GetPath, HasPath, Plain, Apart;
    match e
    case SetScalar(t, v) => TouchAlone(vs, j, t.path);
    case CopyTo(t, s, first) => TouchBothAlone(vs, j, t.path, s.path, first);
    case MoveTo(t, s, first) => TouchBothAlone(vs, j, t.path, s.path, first);
    case AppendTo(t, s, order) =>
      TouchAlone(vs, j, s.path);
      TouchBothAlone(vs, j, t.path, s.path, order.TargetFirst?);
  }

  /** Statements that each stay within one object, interleaved in any order: every object ends as its
      own statements make it, as if it were alone. */
  lemma {:induction false} AsIfAlone(vs: seq<Value>, edits: seq<Edit>, i: nat)
    requires AllDefined(vs, edits) && i < |vs|
    requires forall k :: 0 <= k < |edits| ==> IsLocal(edits[k])
    ensures AllDefined([vs[i]], Mine(edits, i))
    ensures |EffectAll(vs, edits)| == |vs| && |EffectAll([vs[i]], Mine(edits, i))| == 1
    ensures EffectAll(vs, edits)[i] == EffectAll([vs[i]], Mine(edits, i))[0]
    decreases |edits|
  {
    hide Effect, Defined, Alone;
    if edits != [] {
      var e := edits[0];
      var j := e.target.root;
      NotDeclared(e, j, i);
      EffectAlone(vs, e, j);
      var us := Effect(vs, e);
      AsIfAlone(us, edits[1..], i);
      if i == j {
        var rest := Mine(edits[1..], i);
        assert Mine(edits, i) == [Alone(e)] + rest;
        assert ([Alone(e)] + rest)[1..] == rest;
        assert Effect([vs[i]], Alone(e)) == [us[i]];
      } else {
        assert Mine(edits, i) == Mine(edits[1..], i);
      }
    }
  }

  lemma NotDeclared(e: Edit, j: nat, i: nat)
    requires Within(e, j)
    ensures !Declares(e) && !Declares(Alone(e)) && (i != j ==> !Within(e, i))
  {
  }

  /** Assigning and moving whole objects. */
  lemma WholeObjects(vs: seq<Value>, i: nat, j: nat)
    requires i < |vs| && j < |vs| && i != j
    ensures var e := CopyTo(Ref(i, []), Ref(j, []), false); Defined(vs, e) && Effect(vs, e) == vs[i := vs[j]]
    ensures var e := MoveTo(Ref(i, []), Ref(j, []), false);
            Defined(vs, e) && Effect(vs, e) == vs[j := Null][i := vs[j]]
  {
    assert vs[i := vs[i]] == vs == vs[j := vs[j]];
  }

  /** A copy is deep: whatever is done to the copy afterwards, also with the original as a source,
      leaves the original as it was, and the other way round. */
  method CopyThenEdit(roots: seq<JSON>, i: nat, edits: seq<Edit>, ghost ts: seq<Shape>)
    returns (all: seq<JSON>, ghost us: seq<Shape>)
    requires Pool(roots, ts) && i < |roots| && AllDefined(Vals(ts) + [Val(ts[i])], edits)
    modifies FootAll(ts)
    ensures Pool(all, us) && roots <= all && Vals(us) == EffectAll(Vals(ts) + [Val(ts[i])], edits)
    ensures |roots| < |all|
    ensures AllSpare(Vals(ts) + [Val(ts[i])], edits, i) ==> Val(us[i]) == Val(ts[i])
    ensures AllSpare(Vals(ts) + [Val(ts[i])], edits, |roots|) ==> Val(us[|roots|]) == Val(ts[i])
  {
    hide Val, AllSpare, AllDefined, Ordered;
    ghost var vs := Vals(ts);
    PoolIsOrdered(roots, ts, i);
    var copy := Declare(Ref(i, []));
    assert vs[i := vs[i]] == vs;
    ghost var now;
    all, now := Do(roots, copy, ts);
    all, us := Run(all, edits, now);
    AfterwardsSpared(vs + [vs[i]], edits, i, |vs|);
  }

  /** After `a = b` the same holds between `a` and `b`. */
  method AssignThenEdit(roots: seq<JSON>, i: nat, j: nat, edits: seq<Edit>, ghost ts: seq<Shape>)
    returns (all: seq<JSON>, ghost us: seq<Shape>)
    requires Pool(roots, ts) && i < |roots| && j < |roots| && i != j
    requires AllDefined(Vals(ts)[i := Val(ts[j])], edits)
    modifies FootAll(ts)
    ensures Pool(all, us) && roots <= all && Vals(us) == EffectAll(Vals(ts)[i := Val(ts[j])], edits)
    ensures AllSpare(Vals(ts)[i := Val(ts[j])], edits, i) ==> Val(us[i]) == Val(ts[j])
    ensures AllSpare(Vals(ts)[i := Val(ts[j])], edits, j) ==> Val(us[j]) == Val(ts[j])
  {
    hide Val, AllSpare, AllDefined, Effect, Defined, Ordered;
    ghost var vs := Vals(ts);
    PoolIsOrdered(roots, ts, j);
    WholeObjects(vs, i, j);
    ghost var now;
    all, now := Do(roots, CopyTo(Ref(i, []), Ref(j, []), false), ts);
    all, us := Run(all, edits, now);
    AfterwardsSpared(vs[i := vs[j]], edits, i, j);
  }

  /** After `a = std::move(b)`, `b` is Null and stays so until it is written to; `a` has the value. */
  method MoveThenEdit(roots: seq<JSON>, i: nat, j: nat, edits: seq<Edit>, ghost ts: seq<Shape>)
    returns (all: seq<JSON>, ghost us: seq<Shape>)
    requires Pool(roots, ts) && i < |roots| && j < |roots| && i != j
    requires AllDefined(Vals(ts)[j := Null][i := Val(ts[j])], edits)
    modifies FootAll(ts)
    ensures Pool(all, us) && roots <= all && Vals(us) == EffectAll(Vals(ts)[j := Null][i := Val(ts[j])], edits)
    ensures AllSpare(Vals(ts)[j := Null][i := Val(ts[j])], edits, i) ==> Val(us[i]) == Val(ts[j])
    ensures AllSpare(Vals(ts)[j := Null][i := Val(ts[j])], edits, j) ==> Val(us[j]) == Null
  {
    hide Val, AllSpare, AllDefined, Effect, Defined, Ordered;
    ghost var vs := Vals(ts);
    PoolIsOrdered(roots, ts, j);
    WholeObjects(vs, i, j);
    ghost var now;
    all, now := Do(roots, MoveTo(Ref(i, []), Ref(j, []), false), ts);
    all, us := Run(all, edits, now);
    AfterwardsSpared(vs[j := Null][i := vs[j]], edits, i, j);
  }

  lemma AfterwardsSpared(vs: seq<Value>, edits: seq<Edit>, i: nat, j: nat)
    requires AllDefined(vs, edits) && i < |vs| && j < |vs| && Ordered(vs[i]) && Ordered(vs[j])
    ensures var us := EffectAll(vs, edits);
            && |us| >= |vs|
            && (AllSpare(vs, edits, i) ==> us[i] == vs[i]) && (AllSpare(vs, edits, j) ==> us[j] == vs[j])
  {
    hide AllSpare, Ordered, EffectAll, AllDefined;
    if AllSpare(vs, edits, i) {
      RunSpares(vs, edits, i);
    }
    if AllSpare(vs, edits, j) {
      RunSpares(vs, edits, j);
    }
    RunGrows(vs, edits);
  }

  lemma PoolIsOrdered(roots: seq<JSON>, ts: seq<Shape>, i: nat)
    requires Pool(roots, ts) && i < |ts|
    ensures Ordered(Val(ts[i])) && Ordered(Null)
  {
    hide Holds, Val;
    HeldIsOrdered(ts[i]);
  }

  lemma {:induction false} RunGrows(vs: seq<Value>, edits: seq<Edit>)
    requires AllDefined(vs, edits)
    ensures |EffectAll(vs, edits)| >= |vs|
    decreases |edits|
  {
    hide Defined;
    if edits != [] {
      RunGrows(Effect(vs, edits[0]), edits[1..]);
    }
  }
}
