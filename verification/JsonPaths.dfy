/** Chains of `operator[]`: what they refer to in a value, and in a tree of objects. */
module JsonPaths {
  import opened Chars
  import opened OrderedMap
  import opened JsonValue
  import opened JsonHeap

  /** One `operator[]`. */
  datatype Step = Key(key: string) | Item(index: nat)

  // In a value

  /** What `v[step]` refers to. */
  function Pick(v: Value, step: Step): Value {
    match step
    case Key(k) => Get(v, k)
    case Item(i) => PadNulls(ItemsOf(v), i + 1)[i]
  }

  /** `v` after `v[step] = w`. */
  function Replace(v: Value, step: Step, w: Value): Value {
    match step
    case Key(k) => Object(Put(Touch(v, k).members, k, w))
    case Item(i) => Array(PadNulls(ItemsOf(v), i + 1)[i := w])
  }

  /** `v[step]` is there already. */
  predicate Present(v: Value, step: Step) {
    match step
    case Key(k) => v.Object? && Find(v.members, k).Some?
    case Item(i) => v.Array? && i < |v.items|
  }

  function GetPath(v: Value, path: seq<Step>): Value
    decreases |path|
  {
    if path == [] then v else GetPath(Pick(v, path[0]), path[1..])
  }

  function SetPath(v: Value, path: seq<Step>, w: Value): Value
    decreases |path|
  {
    if path == [] then w else Replace(v, path[0], SetPath(Pick(v, path[0]), path[1..], w))
  }

  /** What following a path does to a value: it adds what is missing, and changes types. */
  function TouchPath(v: Value, path: seq<Step>): Value {
    SetPath(v, path, GetPath(v, path))
  }

  predicate HasPath(v: Value, path: seq<Step>)
    decreases |path|
  {
    path == [] || (Present(v, path[0]) && HasPath(Pick(v, path[0]), path[1..]))
  }

  /** Neither path leads through the other. */
  predicate Apart(p: seq<Step>, q: seq<Step>) {
    !(p <= q) && !(q <= p)
  }

  /** Members stand in key order, at every depth. */
  ghost predicate Ordered(v: Value) {
    match v
    case Object(ms) => Sorted(ms) && forall i :: 0 <= i < |ms| ==> Ordered(ms[i].val)
    case Array(xs) => forall i :: 0 <= i < |xs| ==> Ordered(xs[i])
    case _ => true
  }

  lemma PickReplaced(v: Value, step: Step, w: Value)
    ensures Pick(Replace(v, step, w), step) == w && Present(Replace(v, step, w), step)
  {
    if step.Key? {
      FindPut(Touch(v, step.key).members, step.key, w, step.key);
    }
  }

  lemma PickOther(v: Value, step: Step, w: Value, other: Step)
    requires step != other && Present(v, step) && Present(v, other)
    ensures Pick(Replace(v, step, w), other) == Pick(v, other) && Present(Replace(v, step, w), other)
  {
    if step.Key? {
      FindPut(Touch(v, step.key).members, step.key, w, other.key);
    }
  }

  // One `operator[]`, by the elements of the object or array

  /** `v[key]` is the member of that name if `v` is an object that has one, and otherwise Null. */
  lemma KeyReads(v: Value, key: string)
    requires Ordered(v)
    ensures forall m :: v.Object? && m in v.members && m.key == key ==> Pick(v, Key(key)) == m.val
    ensures !(v.Object? && exists m :: m in v.members && m.key == key) ==> Pick(v, Key(key)) == Null
    ensures Present(v, Key(key)) <==> v.Object? && exists m :: m in v.members && m.key == key
  {
    if v.Object? {
      FindIsMember(v.members, key);
    }
  }

  /** `v[i]` is the i-th item if `v` is an array that has one, and otherwise Null. */
  lemma ItemReads(v: Value, i: nat)
    ensures Present(v, Item(i)) <==> v.Array? && i < |v.items|
    ensures Pick(v, Item(i)) == if v.Array? && i < |v.items| then v.items[i] else Null
  {
  }

  lemma TouchedMembers(v: Value, key: string)
    requires Ordered(v)
    ensures Sorted(Touch(v, key).members)
    ensures forall m: Member :: m.key != key ==> (m in Touch(v, key).members <==> v.Object? && m in v.members)
  {
    hide Put, Find, Less;
    if v.Object? && Find(v.members, key).None? {
      PutIsMember(v.members, key, Null);
      PutSorted(v.members, key, Null);
    }
  }

  /** After `v[key] = w` the members are the ones before, none if `v` was no object, but for that one. */
  lemma KeyWrites(v: Value, key: string, w: Value)
    requires Ordered(v)
    ensures var r := Replace(v, Key(key), w);
            && r.Object? && Sorted(r.members)
            && forall m :: m in r.members
                      <==> m == Pair(key, w) || (v.Object? && m in v.members && m.key != key)
  {
    hide Put, Find, Sorted, Touch, Ordered;
    var ns := Touch(v, key).members;
    TouchedMembers(v, key);
    PutIsMember(ns, key, w);
    PutSorted(ns, key, w);
  }

  /** After `v[i] = w` the items are the ones before, none if `v` was no array, but for that one, and
      Nulls in between. */
  lemma ItemWrites(v: Value, i: nat, w: Value)
    ensures var r := Replace(v, Item(i), w);
            var n := if v.Array? then |v.items| else 0;
            && r.Array? && |r.items| == (if n <= i then i + 1 else n) && r.items[i] == w
            && forall j :: 0 <= j < |r.items| && j != i
                       ==> r.items[j] == if v.Array? && j < |v.items| then v.items[j] else Null
  {
  }

  // Chains of them

  /** A chain is one step after the other. */
  lemma {:induction false} PathsCompose(v: Value, p: seq<Step>, q: seq<Step>, w: Value)
    ensures GetPath(v, p + q) == GetPath(GetPath(v, p), q)
    ensures SetPath(v, p + q, w) == SetPath(v, p, SetPath(GetPath(v, p), q, w))
    ensures HasPath(v, p + q) <==> HasPath(v, p) && HasPath(GetPath(v, p), q)
    decreases |p|
  {
    hide Pick, Replace, Present;
    if p == [] {
      assert p + q == q;
    } else {
      assert (p + q)[0] == p[0] && (p + q)[1..] == p[1..] + q;
      PathsCompose(Pick(v, p[0]), p[1..], q, w);
    }
  }

  lemma OneStep(v: Value, step: Step, w: Value)
    ensures GetPath(v, [step]) == Pick(v, step) && SetPath(v, [step], w) == Replace(v, step, w)
    ensures HasPath(v, [step]) <==> Present(v, step)
    ensures GetPath(v, []) == v && SetPath(v, [], w) == w && HasPath(v, [])
  {
    hide Pick, Replace, Present;
    assert [step][1..] == [];
  }

  /** A value assigned through a path is found there. */
  lemma {:induction false} GetAfterSet(v: Value, path: seq<Step>, w: Value)
    ensures GetPath(SetPath(v, path, w), path) == w && HasPath(SetPath(v, path, w), path)
    decreases |path|
  {
    if path != [] {
      var below := SetPath(Pick(v, path[0]), path[1..], w);
      PickReplaced(v, path[0], below);
      GetAfterSet(Pick(v, path[0]), path[1..], w);
    }
  }

  /** An assignment through one path leaves what stands apart from it as it was. */
  lemma {:induction false} GetApart(v: Value, p: seq<Step>, w: Value, q: seq<Step>)
    requires Apart(p, q) && HasPath(v, p) && HasPath(v, q)
    ensures GetPath(SetPath(v, p, w), q) == GetPath(v, q) && HasPath(SetPath(v, p, w), q)
    decreases |p|
  {
    var below := SetPath(Pick(v, p[0]), p[1..], w);
    if p[0] == q[0] {
      ApartBelow(p, q);
      GetApart(Pick(v, p[0]), p[1..], w, q[1..]);
      PickReplaced(v, p[0], below);
    } else {
      PickOther(v, p[0], below, q[0]);
    }
  }

  lemma ApartBelow(p: seq<Step>, q: seq<Step>)
    requires Apart(p, q) && p[0] == q[0]
    ensures Apart(p[1..], q[1..])
  {
    assert p == [p[0]] + p[1..] && q == [q[0]] + q[1..];
  }

  /** Two chains stand apart exactly if they part at some step. */
  lemma {:induction false} ApartIff(p: seq<Step>, q: seq<Step>)
    ensures Apart(p, q) <==> exists k :: 0 <= k < |p| && k < |q| && p[..k] == q[..k] && p[k] != q[k]
  {
    if Apart(p, q) {
      var k := Parting(p, q);
      assert p[..k] == q[..k];
    } else if k :| 0 <= k < |p| && k < |q| && p[..k] == q[..k] && p[k] != q[k] {
      assert false;
    }
  }

  /** The first step at which they do. */
  ghost function Parting(p: seq<Step>, q: seq<Step>): (k: nat)
    requires Apart(p, q)
    ensures k < |p| && k < |q| && p[..k] == q[..k] && p[k] != q[k]
  {
    if p[0] != q[0] then 0
    else
      ApartBelow(p, q);
      var k := Parting(p[1..], q[1..]);
      assert p[..k + 1] == [p[0]] + p[1..][..k] && q[..k + 1] == [q[0]] + q[1..][..k];
      k + 1
  }

  lemma PickOrdered(v: Value, step: Step)
    requires Ordered(v) && Present(v, step)
    ensures Ordered(Pick(v, step)) && Replace(v, step, Pick(v, step)) == v
  {
    if step.Key? {
      FindAt(v.members, step.key);
      PutAt(v.members, step.key, Pick(v, step));
    }
  }

  /** Following a path to what is there already changes nothing. */
  lemma {:induction false} TouchIsIdle(v: Value, path: seq<Step>)
    requires Ordered(v) && HasPath(v, path)
    ensures TouchPath(v, path) == v
    decreases |path|
  {
    hide Ordered, Pick, Replace;
    if path != [] {
      PickOrdered(v, path[0]);
      TouchIsIdle(Pick(v, path[0]), path[1..]);
    }
  }

  // Evaluating two chains on one object

  /** Where the chains part, both go on with a key or both with an index. */
  predicate Agree(p: seq<Step>, q: seq<Step>)
    decreases |p|
  {
    p == [] || q == [] || (if p[0] == q[0] then Agree(p[1..], q[1..]) else p[0].Key? == q[0].Key?)
  }

  lemma {:induction false} AgreeIsSymmetric(p: seq<Step>, q: seq<Step>)
    ensures Agree(p, q) <==> Agree(q, p)
    decreases |p|
  {
    if p != [] && q != [] && p[0] == q[0] {
      AgreeIsSymmetric(p[1..], q[1..]);
    }
  }

  lemma TouchKeepsKeys(v: Value, key: string, other: string)
    requires v.Object? && key != other
    ensures Find(Touch(v, key).members, other) == Find(v.members, other)
  {
    hide Put;
    FindPut(v.members, key, Null, other);
  }

  lemma OtherKey(v: Value, key: string, w: Value, other: string)
    requires key != other
    ensures Pick(Replace(v, Key(key), w), Key(other)) == Pick(v, Key(other))
    ensures Present(v, Key(other)) ==> Present(Replace(v, Key(key), w), Key(other))
  {
    hide Put, Touch, Find;
    FindPut(Touch(v, key).members, key, w, other);
    GetAfterTouch(v, key, other);
    if v.Object? {
      TouchKeepsKeys(v, key, other);
    }
  }

  lemma PickKind(v: Value, step: Step, w: Value, other: Step)
    requires step != other
    ensures step.Key? == other.Key? ==> Pick(Replace(v, step, w), other) == Pick(v, other)
    ensures step.Key? == other.Key? && Present(v, other) ==> Present(Replace(v, step, w), other)
    ensures step.Key? != other.Key? ==>
              Pick(Replace(v, step, w), other) == Null && !Present(Replace(v, step, w), other)
  {
    hide Put, Touch, Find;
    if step.Key? && other.Key? {
      OtherKey(v, step.key, w, other.key);
    }
  }

  lemma {:induction false} NothingBelowNull(path: seq<Step>)
    ensures GetPath(Null, path) == Null
    decreases |path|
  {
    if path != [] {
      NothingBelowNull(path[1..]);
    }
  }

  lemma TouchStep(v: Value, path: seq<Step>)
    requires path != []
    ensures TouchPath(v, path) == Replace(v, path[0], TouchPath(Pick(v, path[0]), path[1..]))
  {
  }

  /** Evaluating a chain changes nothing another one refers to, unless they disagree or the other
      one leads there. */
  lemma {:induction false} AgreeReads(v: Value, p: seq<Step>, q: seq<Step>)
    requires Agree(p, q) && !(q < p)
    ensures GetPath(TouchPath(v, p), q) == GetPath(v, q)
    ensures HasPath(v, q) ==> HasPath(TouchPath(v, p), q)
    decreases |p|
  {
    hide Pick, Replace, Present, TouchPath;
    if p == [] {
      TouchNothing(v);
    } else {
      TouchStep(v, p);
      var below := TouchPath(Pick(v, p[0]), p[1..]);
      if p[0] == q[0] {
        assert q < p <==> q[1..] < p[1..] by {
          assert p == [p[0]] + p[1..] && q == [q[0]] + q[1..];
        }
        AgreeReads(Pick(v, p[0]), p[1..], q[1..]);
        PickReplaced(v, p[0], below);
      } else {
        PickKind(v, p[0], below, q[0]);
      }
    }
  }

  lemma TouchNothing(v: Value)
    ensures TouchPath(v, []) == v
  {
  }

  /** What leads there gets what the rest of the chain adds. */
  lemma AboveReads(v: Value, p: seq<Step>, q: seq<Step>)
    requires q < p
    ensures GetPath(TouchPath(v, p), q) == TouchPath(GetPath(v, q), p[|q|..]) && HasPath(TouchPath(v, p), q)
  {
    hide GetPath, SetPath, HasPath;
    var rest := p[|q|..];
    assert p == q + rest;
    var w := GetPath(v, p);
    PathsCompose(v, q, rest, w);
    GetAfterSet(v, q, SetPath(GetPath(v, q), rest, w));
  }

  /** An assignment through one chain leaves what stands apart as it was, there or not. */
  lemma {:induction false} AgreeApart(v: Value, p: seq<Step>, w: Value, q: seq<Step>)
    requires Agree(p, q) && Apart(p, q)
    ensures GetPath(SetPath(v, p, w), q) == GetPath(v, q)
    ensures HasPath(v, q) ==> HasPath(SetPath(v, p, w), q)
    decreases |p|
  {
    hide Pick, Replace, Present;
    var below := SetPath(Pick(v, p[0]), p[1..], w);
    if p[0] == q[0] {
      ApartBelow(p, q);
      AgreeApart(Pick(v, p[0]), p[1..], w, q[1..]);
      PickReplaced(v, p[0], below);
    } else {
      PickKind(v, p[0], below, q[0]);
    }
  }

  /** If they disagree, one destroys what the other refers to. */
  lemma {:induction false} ClashReads(v: Value, p: seq<Step>, w: Value, q: seq<Step>)
    requires !Agree(p, q)
    ensures GetPath(SetPath(v, p, w), q) == Null && !HasPath(SetPath(v, p, w), q)
    decreases |p|
  {
    hide Pick, Replace, Present;
    var below := SetPath(Pick(v, p[0]), p[1..], w);
    if p[0] == q[0] {
      ClashReads(Pick(v, p[0]), p[1..], w, q[1..]);
      PickReplaced(v, p[0], below);
    } else {
      PickKind(v, p[0], below, q[0]);
      NothingBelowNull(q[1..]);
    }
  }

  /** What a chain refers to when another one has been evaluated too. */
  function ReadPath(v: Value, path: seq<Step>, other: seq<Step>): Value {
    if path < other then TouchPath(GetPath(v, path), other[|path|..]) else GetPath(v, path)
  }

  /** Both chains evaluated, first `p` and then `q`. */
  lemma BothEvaluated(v: Value, p: seq<Step>, q: seq<Step>)
    ensures var u := TouchPath(TouchPath(v, p), q);
            && HasPath(u, q) && (HasPath(u, p) <==> Agree(p, q))
            && (Agree(p, q) ==> GetPath(u, p) == ReadPath(v, p, q) && GetPath(u, q) == ReadPath(v, q, p))
            && (!Agree(p, q) ==> GetPath(u, q) == Null)
  {
    hide Agree, GetPath, HasPath, SetPath;
    var t := TouchPath(v, p);
    GetAfterSet(v, p, GetPath(v, p));
    GetAfterSet(t, q, GetPath(t, q));
    AgreeIsSymmetric(p, q);
    if Agree(p, q) {
      if p < q {
        AboveReads(t, q, p);
        AgreeReads(v, p, q);
      } else if q < p {
        AgreeReads(t, q, p);
        AboveReads(v, p, q);
      } else {
        AgreeReads(t, q, p);
        AgreeReads(v, p, q);
      }
    } else {
      ClashReads(v, p, GetPath(v, p), q);
      ClashReads(t, q, GetPath(t, q), p);
    }
  }

  // In a tree

  ghost function Search(keys: seq<string>, key: string): (r: Option<nat>)
    ensures r.Some? ==> r.value < |keys| && keys[r.value] == key
    ensures r.None? ==> key !in keys
  {
    if i: nat :| i < |keys| && keys[i] == key then Some(i) else None
  }

  /** The position of the child that a step refers to. */
  ghost function Slot(t: Shape, step: Step): (r: Option<nat>)
    ensures r.Some? ==> r.value < |t.children|
  {
    match step
    case Key(k) =>
      if t.form.Keyed? && SortedKeys(t.form.keys) && |t.form.keys| == |t.children| then Search(t.form.keys, k) else None
    case Item(i) => if t.form.Listed? && i < |t.children| then Some(i) else None
  }

  ghost function Child(t: Shape, step: Step): Shape
    requires Slot(t, step).Some?
  {
    t.children[Slot(t, step).value]
  }

  ghost function WithChild(t: Shape, step: Step, x: Shape): Shape
    requires Slot(t, step).Some?
  {
    Shape(t.node, t.form, t.children[Slot(t, step).value := x])
  }

  ghost predicate Reaches(t: Shape, path: seq<Step>)
    decreases |path|
  {
    path == [] || (Slot(t, path[0]).Some? && Reaches(Child(t, path[0]), path[1..]))
  }

  ghost function Sub(t: Shape, path: seq<Step>): Shape
    requires Reaches(t, path)
    decreases |path|
  {
    if path == [] then t else Sub(Child(t, path[0]), path[1..])
  }

  /** The tree with `x` in the place of what the path refers to. */
  ghost function Splice(t: Shape, path: seq<Step>, x: Shape): Shape
    requires Reaches(t, path)
    decreases |path|
  {
    if path == [] then x else WithChild(t, path[0], Splice(Child(t, path[0]), path[1..], x))
  }

  // Values of parts

  lemma SlotOfKey(keys: seq<string>, p: nat)
    requires SortedKeys(keys) && p < |keys|
    ensures Search(keys, keys[p]) == Some(p)
  {
    LessIrreflexive(keys[p]);
  }

  lemma SlotVal(t: Shape, step: Step, x: Shape)
    requires Slot(t, step).Some?
    ensures Present(Val(t), step) && Val(Child(t, step)) == Pick(Val(t), step)
    ensures Val(WithChild(t, step, x)) == Replace(Val(t), step, Val(x))
  {
    hide Val, Vals, Members;
    var p := Slot(t, step).value;
    if step.Key? {
      KeyedVal(t, p, x);
      ValOfKeyed(t);
    } else {
      ListedVal(t, p, x);
      ValOfListed(t);
    }
  }

  lemma KeyedVal(t: Shape, p: nat, x: Shape)
    requires t.form.Keyed? && p < |t.children| == |t.form.keys| && SortedKeys(t.form.keys)
    ensures var ms := Members(t.form.keys, t.children);
            && Find(ms, t.form.keys[p]) == Some(Val(t.children[p]))
            && Val(Shape(t.node, t.form, t.children[p := x])) == Object(Put(ms, t.form.keys[p], Val(x)))
  {
    hide Val;
    var ms := Members(t.form.keys, t.children);
    var c := Shape(t.node, t.form, t.children[p := x]);
    assert Sorted(ms);
    PositionOfKey(ms, p);
    FindAt(ms, t.form.keys[p]);
    PutAt(ms, t.form.keys[p], Val(x));
    assert Members(c.form.keys, c.children) == ms[p := Pair(t.form.keys[p], Val(x))];
    ValOfKeyed(c);
  }

  lemma ListedVal(t: Shape, p: nat, x: Shape)
    requires t.form.Listed? && p < |t.children|
    ensures Val(Shape(t.node, t.form, t.children[p := x])) == Array(Vals(t.children)[p := Val(x)])
  {
    hide Val;
    var c := Shape(t.node, t.form, t.children[p := x]);
    assert Vals(c.children) == Vals(t.children)[p := Val(x)];
    ValOfListed(c);
  }

  lemma {:induction false} SubVal(t: Shape, path: seq<Step>)
    requires Reaches(t, path)
    ensures Val(Sub(t, path)) == GetPath(Val(t), path)
    decreases |path|
  {
    hide Val, Slot, Pick;
    if path != [] {
      SlotVal(t, path[0], t);
      SubVal(Child(t, path[0]), path[1..]);
    }
  }

  lemma {:induction false} SpliceVal(t: Shape, path: seq<Step>, x: Shape)
    requires Reaches(t, path)
    ensures Val(Splice(t, path, x)) == SetPath(Val(t), path, Val(x))
    decreases |path|
  {
    hide Val, Slot, Pick, Replace;
    if path != [] {
      var y := Splice(Child(t, path[0]), path[1..], x);
      SlotVal(t, path[0], y);
      SpliceVal(Child(t, path[0]), path[1..], x);
    }
  }

  /** On the heap a path is there exactly if it is there in the value. */
  lemma SlotIff(t: Shape, step: Step)
    requires HoldsNode(t)
    ensures Slot(t, step).Some? <==> Present(Val(t), step)
  {
    hide Val;
    if Slot(t, step).Some? {
      SlotVal(t, step, t);
    } else if t.form.Keyed? && step.Key? {
      ValOfKeyed(t);
      FindNone(Members(t.form.keys, t.children), step.key);
    } else if t.form.Listed? {
      ValOfListed(t);
    } else {
      SlotlessVal(t);
    }
  }

  lemma SlotlessVal(t: Shape)
    requires HoldsNode(t)
    ensures t.form.Keyed? <==> Val(t).Object?
    ensures t.form.Listed? <==> Val(t).Array?
  {
  }

  /** The values objects hold are ordered. */
  lemma {:induction false} HeldIsOrdered(t: Shape)
    requires Holds(t)
    ensures Ordered(Val(t))
  {
    forall i | 0 <= i < |t.children|
      ensures Ordered(Val(t.children[i]))
    {
      HeldIsOrdered(t.children[i]);
    }
    if t.form.Keyed? {
      ValOfKeyed(t);
      KeysAndEntries(t);
    } else if t.form.Listed? {
      ValOfListed(t);
    }
  }

  lemma {:induction false} ReachesIff(t: Shape, path: seq<Step>)
    requires Holds(t)
    ensures Reaches(t, path) <==> HasPath(Val(t), path)
    decreases |path|
  {
    hide Val, Slot, Pick, HoldsNode;
    if path != [] {
      SlotIff(t, path[0]);
      if Slot(t, path[0]).Some? {
        SlotVal(t, path[0], t);
        ReachesIff(Child(t, path[0]), path[1..]);
      }
    }
  }

  // Ownership of parts

  lemma ChildOwned(t: Shape, step: Step)
    requires Disjoint(t) && Slot(t, step).Some?
    ensures Disjoint(Child(t, step)) && Foot(Child(t, step)) <= Foot(t) && t.node !in Foot(Child(t, step))
    ensures Holds(t) ==> Holds(Child(t, step))
  {
    hide HoldsNode, Slot, Holds;
    var p := Slot(t, step).value;
    if Holds(t) {
      Parts(t);
      Nth(t.children, p);
    }
  }

  lemma {:induction false} SubOwned(t: Shape, path: seq<Step>)
    requires Disjoint(t) && Reaches(t, path)
    ensures Disjoint(Sub(t, path)) && Foot(Sub(t, path)) <= Foot(t) && Sub(t, path).node in Foot(t)
    ensures Holds(t) ==> Owns(Sub(t, path).node, Sub(t, path))
    decreases |path|
  {
    hide Holds, Disjoint, Foot, Slot;
    if path == [] {
      NodeIsOwned(t);
    } else {
      ChildOwned(t, path[0]);
      SubOwned(Child(t, path[0]), path[1..]);
    }
  }

  /** Parts that stand apart share no object, and replacing one leaves the other in place. */
  lemma {:induction false} SubsApart(t: Shape, p: seq<Step>, q: seq<Step>, x: Shape)
    requires Disjoint(t) && Apart(p, q) && Reaches(t, p) && Reaches(t, q)
    ensures Foot(Sub(t, p)) !! Foot(Sub(t, q))
    ensures Reaches(Splice(t, p, x), q) && Sub(Splice(t, p, x), q) == Sub(t, q)
    decreases |p|
  {
    hide Disjoint, Foot;
    ChildOwned(t, p[0]);
    ChildOwned(t, q[0]);
    if p[0] == q[0] {
      ApartBelow(p, q);
      SubsApart(Child(t, p[0]), p[1..], q[1..], x);
    } else {
      SlotsDiffer(t, p[0], q[0]);
      SubOwned(Child(t, p[0]), p[1..]);
      SubOwned(Child(t, q[0]), q[1..]);
    }
  }

  lemma SlotsDiffer(t: Shape, a: Step, b: Step)
    requires Disjoint(t) && a != b && Slot(t, a).Some? && Slot(t, b).Some?
    ensures Slot(t, a) != Slot(t, b) && Foot(Child(t, a)) !! Foot(Child(t, b))
  {
    var i, j := Slot(t, a).value, Slot(t, b).value;
    assert i < j || j < i;
  }

  /** The heap holds the tree `t`, apart perhaps from the nodes `d`. */
  ghost predicate HoldsBut(t: Shape, d: set<JSON>)
    reads Foot(t) - d
  {
    && (t.node in d || HoldsNode(t))
    && HoldsAllBut(t.children, d)
  }

  ghost predicate HoldsAllBut(ts: seq<Shape>, d: set<JSON>)
    reads FootAll(ts) - d
  {
    forall i :: 0 <= i < |ts| ==> HoldsBut(ts[i], d)
  }

  lemma {:induction false} HoldsButLess(t: Shape, d: set<JSON>, e: set<JSON>)
    requires Foot(t) !! e
    ensures HoldsBut(t, d + e) <==> HoldsBut(t, d)
  {
    hide HoldsNode;
    forall i | 0 <= i < |t.children|
      ensures HoldsBut(t.children[i], d + e) <==> HoldsBut(t.children[i], d)
    {
      HoldsButLess(t.children[i], d, e);
    }
  }

  lemma {:induction false} HoldsButNothing(t: Shape)
    ensures HoldsBut(t, {}) <==> Holds(t)
  {
    hide HoldsNode;
    forall i | 0 <= i < |t.children|
      ensures HoldsBut(t.children[i], {}) <==> Holds(t.children[i])
    {
      HoldsButNothing(t.children[i]);
    }
  }

  lemma {:induction false} HoldsButMore(t: Shape, d: set<JSON>)
    requires Holds(t)
    ensures HoldsBut(t, d)
  {
    hide HoldsNode;
    forall i | 0 <= i < |t.children|
      ensures HoldsBut(t.children[i], d)
    {
      HoldsButMore(t.children[i], d);
    }
  }

  /** Whatever was changed in a part, an intact tree in its place repairs the whole. */
  lemma {:induction false} SpliceHolds(t: Shape, path: seq<Step>, x: Shape, d: set<JSON>, e: set<JSON>)
    requires Disjoint(t) && Reaches(t, path) && x.node == Sub(t, path).node
    requires HoldsBut(t, d + e) && e <= Foot(Sub(t, path)) && HoldsBut(x, d)
    ensures HoldsBut(Splice(t, path, x), d) && Splice(t, path, x).node == t.node
    decreases |path|
  {
    hide HoldsNode, Foot, Slot, Disjoint;
    if path != [] {
      var child := Child(t, path[0]);
      ChildOwned(t, path[0]);
      SubOwned(child, path[1..]);
      assert HoldsBut(child, d + e);
      SpliceHolds(child, path[1..], x, d, e);
      ChildHolds(t, path[0], Splice(child, path[1..], x), d, e);
    }
  }

  lemma ChildHolds(t: Shape, step: Step, y: Shape, d: set<JSON>, e: set<JSON>)
    requires Disjoint(t) && Slot(t, step).Some? && e <= Foot(Child(t, step))
    requires HoldsBut(t, d + e) && HoldsBut(y, d) && y.node == Child(t, step).node
    ensures HoldsBut(WithChild(t, step, y), d)
  {
    hide Slot, HoldsAllBut, DisjointAll;
    var p := Slot(t, step).value;
    ChildOwned(t, step);
    ReplaceHolds(t.children, p, y, d, e);
    assert t.node !in d ==> HoldsNode(WithChild(t, step, y));
  }

  lemma ReplaceHolds(ts: seq<Shape>, p: nat, y: Shape, d: set<JSON>, e: set<JSON>)
    requires DisjointAll(ts) && p < |ts| && e <= Foot(ts[p])
    requires HoldsAllBut(ts, d + e) && HoldsBut(y, d)
    ensures HoldsAllBut(ts[p := y], d)
  {
    hide HoldsBut, Foot, Disjoint;
    forall i | 0 <= i < |ts| && i != p
      ensures HoldsBut(ts[i], d)
    {
      assert Foot(ts[i]) !! e by {
        assert i < p ==> Foot(ts[i]) !! Foot(ts[p]);
        assert p < i ==> Foot(ts[p]) !! Foot(ts[i]);
      }
      HoldsButLess(ts[i], d, e);
    }
  }

  /** A tree of new and own nodes in the place of a part: no node is owned twice. */
  lemma {:induction false} SpliceDisjoint(t: Shape, path: seq<Step>, x: Shape)
    requires Disjoint(t) && Reaches(t, path) && Disjoint(x)
    requires Foot(x) * Foot(t) <= Foot(Sub(t, path))
    ensures Disjoint(Splice(t, path, x))
    ensures Foot(Splice(t, path, x)) == Foot(t) - Foot(Sub(t, path)) + Foot(x)
    decreases |path|
  {
    hide Disjoint, Foot, Slot;
    if path == [] {
    } else {
      var child := Child(t, path[0]);
      ChildOwned(t, path[0]);
      SubOwned(child, path[1..]);
      SpliceDisjoint(child, path[1..], x);
      ChildDisjoint(t, path[0], Splice(child, path[1..], x));
      assert Foot(Splice(t, path, x)) == Foot(t) - Foot(Sub(t, path)) + Foot(x);
    }
  }

  lemma ChildDisjoint(t: Shape, step: Step, y: Shape)
    requires Disjoint(t) && Slot(t, step).Some? && Disjoint(y)
    requires Foot(y) * Foot(t) <= Foot(Child(t, step))
    ensures Disjoint(WithChild(t, step, y))
    ensures Foot(WithChild(t, step, y)) == Foot(t) - Foot(Child(t, step)) + Foot(y)
  {
    hide Slot, Foot, FootAll, DisjointAll;
    var p := Slot(t, step).value;
    var c := WithChild(t, step, y);
    AssembleFoot(t);
    AssembleFoot(c);
    TreeOwned(t.children, p);
    ReplaceTree(t.children, p, y);
  }

  lemma TreeOwned(ts: seq<Shape>, p: nat)
    requires p < |ts|
    ensures Foot(ts[p]) <= FootAll(ts)
  {
    hide Foot;
  }

  /** One tree in the place of another, among trees that share nothing. */
  lemma ReplaceTree(ts: seq<Shape>, p: nat, y: Shape)
    requires p < |ts| && DisjointAll(ts) && Disjoint(y) && Foot(y) * FootAll(ts) <= Foot(ts[p])
    ensures DisjointAll(ts[p := y])
    ensures FootAll(ts[p := y]) == FootAll(ts) - Foot(ts[p]) + Foot(y)
  {
    hide Foot, Disjoint;
    var all := ts[p := y];
    forall i, j | 0 <= i < j < |all|
      ensures Foot(all[i]) !! Foot(all[j])
    {
      assert i != p ==> Foot(ts[i]) <= FootAll(ts);
      assert j != p ==> Foot(ts[j]) <= FootAll(ts);
    }
    ReplacedFoot(ts, p, y);
  }

  lemma ReplacedFoot(ts: seq<Shape>, p: nat, y: Shape)
    requires p < |ts| && DisjointAll(ts)
    ensures FootAll(ts[p := y]) == FootAll(ts) - Foot(ts[p]) + Foot(y)
  {
    hide Foot, Disjoint;
    var all := ts[p := y];
    forall i | 0 <= i < |all|
      ensures Foot(all[i]) <= FootAll(ts) - Foot(ts[p]) + Foot(y)
    {
      assert i < p ==> Foot(ts[i]) !! Foot(ts[p]);
      assert p < i ==> Foot(ts[p]) !! Foot(ts[i]);
    }
    forall i | 0 <= i < |ts|
      ensures Foot(ts[i]) <= FootAll(all) + Foot(ts[p])
    {
      assert i != p ==> Foot(all[i]) <= FootAll(all);
    }
    assert Foot(all[p]) <= FootAll(all);
    assert FootAll(all) <= FootAll(ts) - Foot(ts[p]) + Foot(y);
    assert FootAll(ts) <= FootAll(all) + Foot(ts[p]);
  }
}
