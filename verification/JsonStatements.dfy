/** Statements over JSON objects, by what they do to the values: declarations, assignments, moves and
    appends, and what every object reads after them. */
module JsonStatements {
  import opened JsonValue
  import opened JsonHeap
  import opened JsonPaths

  /** A chain of `operator[]` on one of the objects in play. */
  datatype Ref = Ref(root: nat, path: seq<Step>)

  /** C++14 leaves open which operand is evaluated first, and of an append also whether its argument,
      passed by value, is copied before the target is evaluated. */
  datatype Order = TargetFirst | SourceFirst | CopyFirst

  /** One statement. The first three declare an object: by default, as a copy, and by a move. */
  datatype Edit =
    | DeclareNull
    | Declare(source: Ref)
    | DeclareMoved(source: Ref)
    | SetScalar(target: Ref, v: Value)
    | CopyTo(target: Ref, source: Ref, targetFirst: bool)
    | MoveTo(target: Ref, source: Ref, targetFirst: bool)
    | AppendTo(target: Ref, source: Ref, order: Order)

  predicate Declares(e: Edit) {
    e.DeclareNull? || e.Declare? || e.DeclareMoved?
  }

  // Edits on values

  predicate InPlay(vs: seq<Value>, r: Ref) {
    r.root < |vs|
  }

  function GetRef(vs: seq<Value>, r: Ref): Value
    requires InPlay(vs, r)
  {
    GetPath(vs[r.root], r.path)
  }

  function SetRef(vs: seq<Value>, r: Ref, w: Value): (us: seq<Value>)
    requires InPlay(vs, r)
    ensures |us| == |vs|
  {
    vs[r.root := SetPath(vs[r.root], r.path, w)]
  }

  function TouchRef(vs: seq<Value>, r: Ref): (us: seq<Value>)
    requires InPlay(vs, r)
    ensures |us| == |vs|
  {
    SetRef(vs, r, GetRef(vs, r))
  }

  /** Evaluating both operands. */
  function TouchBoth(vs: seq<Value>, target: Ref, source: Ref, targetFirst: bool): (us: seq<Value>)
    requires InPlay(vs, target) && InPlay(vs, source)
    ensures |us| == |vs|
  {
    if targetFirst then TouchRef(TouchRef(vs, target), source) else TouchRef(TouchRef(vs, source), target)
  }

  predicate HasRef(vs: seq<Value>, r: Ref)
    requires InPlay(vs, r)
  {
    HasPath(vs[r.root], r.path)
  }

  predicate RefsApart(r: Ref, s: Ref) {
    r.root != s.root || Apart(r.path, s.path)
  }

  /** Values with nothing on the heap to delete. */
  predicate Plain(v: Value) {
    !v.Object? && !v.Array? && !v.String?
  }

  /** The statement is one whose behaviour C++ defines: no operand's evaluation destroys what the
      other one refers to, and an assignment does not delete what it is about to read. */
  predicate Defined(vs: seq<Value>, e: Edit) {
    match e
    case DeclareNull => true
    case Declare(s) => InPlay(vs, s)
    case DeclareMoved(s) => InPlay(vs, s)
    case SetScalar(t, v) => InPlay(vs, t) && IsPrimitive(v)
    case CopyTo(t, s, first) =>
      && InPlay(vs, t) && InPlay(vs, s)
      && var us := TouchBoth(vs, t, s, first);
         HasRef(us, t) && HasRef(us, s) && (RefsApart(t, s) || Plain(GetRef(us, t)))
    case MoveTo(t, s, first) =>
      && InPlay(vs, t) && InPlay(vs, s)
      && var us := TouchBoth(vs, t, s, first);
         HasRef(us, t) && HasRef(us, s) && (RefsApart(t, s) || (t == s && Plain(GetRef(us, t))))
    case AppendTo(t, s, order) =>
      && InPlay(vs, t) && InPlay(vs, s)
      && var us := TouchBoth(vs, t, s, order.TargetFirst?);
         order.CopyFirst? || (HasRef(us, t) && HasRef(us, s))
  }

  /** What a statement does to the values. */
  function Effect(vs: seq<Value>, e: Edit): (us: seq<Value>)
    requires Defined(vs, e)
    ensures |us| == |vs| + if Declares(e) then 1 else 0
  {
    match e
    case DeclareNull => vs + [Null]
    case Declare(s) => TouchRef(vs, s) + [GetRef(TouchRef(vs, s), s)]
    case DeclareMoved(s) =>
      var us := TouchRef(vs, s);
      SetRef(us, s, Null) + [GetRef(us, s)]
    case SetScalar(t, v) => SetRef(TouchRef(vs, t), t, v)
    case CopyTo(t, s, first) =>
      var us := TouchBoth(vs, t, s, first);
      SetRef(us, t, GetRef(us, s))
    case MoveTo(t, s, first) =>
      var us := TouchBoth(vs, t, s, first);
      if t == s then SetRef(us, s, Null) else SetRef(SetRef(us, s, Null), t, GetRef(us, s))
    case AppendTo(t, s, order) =>
      var us := TouchBoth(vs, t, s, order.TargetFirst?);
      var copied := if order.CopyFirst? then GetRef(TouchRef(vs, s), s) else GetRef(us, s);
      SetRef(us, t, Array(ItemsOf(GetRef(us, t)) + [copied]))
  }

  predicate AllDefined(vs: seq<Value>, edits: seq<Edit>)
    decreases |edits|
  {
    edits == [] || (Defined(vs, edits[0]) && AllDefined(Effect(vs, edits[0]), edits[1..]))
  }

  function EffectAll(vs: seq<Value>, edits: seq<Edit>): seq<Value>
    requires AllDefined(vs, edits)
    decreases |edits|
  {
    if edits == [] then vs else EffectAll(Effect(vs, edits[0]), edits[1..])
  }

  /** Statements between two different objects are always defined, in any order. */
  lemma DifferentObjectsAreDefined(vs: seq<Value>, t: Ref, s: Ref, targetFirst: bool, order: Order)
    requires InPlay(vs, t) && InPlay(vs, s) && t.root != s.root
    ensures Defined(vs, CopyTo(t, s, targetFirst)) && Defined(vs, MoveTo(t, s, targetFirst))
    ensures Defined(vs, AppendTo(t, s, order))
  {
    hide SetPath, HasPath, GetPath, Plain;
    GetAfterSet(vs[t.root], t.path, GetPath(vs[t.root], t.path));
    GetAfterSet(vs[s.root], s.path, GetPath(vs[s.root], s.path));
  }

  /** So is appending an object, wherever it stands, to itself. */
  lemma SelfAppendIsDefined(vs: seq<Value>, t: Ref, order: Order)
    requires InPlay(vs, t)
    ensures Defined(vs, AppendTo(t, t, order))
  {
    hide SetPath, HasPath, GetPath;
    var us := TouchRef(vs, t);
    GetAfterSet(us[t.root], t.path, GetPath(us[t.root], t.path));
  }

  // What every part reads afterwards

  /** Where they part, both references go on with a key or both with an index. */
  predicate RefsAgree(r: Ref, s: Ref) {
    r.root != s.root || Agree(r.path, s.path)
  }

  /** `s` leads through `r` to a part of it. */
  predicate Above(r: Ref, s: Ref) {
    r.root == s.root && r.path < s.path
  }

  /** What `r` refers to when `other` has been evaluated too: what it did before, and what `other`
      adds to it if it leads through it. */
  function ReadRef(vs: seq<Value>, r: Ref, other: Ref): Value
    requires InPlay(vs, r)
  {
    if r.root == other.root then ReadPath(vs[r.root], r.path, other.path) else GetRef(vs, r)
  }

  /** An assignment to `t` does not reach `r`. */
  predicate Unwritten(r: Ref, t: Ref) {
    RefsAgree(r, t) && RefsApart(r, t)
  }

  /** Evaluating `s` adds nothing to `r` and destroys nothing of it. */
  predicate Unextended(r: Ref, s: Ref) {
    RefsAgree(r, s) && !Above(r, s)
  }

  predicate Reads(vs: seq<Value>, r: Ref, w: Value) {
    InPlay(vs, r) && GetRef(vs, r) == w
  }

  ghost predicate Stays(vs: seq<Value>, us: seq<Value>, spared: Ref -> bool) {
    forall r :: InPlay(vs, r) && spared(r) ==> Reads(us, r, GetRef(vs, r))
  }

  /** What a statement leads to, part by part. The order in which the operands are evaluated does not
      show, but in the argument of an append that is copied first. */
  ghost predicate Does(vs: seq<Value>, e: Edit, us: seq<Value>)
    requires Defined(vs, e)
  {
    && |us| == |vs| + (if Declares(e) then 1 else 0)
    && match e
       case DeclareNull => us == vs + [Null]
       case Declare(s) =>
         && us[|vs|] == GetRef(vs, s) && HasRef(us, s)
         && Stays(vs, us, r => Unextended(r, s))
       case DeclareMoved(s) =>
         && us[|vs|] == GetRef(vs, s) && Reads(us, s, Null) && HasRef(us, s)
         && Stays(vs, us, r => Unwritten(r, s))
       case SetScalar(t, v) =>
         && Reads(us, t, v) && HasRef(us, t)
         && Stays(vs, us, r => Unwritten(r, t))
       case CopyTo(t, s, _) =>
         && Reads(us, t, ReadRef(vs, s, t)) && HasRef(us, t)
         && Stays(vs, us, r => Unwritten(r, t) && Unextended(r, s))
       case MoveTo(t, s, _) =>
         && (if t == s then Reads(us, t, Null) else Reads(us, t, GetRef(vs, s)) && Reads(us, s, Null))
         && HasRef(us, t) && Stays(vs, us, r => Unwritten(r, t) && Unwritten(r, s))
       case AppendTo(t, s, order) =>
         var arg := if order.CopyFirst? then GetRef(vs, s) else ReadRef(vs, s, t);
         var was := if RefsAgree(t, s) then ReadRef(vs, t, s) else Null;
         && Reads(us, t, Array(if was.Array? then was.items + [arg] else [arg])) && HasRef(us, t)
         && Stays(vs, us, r => Unwritten(r, t) && Unextended(r, s))
  }

  // The proof

  lemma Touched(vs: seq<Value>, r: Ref, s: Ref)
    requires InPlay(vs, r) && InPlay(vs, s)
    ensures Reads(TouchRef(vs, r), r, GetRef(vs, r)) && HasRef(TouchRef(vs, r), r)
    ensures Unextended(s, r) ==> Reads(TouchRef(vs, r), s, GetRef(vs, s))
    ensures |TouchRef(vs, r)| == |vs|
  {
    hide SetPath, GetPath, HasPath, Agree;
    var v := vs[r.root];
    GetAfterSet(v, r.path, GetPath(v, r.path));
    if Unextended(s, r) && s.root == r.root {
      AgreeIsSymmetric(s.path, r.path);
      AgreeReads(v, r.path, s.path);
    }
  }

  lemma Assigned(vs: seq<Value>, t: Ref, w: Value, s: Ref)
    requires InPlay(vs, t) && InPlay(vs, s)
    ensures Reads(SetRef(vs, t, w), t, w) && HasRef(SetRef(vs, t, w), t)
    ensures Unwritten(s, t) ==>
              && Reads(SetRef(vs, t, w), s, GetRef(vs, s))
              && (HasRef(vs, s) ==> HasRef(SetRef(vs, t, w), s))
  {
    hide SetPath, GetPath, HasPath, Agree;
    GetAfterSet(vs[t.root], t.path, w);
    if Unwritten(s, t) && s.root == t.root {
      AgreeIsSymmetric(s.path, t.path);
      AgreeApart(vs[t.root], t.path, w, s.path);
    }
  }

  lemma Evaluated(vs: seq<Value>, t: Ref, s: Ref, targetFirst: bool)
    requires InPlay(vs, t) && InPlay(vs, s)
    ensures var us := TouchBoth(vs, t, s, targetFirst);
            && (HasRef(us, t) && HasRef(us, s) <==> RefsAgree(t, s))
            && (targetFirst || HasRef(us, t))
            && (RefsAgree(t, s) ==> Reads(us, t, ReadRef(vs, t, s)) && Reads(us, s, ReadRef(vs, s, t)))
            && (!RefsAgree(t, s) && !targetFirst ==> Reads(us, t, Null))
  {
    hide SetPath, GetPath, HasPath, Agree, ReadPath;
    if t.root == s.root {
      AgreeIsSymmetric(t.path, s.path);
      if targetFirst {
        BothEvaluated(vs[t.root], t.path, s.path);
      } else {
        BothEvaluated(vs[t.root], s.path, t.path);
      }
    } else {
      GetAfterSet(vs[t.root], t.path, GetPath(vs[t.root], t.path));
      GetAfterSet(vs[s.root], s.path, GetPath(vs[s.root], s.path));
    }
  }

  lemma EvaluatedOther(vs: seq<Value>, t: Ref, s: Ref, targetFirst: bool, r: Ref)
    requires InPlay(vs, t) && InPlay(vs, s) && InPlay(vs, r) && Unextended(r, t) && Unextended(r, s)
    ensures Reads(TouchBoth(vs, t, s, targetFirst), r, GetRef(vs, r))
  {
    hide TouchRef, GetRef, HasRef, Unextended;
    if targetFirst {
      Touched(vs, t, r);
      Touched(TouchRef(vs, t), s, r);
    } else {
      Touched(vs, s, r);
      Touched(TouchRef(vs, s), t, r);
    }
  }

  lemma DeclareDoes(vs: seq<Value>, e: Edit)
    requires Declares(e) && Defined(vs, e)
    ensures Does(vs, e, Effect(vs, e))
  {
    hide GetRef, HasRef, TouchRef, SetRef, Unextended, Unwritten;
    if !e.DeclareNull? {
      var s := e.source;
      var us := TouchRef(vs, s);
      var ns := SetRef(us, s, Null);
      Touched(vs, s, s);
      Assigned(us, s, Null, s);
      Lengthened(us, GetRef(us, s), s);
      Lengthened(ns, GetRef(us, s), s);
      forall r | InPlay(vs, r) && Unextended(r, s)
        ensures Reads(us + [GetRef(us, s)], r, GetRef(vs, r))
      {
        Touched(vs, s, r);
        Lengthened(us, GetRef(us, s), r);
      }
      forall r | InPlay(vs, r) && Unwritten(r, s)
        ensures Reads(ns + [GetRef(us, s)], r, GetRef(vs, r))
      {
        UnwrittenIsUnextended(r, s);
        Touched(vs, s, r);
        Assigned(us, s, Null, r);
        Lengthened(ns, GetRef(us, s), r);
      }
    }
  }

  lemma Lengthened(vs: seq<Value>, v: Value, r: Ref)
    requires InPlay(vs, r)
    ensures GetRef(vs + [v], r) == GetRef(vs, r) && HasRef(vs + [v], r) == HasRef(vs, r)
  {
  }

  lemma UnwrittenIsUnextended(r: Ref, t: Ref)
    requires Unwritten(r, t)
    ensures Unextended(r, t)
  {
  }

  /** `w` assigned to `t` once both operands are evaluated. */
  lemma AssignedWhenEvaluated(vs: seq<Value>, t: Ref, s: Ref, targetFirst: bool, w: Value)
    requires InPlay(vs, t) && InPlay(vs, s)
    ensures var us := SetRef(TouchBoth(vs, t, s, targetFirst), t, w);
            Reads(us, t, w) && HasRef(us, t) && Stays(vs, us, r => Unwritten(r, t) && Unextended(r, s))
  {
    hide GetRef, HasRef, TouchBoth, SetRef, Unextended, Unwritten;
    var ms := TouchBoth(vs, t, s, targetFirst);
    Assigned(ms, t, w, t);
    forall r | InPlay(vs, r) && Unwritten(r, t) && Unextended(r, s)
      ensures Reads(SetRef(ms, t, w), r, GetRef(vs, r))
    {
      UnwrittenIsUnextended(r, t);
      EvaluatedOther(vs, t, s, targetFirst, r);
      Assigned(ms, t, w, r);
    }
  }

  lemma SetDoes(vs: seq<Value>, e: Edit)
    requires e.SetScalar? && Defined(vs, e)
    ensures Does(vs, e, Effect(vs, e))
  {
    hide GetRef, HasRef, TouchRef, SetRef, Unextended, Unwritten;
    var us := TouchRef(vs, e.target);
    Assigned(us, e.target, e.v, e.target);
    forall r | InPlay(vs, r) && Unwritten(r, e.target)
      ensures Reads(Effect(vs, e), r, GetRef(vs, r))
    {
      UnwrittenIsUnextended(r, e.target);
      Touched(vs, e.target, r);
      Assigned(us, e.target, e.v, r);
    }
  }

  lemma CopyDoes(vs: seq<Value>, e: Edit)
    requires e.CopyTo? && Defined(vs, e)
    ensures Does(vs, e, Effect(vs, e))
  {
    hide GetRef, HasRef, TouchBoth, SetRef, Unextended, Unwritten, ReadRef, RefsAgree, Stays;
    Evaluated(vs, e.target, e.source, e.targetFirst);
    AssignedWhenEvaluated(vs, e.target, e.source, e.targetFirst, ReadRef(vs, e.source, e.target));
  }

  lemma AppendDoes(vs: seq<Value>, e: Edit)
    requires e.AppendTo? && Defined(vs, e)
    ensures Does(vs, e, Effect(vs, e))
  {
    hide GetRef, HasRef, TouchBoth, TouchRef, SetRef, Unextended, Unwritten, ReadRef, RefsAgree, Stays;
    var first := e.order.TargetFirst?;
    var us := TouchBoth(vs, e.target, e.source, first);
    Evaluated(vs, e.target, e.source, first);
    Touched(vs, e.source, e.source);
    var copied := if e.order.CopyFirst? then GetRef(TouchRef(vs, e.source), e.source) else GetRef(us, e.source);
    AssignedWhenEvaluated(vs, e.target, e.source, first, Array(ItemsOf(GetRef(us, e.target)) + [copied]));
    assert [] + [copied] == [copied];
  }

  lemma MoveDoes(vs: seq<Value>, e: Edit)
    requires e.MoveTo? && Defined(vs, e)
    ensures Does(vs, e, Effect(vs, e))
  {
    hide GetRef, HasRef, TouchBoth, SetRef, Unextended, Unwritten, RefsAgree, Plain;
    var t, s := e.target, e.source;
    var us := TouchBoth(vs, t, s, e.targetFirst);
    var ns := SetRef(us, s, Null);
    Evaluated(vs, t, s, e.targetFirst);
    Assigned(us, s, Null, t);
    Assigned(us, s, Null, s);
    if t != s {
      NotAbove(vs, s, t);
      PartsAreUnwritten(t, s);
      Assigned(ns, t, GetRef(us, s), t);
      Assigned(ns, t, GetRef(us, s), s);
    }
    forall r | InPlay(vs, r) && Unwritten(r, t) && Unwritten(r, s)
      ensures Reads(Effect(vs, e), r, GetRef(vs, r))
    {
      UnwrittenIsUnextended(r, t);
      UnwrittenIsUnextended(r, s);
      EvaluatedOther(vs, t, s, e.targetFirst, r);
      Assigned(us, s, Null, r);
      Assigned(ns, t, GetRef(us, s), r);
    }
  }

  lemma NotAbove(vs: seq<Value>, r: Ref, s: Ref)
    requires InPlay(vs, r) && RefsApart(s, r)
    ensures ReadRef(vs, r, s) == GetRef(vs, r)
  {
  }

  lemma PartsAreUnwritten(r: Ref, s: Ref)
    requires RefsAgree(r, s) && RefsApart(r, s)
    ensures Unwritten(r, s) && Unwritten(s, r)
  {
    if r.root == s.root {
      AgreeIsSymmetric(r.path, s.path);
    }
  }

  /** Every statement does what it says. */
  lemma EveryStatementDoes(vs: seq<Value>, e: Edit)
    requires Defined(vs, e)
    ensures Does(vs, e, Effect(vs, e))
  {
    hide Defined, Effect, Does;
    match e
    case DeclareNull => DeclareDoes(vs, e);
    case Declare(_) => DeclareDoes(vs, e);
    case DeclareMoved(_) => DeclareDoes(vs, e);
    case SetScalar(_, _) => SetDoes(vs, e);
    case CopyTo(_, _, _) => CopyDoes(vs, e);
    case MoveTo(_, _, _) => MoveDoes(vs, e);
    case AppendTo(_, _, _) => AppendDoes(vs, e);
  }

  lemma ReadAbove(vs: seq<Value>, t: Ref, s: Ref)
    requires InPlay(vs, t)
    ensures if Above(t, s) then !Plain(ReadRef(vs, t, s)) else ReadRef(vs, t, s) == GetRef(vs, t)
  {
    hide GetPath;
    if Above(t, s) {
      TouchStep(GetRef(vs, t), s.path[|t.path|..]);
    }
  }

  /** Which statements C++ defines, by the operands as they stand before it. */
  lemma DefinedIff(vs: seq<Value>, t: Ref, s: Ref, targetFirst: bool, order: Order)
    requires InPlay(vs, t) && InPlay(vs, s)
    ensures var was := GetRef(vs, t);
            var leaf := was.Null? || was.Boolean? || was.Integral? || was.Floating?;
            && (Defined(vs, CopyTo(t, s, targetFirst))
                <==> RefsAgree(t, s) && (RefsApart(t, s) || (!Above(t, s) && leaf)))
            && (Defined(vs, MoveTo(t, s, targetFirst))
                <==> RefsAgree(t, s) && (RefsApart(t, s) || (t == s && leaf)))
            && (Defined(vs, AppendTo(t, s, order)) <==> order.CopyFirst? || RefsAgree(t, s))
  {
    hide GetRef, HasRef, TouchBoth, ReadRef, RefsAgree;
    Evaluated(vs, t, s, targetFirst);
    Evaluated(vs, t, s, order.TargetFirst?);
    ReadAbove(vs, t, s);
  }

  // Runs

  lemma {:induction false} OneMore(vs: seq<Value>, edits: seq<Edit>, e: Edit)
    requires AllDefined(vs, edits + [e])
    ensures AllDefined(vs, edits) && Defined(EffectAll(vs, edits), e)
    ensures EffectAll(vs, edits + [e]) == Effect(EffectAll(vs, edits), e)
    decreases |edits|
  {
    hide Defined, Effect;
    var all := edits + [e];
    if edits == [] {
      assert all[1..] == [];
    } else {
      assert all[0] == edits[0] && all[1..] == edits[1..] + [e];
      OneMore(Effect(vs, edits[0]), edits[1..], e);
    }
  }

  /** After a run every part reads as its last statement says, from what the run made of the values
      before it. */
  ghost predicate LastDoes(vs: seq<Value>, edits: seq<Edit>, us: seq<Value>)
    requires AllDefined(vs, edits)
  {
    edits != [] ==>
      var front, e := edits[..|edits| - 1], edits[|edits| - 1];
      && AllDefined(vs, front) && Defined(EffectAll(vs, front), e)
      && Does(EffectAll(vs, front), e, us)
  }

  lemma RunDoes(vs: seq<Value>, edits: seq<Edit>)
    requires AllDefined(vs, edits)
    ensures LastDoes(vs, edits, EffectAll(vs, edits))
  {
    hide Defined, Effect, Does;
    if edits == [] {
    } else {
      var front, e := edits[..|edits| - 1], edits[|edits| - 1];
      assert edits == front + [e];
      OneMore(vs, front, e);
      EveryStatementDoes(EffectAll(vs, front), e);
    }
  }
}
