/** `std::map<std::string, V>` as the sequence of its pairs in key order. */
module OrderedMap {
  import opened Chars

  datatype Pair<+V> = Pair(key: string, val: V)

  /** `std::string` comparison. */
  predicate Less(a: string, b: string) {
    if b == [] then false
    else if a == [] then true
    else a[0] < b[0] || (a[0] == b[0] && Less(a[1..], b[1..]))
  }

  ghost predicate Sorted<V>(ms: seq<Pair<V>>) {
    forall i, j :: 0 <= i < j < |ms| ==> Less(ms[i].key, ms[j].key)
  }

  /** `m[k] = v` */
  function Put<V>(ms: seq<Pair<V>>, k: string, v: V): (r: seq<Pair<V>>) {
    if ms == [] || Less(k, ms[0].key) then [Pair(k, v)] + ms
    else if k == ms[0].key then [Pair(k, v)] + ms[1..]
    else [ms[0]] + Put(ms[1..], k, v)
  }

  /** `m.find(k)` */
  function Find<V>(ms: seq<Pair<V>>, k: string): Option<V> {
    if ms == [] then None
    else if ms[0].key == k then Some(ms[0].val)
    else Find(ms[1..], k)
  }

  /** The assignments `m[p.key] = p.val` for every p of `ps`, first to last. */
  function PutAll<V>(ms: seq<Pair<V>>, ps: seq<Pair<V>>): seq<Pair<V>>
    decreases |ps|
  {
    if ps == [] then ms else PutAll(Put(ms, ps[0].key, ps[0].val), ps[1..])
  }

  // The order on keys is a strict total order.

  lemma {:induction false} LessIrreflexive(a: string)
    ensures !Less(a, a)
  {
    if a != [] {
      LessIrreflexive(a[1..]);
    }
  }

  lemma {:induction false} LessTransitive(a: string, b: string, c: string)
    requires Less(a, b) && Less(b, c)
    ensures Less(a, c)
  {
    if a != [] && a[0] == b[0] == c[0] {
      LessTransitive(a[1..], b[1..], c[1..]);
    }
  }

  lemma {:induction false} LessTotal(a: string, b: string)
    ensures Less(a, b) || a == b || Less(b, a)
  {
    if a != [] && b != [] && a[0] == b[0] {
      LessTotal(a[1..], b[1..]);
      assert a == [a[0]] + a[1..] && b == [b[0]] + b[1..];
    }
  }

  /** The first difference decides, by its character; a proper prefix comes first. */
  ghost predicate Precedes(a: string, b: string) {
    a < b || exists k :: 0 <= k < |a| && k < |b| && a[..k] == b[..k] && a[k] < b[k]
  }

  lemma PrecedesBelow(c: char, a: string, b: string)
    ensures Precedes([c] + a, [c] + b) <==> Precedes(a, b)
  {
    var x, y := [c] + a, [c] + b;
    assert x[1..] == a && y[1..] == b;
    if k :| 0 <= k < |x| && k < |y| && x[..k] == y[..k] && x[k] < y[k] {
      assert a[..k - 1] == x[..k][1..] == y[..k][1..] == b[..k - 1];
      assert a[k - 1] < b[k - 1];
    }
    if k :| 0 <= k < |a| && k < |b| && a[..k] == b[..k] && a[k] < b[k] {
      assert x[..k + 1] == [c] + a[..k] && y[..k + 1] == [c] + b[..k];
      assert x[k + 1] < y[k + 1];
    }
  }

  lemma FirstDiffers(a: string, b: string)
    requires a != [] && b != [] && a[0] != b[0]
    ensures Precedes(a, b) <==> a[0] < b[0]
  {
    assert forall k :: 0 < k <= |a| && k <= |b| ==> a[..k][0] == a[0] && b[..k][0] == b[0];
    assert a[..0] == b[..0];
  }

  lemma {:induction false} LessIff(a: string, b: string)
    ensures Less(a, b) <==> Precedes(a, b)
    ensures Less(a, b) <==>
              || a < b
              || exists k :: 0 <= k < |a| && k < |b| && a[..k] == b[..k] && a[k] < b[k]
  {
    if a != [] && b != [] {
      if a[0] == b[0] {
        LessIff(a[1..], b[1..]);
        PrecedesBelow(a[0], a[1..], b[1..]);
        assert a == [a[0]] + a[1..] && b == [b[0]] + b[1..];
      } else {
        FirstDiffers(a, b);
      }
    }
  }

  // Put and Find.

  lemma {:induction false} FindPut<V>(ms: seq<Pair<V>>, k: string, v: V, k': string)
    ensures Find(Put(ms, k, v), k') == if k' == k then Some(v) else Find(ms, k')
  {
    if ms == [] || Less(k, ms[0].key) {
      assert ([Pair(k, v)] + ms)[1..] == ms;
    } else if k == ms[0].key {
      assert ([Pair(k, v)] + ms[1..])[1..] == ms[1..];
    } else {
      FindPut(ms[1..], k, v, k');
      assert ([ms[0]] + Put(ms[1..], k, v))[1..] == Put(ms[1..], k, v);
    }
  }

  lemma {:induction false} PutMembers<V>(ms: seq<Pair<V>>, k: string, v: V)
    ensures forall p :: p in Put(ms, k, v) ==> p == Pair(k, v) || p in ms
  {
    if ms == [] || Less(k, ms[0].key) || k == ms[0].key {
    } else {
      PutMembers(ms[1..], k, v);
    }
  }

  lemma SortedTail<V>(m: Pair<V>, ms: seq<Pair<V>>)
    requires Sorted(ms)
    requires forall p :: p in ms ==> Less(m.key, p.key)
    ensures Sorted([m] + ms)
  {
    var all := [m] + ms;
    forall i, j | 0 <= i < j < |all|
      ensures Less(all[i].key, all[j].key)
    {
      assert all[j] == ms[j - 1];
      if i > 0 {
        assert all[i] == ms[i - 1];
      }
    }
  }

  lemma {:induction false} PutSorted<V>(ms: seq<Pair<V>>, k: string, v: V)
    requires Sorted(ms)
    ensures Sorted(Put(ms, k, v))
  {
    if ms == [] {
    } else if Less(k, ms[0].key) {
      forall p | p in ms
        ensures Less(k, p.key)
      {
        var i :| 0 <= i < |ms| && ms[i] == p;
        if i > 0 {
          LessTransitive(k, ms[0].key, p.key);
        }
      }
      SortedTail(Pair(k, v), ms);
    } else if k == ms[0].key {
      SortedTail(Pair(k, v), ms[1..]);
    } else {
      LessTotal(k, ms[0].key);
      PutSorted(ms[1..], k, v);
      PutMembers(ms[1..], k, v);
      SortedTail(ms[0], Put(ms[1..], k, v));
    }
  }

  lemma {:induction false} FindNone<V>(ms: seq<Pair<V>>, k: string)
    requires forall j :: 0 <= j < |ms| ==> ms[j].key != k
    ensures Find(ms, k) == None
  {
    if ms != [] {
      FindNone(ms[1..], k);
    }
  }

  /** A sorted map has no key below its first one, */
  lemma AbsentBelow<V>(ms: seq<Pair<V>>, k: string)
    requires Sorted(ms) && ms != [] && Less(k, ms[0].key)
    ensures forall p :: p in ms ==> p.key != k
  {
    forall j | 0 <= j < |ms|
      ensures ms[j].key != k
    {
      LessIrreflexive(k);
      if j > 0 {
        LessTransitive(k, ms[0].key, ms[j].key);
      }
    }
  }

  /** and none twice. */
  lemma AbsentInTail<V>(ms: seq<Pair<V>>)
    requires Sorted(ms) && ms != []
    ensures forall p :: p in ms[1..] ==> p.key != ms[0].key
  {
    forall j | 0 <= j < |ms[1..]|
      ensures ms[1..][j].key != ms[0].key
    {
      LessIrreflexive(ms[0].key);
      assert ms[1..][j] == ms[j + 1];
      assert Less(ms[0].key, ms[j + 1].key);
    }
  }

  lemma FindBelow<V>(ms: seq<Pair<V>>, k: string)
    requires Sorted(ms) && ms != [] && Less(k, ms[0].key)
    ensures Find(ms, k) == None
  {
    AbsentBelow(ms, k);
    FindNone(ms, k);
  }

  lemma FindInTail<V>(ms: seq<Pair<V>>, k: string)
    requires Sorted(ms) && ms != []
    ensures Find(ms[1..], k) == if k == ms[0].key then None else Find(ms, k)
  {
    if k == ms[0].key {
      AbsentInTail(ms);
      FindNone(ms[1..], k);
    }
  }

  /** A lookup finds the pair of that key, if there is one. */
  lemma {:induction false} FindIsMember<V>(ms: seq<Pair<V>>, k: string)
    requires Sorted(ms)
    ensures forall p :: p in ms && p.key == k ==> Find(ms, k) == Some(p.val)
    ensures Find(ms, k).Some? <==> exists p :: p in ms && p.key == k
  {
    hide Less;
    if ms != [] {
      if ms[0].key == k {
        AbsentInTail(ms);
        assert ms[0] in ms;
      } else {
        FindIsMember(ms[1..], k);
      }
      assert ms == [ms[0]] + ms[1..];
    }
  }

  /** After `m[k] = v` the pairs are the ones before, but for the one of that key. */
  lemma {:induction false} PutIsMember<V>(ms: seq<Pair<V>>, k: string, v: V)
    requires Sorted(ms)
    ensures forall p :: p in Put(ms, k, v) <==> p == Pair(k, v) || (p in ms && p.key != k)
  {
    hide Less;
    if ms == [] {
    } else if Less(k, ms[0].key) {
      AbsentBelow(ms, k);
    } else if k == ms[0].key {
      AbsentInTail(ms);
      assert ms == [ms[0]] + ms[1..];
    } else {
      PutIsMember(ms[1..], k, v);
      assert ms == [ms[0]] + ms[1..];
    }
  }

  /** Two maps that answer every lookup alike are the same sequence of pairs. */
  lemma {:induction false} Extensional<V>(a: seq<Pair<V>>, b: seq<Pair<V>>)
    requires Sorted(a) && Sorted(b)
    requires forall k :: Find(a, k) == Find(b, k)
    ensures a == b
  {
    if a == [] || b == [] {
      assert a != [] ==> Find(a, a[0].key) == Find(b, a[0].key);
      assert b != [] ==> Find(a, b[0].key) == Find(b, b[0].key);
    } else {
      var x, y := a[0].key, b[0].key;
      assert Find(a, x) == Some(a[0].val) && Find(b, y) == Some(b[0].val);
      LessTotal(x, y);
      if Less(x, y) {
        FindBelow(b, x);
      } else if Less(y, x) {
        FindBelow(a, y);
      }
      assert a[0] == b[0];
      forall k
        ensures Find(a[1..], k) == Find(b[1..], k)
      {
        FindInTail(a, k);
        FindInTail(b, k);
        assert Find(a, k) == Find(b, k);
      }
      Extensional(a[1..], b[1..]);
      assert a == [a[0]] + a[1..] && b == [b[0]] + b[1..];
    }
  }

  // Folding assignments into a map.

  lemma {:induction false} PutAllSorted<V>(ms: seq<Pair<V>>, ps: seq<Pair<V>>)
    requires Sorted(ms)
    ensures Sorted(PutAll(ms, ps))
    decreases |ps|
  {
    if ps != [] {
      PutSorted(ms, ps[0].key, ps[0].val);
      PutAllSorted(Put(ms, ps[0].key, ps[0].val), ps[1..]);
    }
  }

  /** A key nobody assigned keeps what the map held before. */
  lemma {:induction false} PutAllKeeps<V>(ms: seq<Pair<V>>, ps: seq<Pair<V>>, k: string)
    requires forall j :: 0 <= j < |ps| ==> ps[j].key != k
    ensures Find(PutAll(ms, ps), k) == Find(ms, k)
    decreases |ps|
  {
    if ps != [] {
      FindPut(ms, ps[0].key, ps[0].val, k);
      PutAllKeeps(Put(ms, ps[0].key, ps[0].val), ps[1..], k);
    }
  }

  /** The last assignment to a key wins. */
  lemma {:induction false} LastAssignmentWins<V>(ms: seq<Pair<V>>, ps: seq<Pair<V>>, i: nat)
    requires i < |ps|
    requires forall j :: i < j < |ps| ==> ps[j].key != ps[i].key
    ensures Find(PutAll(ms, ps), ps[i].key) == Some(ps[i].val)
    decreases |ps|
  {
    var ms' := Put(ms, ps[0].key, ps[0].val);
    if i == 0 {
      forall j | 0 <= j < |ps[1..]|
        ensures ps[1..][j].key != ps[0].key
      {
        assert ps[1..][j] == ps[j + 1];
      }
      PutAllKeeps(ms', ps[1..], ps[0].key);
      FindPut(ms, ps[0].key, ps[0].val, ps[0].key);
    } else {
      assert ps[1..][i - 1] == ps[i];
      LastAssignmentWins(ms', ps[1..], i - 1);
    }
  }

  ghost predicate DistinctKeys<V>(ps: seq<Pair<V>>) {
    forall i, j :: 0 <= i < j < |ps| ==> ps[i].key != ps[j].key
  }

  lemma FindDistinct<V>(ps: seq<Pair<V>>, p: Pair<V>)
    requires DistinctKeys(ps) && p in ps
    ensures Find(PutAll([], ps), p.key) == Some(p.val)
  {
    var i :| 0 <= i < |ps| && ps[i] == p;
    LastAssignmentWins([], ps, i);
  }

  lemma FindAbsent<V>(ps: seq<Pair<V>>, k: string)
    requires forall p :: p in ps ==> p.key != k
    ensures Find(PutAll([], ps), k) == None
  {
    PutAllKeeps([], ps, k);
  }

  /** With distinct keys the order of the assignments does not matter. */
  lemma OrderOfAssignmentsIsIrrelevant<V>(ps: seq<Pair<V>>, qs: seq<Pair<V>>)
    requires multiset(ps) == multiset(qs)
    requires DistinctKeys(ps) && DistinctKeys(qs)
    ensures PutAll([], ps) == PutAll([], qs)
  {
    forall p
      ensures p in ps <==> p in qs
    {
      assert p in ps <==> p in multiset(ps);
      assert p in qs <==> p in multiset(qs);
    }
    forall k
      ensures Find(PutAll([], ps), k) == Find(PutAll([], qs), k)
    {
      if p :| p in ps && p.key == k {
        FindDistinct(ps, p);
        FindDistinct(qs, p);
      } else {
        FindAbsent(ps, k);
        FindAbsent(qs, k);
      }
    }
    PutAllSorted([], ps);
    PutAllSorted([], qs);
    Extensional(PutAll([], ps), PutAll([], qs));
  }

  lemma {:induction false} PutLast<V>(ms: seq<Pair<V>>, k: string, v: V)
    requires Sorted(ms + [Pair(k, v)])
    ensures Put(ms, k, v) == ms + [Pair(k, v)]
  {
    if ms != [] {
      var all := ms + [Pair(k, v)];
      assert Less(all[0].key, all[|ms|].key);
      LessIrreflexive(k);
      if Less(k, ms[0].key) {
        LessTransitive(k, ms[0].key, k);
      }
      assert all[1..] == ms[1..] + [Pair(k, v)];
      PutLast(ms[1..], k, v);
      assert ms == [ms[0]] + ms[1..];
    }
  }

  /** Assigning the pairs of a map in key order rebuilds the map. */
  lemma {:induction false} PutAllInOrder<V>(ms: seq<Pair<V>>, ps: seq<Pair<V>>)
    requires Sorted(ms + ps)
    ensures PutAll(ms, ps) == ms + ps
    decreases |ps|
  {
    if ps != [] {
      var p := ps[0];
      assert ms + [p] == (ms + ps)[..|ms| + 1];
      assert Pair(p.key, p.val) == p;
      PutLast(ms, p.key, p.val);
      assert (ms + [p]) + ps[1..] == ms + ps;
      PutAllInOrder(ms + [p], ps[1..]);
    }
  }

  // Put and Find by position

  /** `std::map::lower_bound` */
  function Position<V>(ms: seq<Pair<V>>, k: string): (p: nat)
    ensures p <= |ms|
  {
    if ms == [] || Less(k, ms[0].key) || k == ms[0].key then 0 else 1 + Position(ms[1..], k)
  }

  predicate HasKeyAt<V>(ms: seq<Pair<V>>, p: nat, k: string) {
    p < |ms| && ms[p].key == k
  }

  lemma {:induction false} PutAt<V>(ms: seq<Pair<V>>, k: string, v: V)
    ensures var p := Position(ms, k);
            Put(ms, k, v) == if HasKeyAt(ms, p, k) then ms[p := Pair(k, v)] else InsertAt(ms, p, Pair(k, v))
  {
    hide Less, InsertAt;
    LessIrreflexive(k);
    if ms == [] || Less(k, ms[0].key) {
      InsertedFirst(ms, Pair(k, v));
    } else if k == ms[0].key {
      assert ms[0 := Pair(k, v)] == [Pair(k, v)] + ms[1..];
    } else {
      PutAt(ms[1..], k, v);
      PutBehind(ms, Position(ms[1..], k), Pair(k, v));
    }
  }

  lemma InsertedFirst<T>(s: seq<T>, x: T)
    ensures InsertAt(s, 0, x) == [x] + s
  {
  }

  lemma PutBehind<T>(s: seq<T>, p: nat, x: T)
    requires s != [] && p < |s|
    ensures p < |s[1..]| ==> s[p + 1 := x] == [s[0]] + s[1..][p := x]
    ensures InsertAt(s, p + 1, x) == [s[0]] + InsertAt(s[1..], p, x)
  {
  }

  lemma {:induction false} FindAt<V>(ms: seq<Pair<V>>, k: string)
    requires Sorted(ms)
    ensures var p := Position(ms, k);
            Find(ms, k) == if HasKeyAt(ms, p, k) then Some(ms[p].val) else None
  {
    if ms != [] {
      LessIrreflexive(k);
      if Less(k, ms[0].key) {
        FindBelow(ms, k);
      } else if k != ms[0].key {
        FindAt(ms[1..], k);
      }
    }
  }

  /** Only the keys matter for the position. */
  lemma {:induction false} PositionByKeys<V, W>(ms: seq<Pair<V>>, ns: seq<Pair<W>>, k: string)
    requires |ms| == |ns| && forall i :: 0 <= i < |ms| ==> ms[i].key == ns[i].key
    ensures Position(ms, k) == Position(ns, k)
  {
    if ms != [] {
      PositionByKeys(ms[1..], ns[1..], k);
    }
  }

  lemma {:induction false} PositionOfKey<V>(ms: seq<Pair<V>>, p: nat)
    requires Sorted(ms) && p < |ms|
    ensures Position(ms, ms[p].key) == p
  {
    if p > 0 {
      var k := ms[p].key;
      assert Less(ms[0].key, k);
      LessIrreflexive(k);
      if Less(k, ms[0].key) {
        LessTransitive(k, ms[0].key, k);
      }
      assert ms[1..][p - 1] == ms[p];
      PositionOfKey(ms[1..], p - 1);
    }
  }
}
