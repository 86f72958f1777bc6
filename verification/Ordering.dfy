/** Sorting query results by one property. */
module Ordering {
  import opened Graph

  function Kind(v: Value): nat {
    match v case IntV(_) => 0 case BoolV(_) => 1 case RealV(_) => 2 case StringV(_) => 3 case TimeV(_) => 4
  }

  datatype SortKey = SortKey(key: Key, descending: bool)

  predicate Keyed(g: Graph, k: SortKey, kind: nat, n: NodeId) {
    k.key in PropsOf(g, n) && Kind(PropsOf(g, n)[k.key]) == kind
  }

  predicate AllKeyed(g: Graph, k: SortKey, kind: nat, xs: seq<NodeId>) {
    forall n :: n in xs ==> Keyed(g, k, kind, n)
  }

  /** Comparing a missing property, or properties of different types, raises an exception;
      a list of at most one node is never compared. */
  predicate Sortable(g: Graph, k: SortKey, xs: seq<NodeId>) {
    |xs| <= 1 || (k.key in PropsOf(g, xs[0]) && AllKeyed(g, k, Kind(PropsOf(g, xs[0])[k.key]), xs))
  }

  predicate Before(g: Graph, k: SortKey, a: NodeId, b: NodeId) {
    && k.key in PropsOf(g, a)
    && k.key in PropsOf(g, b)
    && var x, y := PropsOf(g, a)[k.key], PropsOf(g, b)[k.key];
       if k.descending then Less(y, x) else Less(x, y)
  }

  function Insert(g: Graph, k: SortKey, n: NodeId, xs: seq<NodeId>): (r: seq<NodeId>)
    ensures multiset(r) == multiset{n} + multiset(xs)
    ensures forall m :: m in r <==> m == n || m in xs
  {
    if xs == [] then [n]
    else if !Before(g, k, xs[0], n) then [n] + xs
    else
      assert xs == [xs[0]] + xs[1..];
      [xs[0]] + Insert(g, k, n, xs[1..])
  }

  /** The stable sort of a list of nodes. */
  function Sorted(g: Graph, k: SortKey, xs: seq<NodeId>): (r: seq<NodeId>)
    ensures multiset(r) == multiset(xs)
    ensures forall m :: m in r <==> m in xs
  {
    if xs == [] then []
    else
      assert xs == [xs[0]] + xs[1..];
      Insert(g, k, xs[0], Sorted(g, k, xs[1..]))
  }

  ghost predicate InOrder(g: Graph, k: SortKey, xs: seq<NodeId>) {
    forall i, j :: 0 <= i < j < |xs| ==> !Before(g, k, xs[j], xs[i])
  }

  lemma {:induction false} StringTotal(a: string, b: string)
    ensures a == b || StringLess(a, b) || StringLess(b, a)
    ensures !(StringLess(a, b) && StringLess(b, a))
  {
    if a != [] && b != [] && a[0] == b[0] {
      StringTotal(a[1..], b[1..]);
      assert a == [a[0]] + a[1..] && b == [b[0]] + b[1..];
    }
  }

  lemma {:induction false} StringTransitive(a: string, b: string, c: string)
    requires StringLess(a, b) && StringLess(b, c)
    ensures StringLess(a, c)
  {
    if a != [] && a[0] == b[0] == c[0] {
      StringTransitive(a[1..], b[1..], c[1..]);
    }
  }

  /** Among values of one type "not before" is transitive, and "before" is asymmetric. */
  lemma LessWeak(x: Value, y: Value, z: Value)
    requires Kind(x) == Kind(y) == Kind(z)
    ensures !(Less(x, y) && Less(y, x))
    ensures !Less(y, x) && !Less(z, y) ==> !Less(z, x)
  {
    if x.StringV? {
      StringTotal(x.s, y.s);
      StringTotal(y.s, z.s);
      StringTotal(x.s, z.s);
      if StringLess(x.s, y.s) && StringLess(y.s, z.s) { StringTransitive(x.s, y.s, z.s); }
    }
  }

  lemma BeforeWeak(g: Graph, k: SortKey, kind: nat, a: NodeId, b: NodeId, c: NodeId)
    requires Keyed(g, k, kind, a) && Keyed(g, k, kind, b) && Keyed(g, k, kind, c)
    ensures !(Before(g, k, a, b) && Before(g, k, b, a))
    ensures !Before(g, k, b, a) && !Before(g, k, c, b) ==> !Before(g, k, c, a)
  {
    var x, y, z := PropsOf(g, a)[k.key], PropsOf(g, b)[k.key], PropsOf(g, c)[k.key];
    LessWeak(x, y, z);
    LessWeak(z, y, x);
  }

  lemma {:induction false} InsertInOrder(g: Graph, k: SortKey, kind: nat, n: NodeId, xs: seq<NodeId>)
    requires Keyed(g, k, kind, n) && AllKeyed(g, k, kind, xs) && InOrder(g, k, xs)
    ensures InOrder(g, k, Insert(g, k, n, xs))
  {
    if xs != [] {
      if !Before(g, k, xs[0], n) {
        forall j | 0 <= j < |xs| ensures !Before(g, k, xs[j], n) {
          BeforeWeak(g, k, kind, n, xs[0], xs[j]);
        }
      } else {
        var t := Insert(g, k, n, xs[1..]);
        assert InOrder(g, k, xs[1..]);
        InsertInOrder(g, k, kind, n, xs[1..]);
        forall m | m in t ensures !Before(g, k, m, xs[0]) {
          BeforeWeak(g, k, kind, xs[0], n, n);
          assert m == n || exists j :: 1 <= j < |xs| && m == xs[j];
        }
      }
    }
  }

  /** The sorted list is in order. */
  lemma {:induction false} SortedInOrder(g: Graph, k: SortKey, kind: nat, xs: seq<NodeId>)
    requires AllKeyed(g, k, kind, xs)
    ensures InOrder(g, k, Sorted(g, k, xs))
  {
    if xs != [] {
      SortedInOrder(g, k, kind, xs[1..]);
      InsertInOrder(g, k, kind, xs[0], Sorted(g, k, xs[1..]));
    }
  }

  /** The nodes whose sort property has value `v`. */
  function WithValue(k: SortKey, v: Value): Filter {
    Filter(ANY_TAG, [Compare(k.key, Eq, v)])
  }

  lemma SelectCons(g: Graph, f: Filter, n: NodeId, xs: seq<NodeId>)
    ensures Select(g, f, [n] + xs) == (if Accepts(g, f, n) then [n] else []) + Select(g, f, xs)
  {
    assert ([n] + xs)[1..] == xs;
  }

  lemma {:induction false} InsertStable(g: Graph, k: SortKey, n: NodeId, xs: seq<NodeId>, v: Value)
    ensures Select(g, WithValue(k, v), Insert(g, k, n, xs)) == Select(g, WithValue(k, v), [n] + xs)
  {
    var f := WithValue(k, v);
    if xs != [] && Before(g, k, xs[0], n) {
      var t := Insert(g, k, n, xs[1..]);
      InsertStable(g, k, n, xs[1..], v);
      SelectCons(g, f, xs[0], t);
      SelectCons(g, f, n, xs[1..]);
      SelectCons(g, f, n, xs);
      DifferentValues(g, k, xs[0], n, v);
      Swap(if Accepts(g, f, xs[0]) then [xs[0]] else [], if Accepts(g, f, n) then [n] else [], Select(g, f, xs[1..]));
    } else {
      assert Insert(g, k, n, xs) == [n] + xs;
    }
  }

  lemma Swap(a: seq<NodeId>, b: seq<NodeId>, c: seq<NodeId>)
    requires a == [] || b == []
    ensures a + (b + c) == b + (a + c)
  {
  }

  lemma DifferentValues(g: Graph, k: SortKey, m: NodeId, n: NodeId, v: Value)
    requires Before(g, k, m, n)
    ensures !(Accepts(g, WithValue(k, v), m) && Accepts(g, WithValue(k, v), n))
  {
    assert WithValue(k, v).preds[0] == Compare(k.key, Eq, v);
    LessIrreflexive(PropsOf(g, n)[k.key]);
  }

  lemma LessIrreflexive(v: Value)
    ensures !Less(v, v)
  {
    LessWeak(v, v, v);
  }

  /** Nodes with equal sort values keep their order. */
  lemma {:induction false} SortedStable(g: Graph, k: SortKey, xs: seq<NodeId>, v: Value)
    ensures Select(g, WithValue(k, v), Sorted(g, k, xs)) == Select(g, WithValue(k, v), xs)
  {
    if xs != [] {
      SortedStable(g, k, xs[1..], v);
      InsertStable(g, k, xs[0], Sorted(g, k, xs[1..]), v);
      SelectCons(g, WithValue(k, v), xs[0], Sorted(g, k, xs[1..]));
    }
  }

  // ------------------------------------------------ the order on the stored values

  /** Lexicographic order, spelled out: a common prefix and then the end of `a` or a smaller
      character. */
  ghost predicate Lexicographic(a: string, b: string) {
    exists i :: SplitsAt(a, b, i)
  }

  predicate SplitsAt(a: string, b: string, i: int) {
    0 <= i <= |a| && i < |b| && a[..i] == b[..i] && (i == |a| || a[i] < b[i])
  }

  lemma SameStart(a: string, b: string, i: nat)
    requires i <= |a| && i <= |b| && a[..i] == b[..i]
    ensures i > 0 ==> a[0] == b[0]
  {
    if i > 0 { assert a[..i][0] == b[..i][0]; }
  }

  lemma {:induction false} StringLessIs(a: string, b: string)
    ensures StringLess(a, b) <==> Lexicographic(a, b)
  {
    if a != [] && b != [] && a[0] == b[0] {
      StringLessIs(a[1..], b[1..]);
      if Lexicographic(a[1..], b[1..]) {
        var i :| SplitsAt(a[1..], b[1..], i);
        assert a[..i + 1] == [a[0]] + a[1..][..i] && b[..i + 1] == [b[0]] + b[1..][..i];
        assert SplitsAt(a, b, i + 1);
      }
      if Lexicographic(a, b) {
        var i :| SplitsAt(a, b, i);
        assert i > 0;
        assert a[1..][..i - 1] == a[..i][1..] && b[1..][..i - 1] == b[..i][1..];
        assert SplitsAt(a[1..], b[1..], i - 1);
      }
    } else if b != [] && (a == [] || a[0] < b[0]) {
      assert SplitsAt(a, b, 0);
    } else if Lexicographic(a, b) {
      var i :| SplitsAt(a, b, i);
      SameStart(a, b, i);
    }
  }

  /** Node `n` stores value `v` under the sort key. */
  predicate Stores(g: Graph, k: SortKey, n: NodeId, v: Value) {
    n in g.nodes && k.key in g.nodes[n].props && g.nodes[n].props[k.key] == v
  }

  /** Sorting raises no exception exactly if there is nothing to compare, or every node stores a
      value and all values are of one type. */
  lemma SortableIff(g: Graph, k: SortKey, xs: seq<NodeId>)
    ensures Sortable(g, k, xs) <==>
            |xs| <= 1 ||
            (forall n :: n in xs ==> exists i :: Stores(g, k, n, IntV(i))) ||
            (forall n :: n in xs ==> exists b :: Stores(g, k, n, BoolV(b))) ||
            (forall n :: n in xs ==> exists r :: Stores(g, k, n, RealV(r))) ||
            (forall n :: n in xs ==> exists s :: Stores(g, k, n, StringV(s))) ||
            (forall n :: n in xs ==> exists t :: Stores(g, k, n, TimeV(t)))
  {
    if |xs| > 1 {
      assert xs[0] in xs;
      forall n: NodeId
        ensures Keyed(g, k, 0, n) <==> exists i :: Stores(g, k, n, IntV(i))
        ensures Keyed(g, k, 1, n) <==> exists b :: Stores(g, k, n, BoolV(b))
        ensures Keyed(g, k, 2, n) <==> exists r :: Stores(g, k, n, RealV(r))
        ensures Keyed(g, k, 3, n) <==> exists s :: Stores(g, k, n, StringV(s))
        ensures Keyed(g, k, 4, n) <==> exists t :: Stores(g, k, n, TimeV(t))
      {
        KeyedMeans(g, k, n);
      }
    }
  }

  lemma KeyedMeans(g: Graph, k: SortKey, n: NodeId)
    ensures Keyed(g, k, 0, n) <==> exists i :: Stores(g, k, n, IntV(i))
    ensures Keyed(g, k, 1, n) <==> exists b :: Stores(g, k, n, BoolV(b))
    ensures Keyed(g, k, 2, n) <==> exists r :: Stores(g, k, n, RealV(r))
    ensures Keyed(g, k, 3, n) <==> exists s :: Stores(g, k, n, StringV(s))
    ensures Keyed(g, k, 4, n) <==> exists t :: Stores(g, k, n, TimeV(t))
  {
    if k.key in PropsOf(g, n) {
      assert Stores(g, k, n, PropsOf(g, n)[k.key]);
    }
  }

  /** The sorted list read off the stored values: of two places in it, the first stores the
      smaller value or an equal one, the larger one if descending. */
  lemma SortedByValue(g: Graph, k: SortKey, xs: seq<NodeId>, i: nat, j: nat, x: Value, y: Value)
    requires Sortable(g, k, xs)
    requires i < j < |Sorted(g, k, xs)|
    requires Stores(g, k, Sorted(g, k, xs)[i], x) && Stores(g, k, Sorted(g, k, xs)[j], y)
    ensures multiset(Sorted(g, k, xs)) == multiset(xs)
    ensures x.IntV? ==> y.IntV? && if k.descending then x.i >= y.i else x.i <= y.i
    ensures x.RealV? ==> y.RealV? && if k.descending then x.r >= y.r else x.r <= y.r
    ensures x.TimeV? ==> y.TimeV? && if k.descending then x.t >= y.t else x.t <= y.t
    ensures x.BoolV? ==> y.BoolV? && if k.descending then y.b ==> x.b else x.b ==> y.b
    ensures x.StringV? ==> y.StringV? && (x.s == y.s || if k.descending then Lexicographic(y.s, x.s) else Lexicographic(x.s, y.s))
  {
    var r := Sorted(g, k, xs);
    assert |multiset(r)| == |multiset(xs)|;
    SortedInOrder(g, k, Kind(PropsOf(g, xs[0])[k.key]), xs);
    assert r[i] in xs && r[j] in xs;
    assert !Before(g, k, r[j], r[i]);
    if x.StringV? && y.StringV? {
      StringTotal(x.s, y.s);
      StringLessIs(x.s, y.s);
      StringLessIs(y.s, x.s);
    }
  }
}
