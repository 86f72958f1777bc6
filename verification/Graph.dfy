/** The property graph that the query engine works on.

    PMGD itself is a foreign library; here it is the small interface the engine uses:
    nodes and edges with a tag and typed properties, an ordered scan of the nodes that
    carry a tag and pass one predicate, the edges of a node, and its neighbours. */
module Graph {
  import opened Sequences

  type NodeId = nat
  type Tag = nat            // a string id; 0 stands for "any tag"
  type Key = string

  const ANY_TAG: Tag := 0

  datatype Option<+T> = None | Some(value: T)

  datatype Value =
    | IntV(i: int)
    | BoolV(b: bool)
    | RealV(r: real)
    | StringV(s: string)
    | TimeV(t: int)

  type Properties = map<Key, Value>

  datatype Direction = Any | Outgoing | Incoming

  datatype Edge = Edge(id: nat, src: NodeId, dst: NodeId, tag: Tag, props: Properties)

  datatype Node = Node(tag: Tag, props: Properties)

  /** `order` lists the live nodes in scan order; `next` is the next unused node id. */
  datatype Graph = Graph(order: seq<NodeId>, nodes: map<NodeId, Node>, edges: seq<Edge>, next: NodeId)

  ghost predicate Distinct(xs: seq<NodeId>) {
    forall i, j :: 0 <= i < j < |xs| ==> xs[i] != xs[j]
  }

  ghost predicate WellFormed(g: Graph) {
    && (forall n :: n in g.order <==> n in g.nodes)
    && Distinct(g.order)
    && (forall n :: n in g.order ==> n < g.next)
  }

  function TagOf(g: Graph, n: NodeId): Tag {
    if n in g.nodes then g.nodes[n].tag else ANY_TAG
  }

  function PropsOf(g: Graph, n: NodeId): Properties {
    if n in g.nodes then g.nodes[n].props else map[]
  }

  // ------------------------------------------------------------- predicates

  /** The operators in the numbering shared by the request message and PMGD. */
  datatype Op = DontCare | Eq | Ne | Gt | Ge | Lt | Le | GeLe | GeLt | GtLe | GtLt

  function Code(op: Op): nat {
    match op
    case DontCare => 0 case Eq => 1 case Ne => 2 case Gt => 3 case Ge => 4 case Lt => 5
    case Le => 6 case GeLe => 7 case GeLt => 8 case GtLe => 9 case GtLt => 10
  }

  /** A PMGD property predicate. `Unconditional` is the default-constructed one. */
  datatype Predicate =
    | Unconditional
    | Present(key: Key)
    | Compare(key: Key, op: Op, v: Value)
    | Between(key: Key, op: Op, low: Value, high: Value)

  predicate StringLess(a: string, b: string) {
    if b == [] then false
    else if a == [] then true
    else if a[0] != b[0] then a[0] < b[0]
    else StringLess(a[1..], b[1..])
  }

  /** Strict order inside one property type; values of different types are unordered. */
  predicate Less(a: Value, b: Value) {
    match (a, b)
    case (IntV(x), IntV(y)) => x < y
    case (BoolV(x), BoolV(y)) => !x && y
    case (RealV(x), RealV(y)) => x < y
    case (StringV(x), StringV(y)) => StringLess(x, y)
    case (TimeV(x), TimeV(y)) => x < y
    case _ => false
  }

  predicate AtMost(a: Value, b: Value) { a == b || Less(a, b) }

  /** PMGD's PropertyFilter: does an element with properties `p` pass predicate `q`? */
  predicate Passes(q: Predicate, p: Properties) {
    match q
    case Unconditional => true
    case Present(k) => k in p
    case Compare(k, op, v) =>
      && k in p
      && (match op
          case Eq => p[k] == v
          case Ne => p[k] != v
          case Gt => Less(v, p[k])
          case Ge => AtMost(v, p[k])
          case Lt => Less(p[k], v)
          case Le => AtMost(p[k], v)
          case _ => true)
    case Between(k, op, lo, hi) =>
      && k in p
      && (match op
          case GeLe => AtMost(lo, p[k]) && AtMost(p[k], hi)
          case GeLt => AtMost(lo, p[k]) && Less(p[k], hi)
          case GtLe => Less(lo, p[k]) && AtMost(p[k], hi)
          case GtLt => Less(lo, p[k]) && Less(p[k], hi)
          case _ => true)
  }

  predicate PassesAll(qs: seq<Predicate>, p: Properties) {
    forall i :: 0 <= i < |qs| ==> Passes(qs[i], p)
  }

  // ------------------------------------------------------- filtered listings

  /** What one node has to satisfy: a tag (or any) and a conjunction of predicates. */
  datatype Filter = Filter(tag: Tag, preds: seq<Predicate>)

  predicate Accepts(g: Graph, f: Filter, n: NodeId) {
    (f.tag == ANY_TAG || TagOf(g, n) == f.tag) && PassesAll(f.preds, PropsOf(g, n))
  }

  /** The nodes of `xs` that `f` accepts, in the order of `xs`. */
  function Select(g: Graph, f: Filter, xs: seq<NodeId>): seq<NodeId> {
    if xs == [] then []
    else (if Accepts(g, f, xs[0]) then [xs[0]] else []) + Select(g, f, xs[1..])
  }

  /** PMGD's get_nodes: an ordered scan over one tag and one predicate. */
  function NodesWhere(g: Graph, tag: Tag, q: Predicate): seq<NodeId> {
    Select(g, Filter(tag, [q]), g.order)
  }

  /** The edges of node `n` in direction `dir` with a tag, PMGD's Node::get_edges. */
  predicate Touches(e: Edge, n: NodeId, dir: Direction, tag: Tag) {
    && (tag == ANY_TAG || e.tag == tag)
    && (match dir
        case Outgoing => e.src == n
        case Incoming => e.dst == n
        case Any => e.src == n || e.dst == n)
  }

  function EdgesAt(es: seq<Edge>, n: NodeId, dir: Direction, tag: Tag): (r: seq<Edge>)
    ensures forall e :: e in r <==> e in es && Touches(e, n, dir, tag)
  {
    if es == [] then []
    else (if Touches(es[0], n, dir, tag) then [es[0]] else []) + EdgesAt(es[1..], n, dir, tag)
  }

  function OtherEnds(es: seq<Edge>, n: NodeId, qs: seq<Predicate>): seq<NodeId> {
    if es == [] then []
    else
      (if PassesAll(qs, es[0].props) then [if es[0].src == n then es[0].dst else es[0].src] else [])
      + OtherEnds(es[1..], n, qs)
  }

  /** Keeps the first occurrence of every node. */
  function Dedup(xs: seq<NodeId>): (r: seq<NodeId>)
    ensures forall n :: n in r <==> n in xs
    ensures Distinct(r)
  {
    if xs == [] then []
    else
      var front := Dedup(xs[..|xs| - 1]);
      var last := xs[|xs| - 1];
      assert xs == xs[..|xs| - 1] + [last];
      if last in front then front else front + [last]
  }

  /** PMGD's get_neighbors with `unique`: neighbours over edges passing `qs`, no repeats. */
  function NeighborsOf(g: Graph, n: NodeId, dir: Direction, tag: Tag, qs: seq<Predicate>): seq<NodeId> {
    Dedup(OtherEnds(EdgesAt(g.edges, n, dir, tag), n, qs))
  }

  // ------------------------------------------------------------------ lemmas

  lemma {:induction false} SelectMembers(g: Graph, f: Filter, xs: seq<NodeId>, n: NodeId)
    ensures n in Select(g, f, xs) <==> n in xs && Accepts(g, f, n)
  {
    if xs != [] { SelectMembers(g, f, xs[1..], n); }
  }

  lemma {:induction false} SelectDistinct(g: Graph, f: Filter, xs: seq<NodeId>)
    requires Distinct(xs)
    ensures Distinct(Select(g, f, xs))
  {
    if xs != [] {
      SelectDistinct(g, f, xs[1..]);
      SelectMembers(g, f, xs[1..], xs[0]);
    }
  }

  lemma {:induction false} SelectAppend(g: Graph, f: Filter, xs: seq<NodeId>, ys: seq<NodeId>)
    ensures Select(g, f, xs + ys) == Select(g, f, xs) + Select(g, f, ys)
  {
    if xs == [] {
      assert xs + ys == ys;
    } else {
      assert (xs + ys)[1..] == xs[1..] + ys;
      SelectAppend(g, f, xs[1..], ys);
      ConcatAssociates(if Accepts(g, f, xs[0]) then [xs[0]] else [], Select(g, f, xs[1..]), Select(g, f, ys));
    }
  }

  /** Scanning with the first predicate and filtering the scan with the remaining ones is
      filtering once with all of them. */
  lemma {:induction false} SelectTwice(g: Graph, tag: Tag, q: Predicate, qs: seq<Predicate>, xs: seq<NodeId>)
    ensures Select(g, Filter(ANY_TAG, qs), Select(g, Filter(tag, [q]), xs)) == Select(g, Filter(tag, [q] + qs), xs)
  {
    if xs != [] {
      SelectTwice(g, tag, q, qs, xs[1..]);
      var p := PropsOf(g, xs[0]);
      assert PassesAll([q] + qs, p) <==> Passes(q, p) && PassesAll(qs, p) by {
        assert ([q] + qs)[0] == q;
        assert forall i :: 0 <= i < |qs| ==> ([q] + qs)[i + 1] == qs[i];
        assert forall i :: 1 <= i < |[q] + qs| ==> ([q] + qs)[i] == qs[i - 1];
      }
      assert PassesAll([q], p) <==> Passes(q, p) by { assert [q][0] == q; }
      var head := if Accepts(g, Filter(tag, [q]), xs[0]) then [xs[0]] else [];
      SelectAppend(g, Filter(ANY_TAG, qs), head, Select(g, Filter(tag, [q]), xs[1..]));
    }
  }

  /** A list of nodes filters to the same result in two graphs exactly when no node of the
      list changes its answer. */
  lemma {:induction false} SelectSameIff(g: Graph, h: Graph, f: Filter, xs: seq<NodeId>)
    ensures Select(g, f, xs) == Select(h, f, xs) <==> forall n :: n in xs ==> (Accepts(g, f, n) <==> Accepts(h, f, n))
  {
    if Select(g, f, xs) == Select(h, f, xs) {
      forall n | n in xs ensures Accepts(g, f, n) <==> Accepts(h, f, n) {
        SelectMembers(g, f, xs, n);
        SelectMembers(h, f, xs, n);
      }
    }
    if forall n :: n in xs ==> (Accepts(g, f, n) <==> Accepts(h, f, n)) {
      SelectSame(g, h, f, xs);
    }
  }

  lemma {:induction false} SelectSame(g: Graph, h: Graph, f: Filter, xs: seq<NodeId>)
    requires forall n :: n in xs ==> (Accepts(g, f, n) <==> Accepts(h, f, n))
    ensures Select(g, f, xs) == Select(h, f, xs)
  {
    if xs != [] {
      assert xs[0] in xs;
      SelectSame(g, h, f, xs[1..]);
    }
  }

  // ------------------------------------------------------ neighbours, spelled out

  /** Edge `e` has one of the tags that are asked for and passes every predicate. */
  ghost predicate Fits(e: Edge, tag: Tag, qs: seq<Predicate>) {
    (tag == 0 || e.tag == tag) && forall i :: 0 <= i < |qs| ==> Passes(qs[i], e.props)
  }

  /** Edge `e` leads from `n` to `m`, walked along its direction or against it. */
  predicate Leads(e: Edge, n: NodeId, m: NodeId, dir: Direction) {
    (!dir.Incoming? && e.src == n && e.dst == m) || (!dir.Outgoing? && e.dst == n && e.src == m)
  }

  lemma {:induction false} OtherEndsMembers(es: seq<Edge>, n: NodeId, qs: seq<Predicate>, m: NodeId)
    ensures m in OtherEnds(es, n, qs) <==> exists e :: e in es && PassesAll(qs, e.props) && m == if e.src == n then e.dst else e.src
  {
    if es != [] {
      OtherEndsMembers(es[1..], n, qs, m);
      assert forall e :: e in es <==> e == es[0] || e in es[1..];
    }
  }

  /** Exactly the nodes at the other end of a fitting edge are neighbours, each of them once. */
  lemma NeighborsMembers(g: Graph, n: NodeId, dir: Direction, tag: Tag, qs: seq<Predicate>, m: NodeId)
    ensures m in NeighborsOf(g, n, dir, tag, qs) <==> exists e :: e in g.edges && Fits(e, tag, qs) && Leads(e, n, m, dir)
    ensures forall i, j :: 0 <= i < j < |NeighborsOf(g, n, dir, tag, qs)| ==> NeighborsOf(g, n, dir, tag, qs)[i] != NeighborsOf(g, n, dir, tag, qs)[j]
  {
    OtherEndsMembers(EdgesAt(g.edges, n, dir, tag), n, qs, m);
  }

  lemma {:induction false} EdgesAtAppend(es: seq<Edge>, e: Edge, n: NodeId, dir: Direction, tag: Tag)
    ensures EdgesAt(es + [e], n, dir, tag) == EdgesAt(es, n, dir, tag) + if Touches(e, n, dir, tag) then [e] else []
  {
    if es == [] {
      assert [] + [e] == [e];
    } else {
      assert (es + [e])[1..] == es[1..] + [e];
      EdgesAtAppend(es[1..], e, n, dir, tag);
      ConcatAssociates(if Touches(es[0], n, dir, tag) then [es[0]] else [], EdgesAt(es[1..], n, dir, tag),
                       if Touches(e, n, dir, tag) then [e] else []);
    }
  }

  lemma {:induction false} OtherEndsAppend(es: seq<Edge>, e: Edge, n: NodeId, qs: seq<Predicate>)
    ensures OtherEnds(es + [e], n, qs)
         == OtherEnds(es, n, qs) + if PassesAll(qs, e.props) then [if e.src == n then e.dst else e.src] else []
  {
    if es == [] {
      assert [] + [e] == [e];
    } else {
      assert (es + [e])[1..] == es[1..] + [e];
      OtherEndsAppend(es[1..], e, n, qs);
      ConcatAssociates(OtherEnds([es[0]], n, qs), OtherEnds(es[1..], n, qs), OtherEnds([e], n, qs));
    }
  }

  /** Neighbours come in the order of the edges that lead to them first: one more edge adds its
      other end behind the others, if it fits and the node is not there already. */
  lemma NeighborsGrow(g: Graph, e: Edge, n: NodeId, m: NodeId, dir: Direction, tag: Tag, qs: seq<Predicate>)
    requires Leads(e, n, m, dir)
    ensures NeighborsOf(g.(edges := g.edges + [e]), n, dir, tag, qs)
         == NeighborsOf(g, n, dir, tag, qs) + (if Fits(e, tag, qs) && m !in NeighborsOf(g, n, dir, tag, qs) then [m] else [])
  {
    var at, ends := EdgesAt(g.edges, n, dir, tag), OtherEnds(EdgesAt(g.edges, n, dir, tag), n, qs);
    EdgesAtAppend(g.edges, e, n, dir, tag);
    OtherEndsAppend(at, e, n, qs);
    ConcatEmpty(at);
    ConcatEmpty(ends);
    ConcatEmpty(NeighborsOf(g, n, dir, tag, qs));
    assert (ends + [m])[..|ends|] == ends;
  }
}
