/** The engine's commands inside one transaction: they share the cached cursors and the graph. */
module Engine {
  import opened Sequences
  import opened Graph
  import opened Ordering
  import opened Cursors
  import opened NodeQueries
  import opened EdgeSearch

  // -------------------------------------------------------- graph updates

  function WithNode(g: Graph, tag: Tag, props: Properties): Graph {
    g.(order := g.order + [g.next], nodes := g.nodes[g.next := Node(tag, props)], next := g.next + 1)
  }

  /** Sets and removes properties of one node. */
  function WithProps(g: Graph, n: NodeId, set_: Properties, removed: set<Key>): Graph {
    if n in g.nodes then g.(nodes := g.nodes[n := g.nodes[n].(props := (g.nodes[n].props + set_) - removed)]) else g
  }

  /** Does so for the first `n` nodes of a list. */
  function WithPropsAll(g: Graph, xs: seq<NodeId>, n: nat, set_: Properties, removed: set<Key>): Graph
    requires n <= |xs|
  {
    if n == 0 then g else WithProps(WithPropsAll(g, xs, n - 1, set_, removed), xs[n - 1], set_, removed)
  }

  /** Updating a list of nodes changes the properties of exactly those nodes, and each as if
      it were updated once. */
  lemma {:induction false} WithPropsAllAt(g: Graph, xs: seq<NodeId>, n: nat, set_: Properties, removed: set<Key>, m: NodeId)
    requires n <= |xs|
    ensures var h := WithPropsAll(g, xs, n, set_, removed);
            && h.order == g.order && h.nodes.Keys == g.nodes.Keys && h.edges == g.edges && h.next == g.next
            && (m in g.nodes ==> h.nodes[m].tag == g.nodes[m].tag
                                 && h.nodes[m].props == if m in xs[..n] then (g.nodes[m].props + set_) - removed else g.nodes[m].props)
  {
    if n > 0 {
      WithPropsAllAt(g, xs, n - 1, set_, removed, m);
      PrefixStep(xs, n - 1);
      if m in g.nodes {
        assert (((g.nodes[m].props + set_) - removed) + set_) - removed == (g.nodes[m].props + set_) - removed;
      }
    }
  }

  lemma {:induction false} PropsKeepSelection(g: Graph, n: NodeId, set_: Properties, removed: set<Key>, f: Filter, xs: seq<NodeId>, i: nat)
    requires forall j :: i <= j < |xs| ==> xs[j] != n
    ensures SelectFrom(WithProps(g, n, set_, removed), f, xs, i) == SelectFrom(g, f, xs, i)
    decreases |xs| - i
  {
    if i < |xs| {
      PropsKeepSelection(g, n, set_, removed, f, xs, i + 1);
    }
  }

  /** Updating a node that a cursor has already yielded does not change the cursor. */
  lemma PropsKeepDenotes(c: Cursor, i: nat, g: Graph, set_: Properties, removed: set<Key>)
    requires c.Settled() && i < |c.traversed|
    ensures c.Denotes(WithProps(g, c.traversed[i], set_, removed)) == c.Denotes(g)
  {
    if c.source.Search? {
      var s := c.source.s;
      PropsKeepSelection(g, c.traversed[i], set_, removed, s.Remaining(), s.candidates, s.pos + 1);
    }
  }

  /** Does an update of the nodes `xs` leave alone how the open candidates of a view answer? */
  predicate Unaffected(g: Graph, l: Lazy, xs: seq<NodeId>, set_: Properties, removed: set<Key>) {
    forall n :: n in l.open && n in xs && n in g.nodes && (l.filter.tag == ANY_TAG || TagOf(g, n) == l.filter.tag) ==>
      (PassesAll(l.filter.preds, PropsOf(g, n)) <==> PassesAll(l.filter.preds, (PropsOf(g, n) + set_) - removed))
  }

  /** A view means the same before and after an update exactly when the update leaves its open
      candidates alone. */
  lemma MeaningSameIff(g: Graph, l: Lazy, xs: seq<NodeId>, set_: Properties, removed: set<Key>)
    ensures Meaning(g, l) == Meaning(WithPropsAll(g, xs, |xs|, set_, removed), l) <==> Unaffected(g, l, xs, set_, removed)
  {
    var h := WithPropsAll(g, xs, |xs|, set_, removed);
    PrefixAll(xs);
    PrefixCancels(l.sure, Select(g, l.filter, l.open), Select(h, l.filter, l.open));
    SelectSameIff(g, h, l.filter, l.open);
    forall n | n in l.open
      ensures TagOf(h, n) == TagOf(g, n)
      ensures PropsOf(h, n) == if n in xs && n in g.nodes then (PropsOf(g, n) + set_) - removed else PropsOf(g, n)
    {
      WithPropsAllAt(g, xs, |xs|, set_, removed, n);
    }
  }

  /** A search that follows an addition finds what it found before and, last, the new node, if
      the tag and the properties it was given answer the search; no old node changes. */
  lemma AddedIsFound(g: Graph, tag: Tag, props: Properties, e: Expression)
    requires WellFormed(g)
    ensures var h := WithNode(g, tag, props);
            && g.next !in g.nodes && h.nodes.Keys == g.nodes.Keys + {g.next} && h.edges == g.edges
            && h.nodes[g.next].tag == tag && h.nodes[g.next].props == props
            && (forall n :: n in g.nodes ==> h.nodes[n] == g.nodes[n])
            && Found(h, e) == Found(g, e) +
                 (if (e.tag == 0 || e.tag == tag) && (forall i :: 0 <= i < |e.preds| ==> Passes(e.preds[i], props)) then [g.next] else [])
  {
    var h := WithNode(g, tag, props);
    var f := Filter(e.tag, e.preds);
    forall n | n in g.order
      ensures n in g.nodes && n != g.next && h.nodes[n] == g.nodes[n]
      ensures Accepts(g, f, n) <==> Accepts(h, f, n)
    {
    }
    SelectAppend(h, f, g.order, [g.next]);
    SelectSame(g, h, f, g.order);
    SelectOne(h, f, g.next);
  }

  lemma SelectOne(g: Graph, f: Filter, n: NodeId)
    ensures Select(g, f, [n]) == if Accepts(g, f, n) then [n] else []
  {
    assert [n][1..] == [];
  }

  // ------------------------------------------------- conditional additions

  /** The query sent along with a conditional addition. */
  function AddQuery(id: int, tag: Tag, preds: seq<Predicate>): NodeQuery {
    NodeQuery(id, None, tag, preds, true, ResultInfo(NodeID, None, 0))
  }

  /** The nodes that meet the constraints of an addition. */
  function Matches(g: Graph, tag: Tag, constraints: Option<seq<Predicate>>): seq<NodeId> {
    if constraints.Some? then Found(g, Expression(tag, constraints.value, [])) else []
  }

  /** Exactly the nodes with the tag that pass every constraint match. */
  lemma MatchesMembers(g: Graph, tag: Tag, cs: seq<Predicate>, n: NodeId)
    requires WellFormed(g)
    ensures n in Matches(g, tag, Some(cs)) <==>
            && n in g.nodes && (tag == 0 || g.nodes[n].tag == tag)
            && forall i :: 0 <= i < |cs| ==> Passes(cs[i], g.nodes[n].props)
  {
    SelectMembers(g, Filter(tag, cs), g.order, n);
  }

  datatype AddPlan = Refuse | Insert | Reuse | Ambiguous

  /** What an addition does. Without a reference an empty match counts as a match, so that a
      conditional addition never adds. */
  function Plan(g: Graph, taken: set<int>, id: int, tag: Tag, constraints: Option<seq<Predicate>>): AddPlan {
    if id >= 0 && id in taken then Refuse
    else if constraints == None then Insert
    else if |Matches(g, tag, constraints)| > 1 then Ambiguous
    else if |Matches(g, tag, constraints)| == 1 || id < 0 then Reuse
    else Insert
  }

  lemma AddReply(g: Graph, taken: set<int>, id: int, tag: Tag, constraints: Option<seq<Predicate>>)
    requires constraints.Some? && !(id >= 0 && id in taken)
    ensures var q := AddQuery(id, tag, constraints.value);
            var xs := Matches(g, tag, constraints);
            var r := ReplyTo(g, q, xs);
            && Answer(g, q, []) == xs
            && (match Plan(g, taken, id, tag, constraints)
                case Insert => r.code == Empty && !Caches(g, q, xs)
                case Reuse => r.code == Success && r.kind == NodeID && Arranged(g, q, xs) == xs && (Caches(g, q, xs) <==> id >= 0)
                case Ambiguous => r.code == NotUnique && !Caches(g, q, xs)
                case Refuse => true)
  {
  }

  // -------------------------------------------------------- edge products

  /** Edges from `x` to the first `n` nodes of `ys`, numbered from `base`. */
  function Row(x: NodeId, ys: seq<NodeId>, n: nat, tag: Tag, props: Properties, base: nat): seq<Edge>
    requires n <= |ys|
  {
    if n == 0 then []
    else Row(x, ys, n - 1, tag, props, base) + [Edge(base + n - 1, x, ys[n - 1], tag, props)]
  }

  /** Edges from the first `n` nodes of `xs` to every node of `ys`, row by row. */
  function Product(xs: seq<NodeId>, n: nat, ys: seq<NodeId>, tag: Tag, props: Properties, base: nat): seq<Edge>
    requires n <= |xs|
  {
    if n == 0 then []
    else
      var rows := Product(xs, n - 1, ys, tag, props, base);
      rows + Row(xs[n - 1], ys, |ys|, tag, props, base + |rows|)
  }

  function WithEdges(g: Graph, es: seq<Edge>): Graph {
    g.(edges := g.edges + es)
  }

  /** One more row on top of the first `n`. */
  lemma ProductStep(g: Graph, xs: seq<NodeId>, n: nat, ys: seq<NodeId>, tag: Tag, props: Properties)
    requires n < |xs|
    ensures var made := Product(xs, n, ys, tag, props, |g.edges|);
            var row := Row(xs[n], ys, |ys|, tag, props, |WithEdges(g, made).edges|);
            && Product(xs, n + 1, ys, tag, props, |g.edges|) == made + row
            && WithEdges(WithEdges(g, made), row) == WithEdges(g, made + row)
  {
    var made := Product(xs, n, ys, tag, props, |g.edges|);
    var row := Row(xs[n], ys, |ys|, tag, props, |g.edges| + |made|);
    assert Product(xs, n + 1, ys, tag, props, |g.edges|) == made + row;
    ConcatAssociates(g.edges, made, row);
  }

  lemma {:induction false} RowAt(x: NodeId, ys: seq<NodeId>, n: nat, tag: Tag, props: Properties, base: nat, j: nat)
    requires n <= |ys|
    ensures |Row(x, ys, n, tag, props, base)| == n
    ensures j < n ==> Row(x, ys, n, tag, props, base)[j] == Edge(base + j, x, ys[j], tag, props)
  {
    if n > 0 {
      RowAt(x, ys, n - 1, tag, props, base, j);
    }
  }

  /** The product has one edge per pair, and the pair `(i, j)` sits at position `i * |ys| + j`. */
  lemma {:induction false} ProductAt(xs: seq<NodeId>, n: nat, ys: seq<NodeId>, tag: Tag, props: Properties, base: nat, i: nat, j: nat)
    requires n <= |xs|
    ensures |Product(xs, n, ys, tag, props, base)| == n * |ys|
    ensures i < n && j < |ys| ==>
              && i * |ys| + j < n * |ys|
              && Product(xs, n, ys, tag, props, base)[i * |ys| + j] == Edge(base + i * |ys| + j, xs[i], ys[j], tag, props)
  {
    if n > 0 {
      ProductAt(xs, n - 1, ys, tag, props, base, i, j);
      RowAt(xs[n - 1], ys, |ys|, tag, props, base + (n - 1) * |ys|, j);
      assert n * |ys| == (n - 1) * |ys| + |ys|;
    }
  }

  lemma ProductNonempty(xs: seq<NodeId>, n: nat, ys: seq<NodeId>, tag: Tag, props: Properties, base: nat)
    requires 0 < n <= |xs| && ys != []
    ensures Product(xs, n, ys, tag, props, base) != []
  {
    RowAt(xs[n - 1], ys, |ys|, tag, props, base + |Product(xs, n - 1, ys, tag, props, base)|, 0);
  }

  /** Adding edges changes no cursor. */
  lemma {:induction false} EdgesKeepSelection(g: Graph, es: seq<Edge>, f: Filter, xs: seq<NodeId>, i: nat)
    ensures SelectFrom(WithEdges(g, es), f, xs, i) == SelectFrom(g, f, xs, i)
    decreases |xs| - i
  {
    if i < |xs| {
      EdgesKeepSelection(g, es, f, xs, i + 1);
    }
  }

  lemma EdgesKeepDenotes(c: Cursor, g: Graph, es: seq<Edge>)
    requires c.Settled()
    ensures c.Denotes(WithEdges(g, es)) == c.Denotes(g)
  {
    if c.source.Search? {
      var s := c.source.s;
      EdgesKeepSelection(g, es, s.Remaining(), s.candidates, s.pos + 1);
    }
  }

  // --------------------------------------------------------- edge queries

  datatype EdgeQuery = EdgeQuery(id: int, src: int, dst: int, tag: Tag, preds: seq<Predicate>, unique: bool, kind: ResultKind, limit: nat)

  datatype EdgeReply = EdgeReply(code: Code, kind: ResultKind, listed: seq<Edge>, number: nat)

  function EdgeSummary(kind: ResultKind, limit: nat, es: seq<Edge>): EdgeReply {
    match kind
    case List => EdgeReply(Success, List, TakeEdges(es, limit), |TakeEdges(es, limit)|)
    case Count => EdgeReply(Success, Count, [], |es|)
    case NodeID => EdgeReply(Success, NodeID, [], if es == [] then 0 else es[|es| - 1].id)
    case _ => EdgeReply(Error, kind, [], 0)
  }

  /** The reply to an edge query whose iterator yields `es`. */
  function EdgeReplyTo(q: EdgeQuery, es: seq<Edge>): EdgeReply {
    if es == [] && q.id >= 0 then EdgeReply(Empty, Cached, [], 0)
    else if q.unique && |es| > 1 then EdgeReply(NotUnique, q.kind, [], 0)
    else if q.kind == Cached && (q.id >= 0 || q.unique) then EdgeReply(Success, Cached, [], 0)
    else EdgeSummary(q.kind, q.limit, es)
  }

  /** What a reply tells of the edges `es`, as for nodes; an identifier is that of the last edge. */
  ghost predicate EdgeTells(q: EdgeQuery, es: seq<Edge>, r: EdgeReply) {
    && (r.code == Empty <==> |es| == 0 && q.id >= 0)
    && (r.code == NotUnique <==> |es| > 1 && q.unique)
    && r.code != Raised
    && (r.code !in {Empty, NotUnique} ==>
          && r.kind == q.kind
          && (r.code == Success <==> r.kind in {List, Count, NodeID} || (r.kind == Cached && (q.id >= 0 || q.unique)))
          && (r.kind == Count ==> r.number == |es|)
          && (r.kind == NodeID && |es| > 0 ==> r.number == es[|es| - 1].id)
          && (r.kind == List ==>
                && r.number == |r.listed| && r.listed <= es
                && |r.listed| == if q.limit == 0 || |es| < q.limit then |es| else q.limit))
  }

  lemma EdgeReplyTells(q: EdgeQuery, es: seq<Edge>)
    ensures EdgeTells(q, es, EdgeReplyTo(q, es))
  {
  }

  // ---------------------------------------------------------------- references

  /** Does a query clash with the references that are taken, or ask for what is not supported? */
  predicate Refuses(taken: set<int>, q: NodeQuery) {
    (q.id >= 0 && q.id in taken) || (q.link.Some? && (q.link.value.unique || q.link.value.start !in taken))
  }

  /** Does a query walk away from this reference? */
  predicate StartsFrom(q: NodeQuery, i: int) { q.link.Some? && q.link.value.start == i }

  /** Does an update run its query? Only if its reference is not cached. */
  predicate Asks(taken: set<int>, id: int, query: Option<NodeQuery>) {
    !(id >= 0 && id in taken) && query.Some? && !Refuses(taken, query.value)
  }

  /** The nodes that an update reaches, if it reaches any: its reference's, which denotes `own`,
      else those of its query, whose answer is `xs`, if the result is cached. */
  function TargetsOf(g: Graph, taken: set<int>, id: int, query: Option<NodeQuery>, own: seq<NodeId>, xs: seq<NodeId>): Option<seq<NodeId>> {
    if id >= 0 && id in taken then Some(own)
    else if Asks(taken, id, query) && query.value.id >= 0 && ReplyTo(g, query.value, xs).code == Success then
      Some(Arranged(g, query.value, xs))
    else None
  }

  function TargetId(taken: set<int>, id: int, query: Option<NodeQuery>): int {
    if (id >= 0 && id in taken) || query == None then id else query.value.id
  }

  /** The references under which an update's query leaves a cursor. */
  function PublishedBy(g: Graph, taken: set<int>, id: int, query: Option<NodeQuery>, xs: seq<NodeId>): set<int> {
    if Asks(taken, id, query) && Caches(g, query.value, xs) then {query.value.id} else {}
  }

  predicate RaisedBy(g: Graph, taken: set<int>, id: int, query: Option<NodeQuery>, xs: seq<NodeId>) {
    Asks(taken, id, query) && ReplyTo(g, query.value, xs).code == Raised
  }

  /** Will a cached cursor denote after an update of `xs` what it denotes before? It will if it
      is the one whose nodes are updated, if the update's query drains it first, or if its open
      candidates answer alike. */
  predicate Spares(g: Graph, taken: set<int>, i: int, l: Lazy, id: int, query: Option<NodeQuery>, xs: seq<NodeId>, set_: Properties, removed: set<Key>) {
    || (id >= 0 && i == id)
    || (Asks(taken, id, query) && StartsFrom(query.value, i))
    || Unaffected(g, l, xs, set_, removed)
  }

  lemma ArrangedNonempty(g: Graph, q: NodeQuery, xs: seq<NodeId>)
    requires xs != []
    ensures Arranged(g, q, xs) != []
  {
    assert multiset(xs) != multiset{} by { assert xs[0] in multiset(xs); }
  }

  class QueryHandler {
    var g: Graph
    var nodes: map<int, Cursor>
    var edges: map<int, seq<Edge>>

    ghost function Footprint(): set<object>
      reads this`nodes, nodes.Values
    {
      set c, o | c in nodes.Values && o in c.repr :: o
    }

    /** Every cached cursor is settled, stands at its first element and shares nothing with
        another one. */
    ghost predicate Valid()
      reads this`g, this`nodes, nodes.Values, Footprint()
    {
      && WellFormed(g)
      && (forall i :: i in nodes ==> Parked(nodes[i]) && this !in nodes[i].repr)
      && (forall i, j :: i in nodes && j in nodes && i != j ==> nodes[i].repr !! nodes[j].repr)
    }

    ghost predicate Parked(c: Cursor)
      reads this`g, c, c.repr
    {
      c.Settled() && c.it == 0 && c.At() && Known(c)
    }

    /** The candidates of an open search are nodes of the graph. */
    ghost predicate Known(c: Cursor)
      reads this`g, c, c.repr
    {
      c.source.Search? ==> forall n :: n in c.source.s.candidates ==> n < g.next
    }

    ghost predicate Refused(q: NodeQuery)
      reads this`nodes
    {
      Refuses(nodes.Keys, q)
    }

    ghost function AnswerHere(q: NodeQuery): seq<NodeId>
      requires Valid() && !Refused(q)
      reads this`g, this`nodes, nodes.Values, Footprint()
    {
      Answer(g, q, if q.link.Some? then nodes[q.link.value.start].Denotes(g) else [])
    }

    /** What a reference denotes, if it is cached. */
    ghost function Own(i: int): seq<NodeId>
      requires Valid()
      reads this`g, this`nodes, nodes.Values, Footprint()
    {
      if i in nodes then nodes[i].Denotes(g) else []
    }

    /** The answer of the query of an update, if it is run. */
    ghost function Asked(id: int, query: Option<NodeQuery>): seq<NodeId>
      requires Valid()
      reads this`g, this`nodes, nodes.Values, Footprint()
    {
      if Asks(nodes.Keys, id, query) then AnswerHere(query.value) else []
    }

    ghost function Targets(id: int, query: Option<NodeQuery>): Option<seq<NodeId>>
      requires Valid()
      reads this`g, this`nodes, nodes.Values, Footprint()
    {
      TargetsOf(g, nodes.Keys, id, query, Own(id), Asked(id, query))
    }

    ghost function Published(id: int, query: Option<NodeQuery>): set<int>
      requires Valid()
      reads this`g, this`nodes, nodes.Values, Footprint()
    {
      PublishedBy(g, nodes.Keys, id, query, Asked(id, query))
    }

    /** Does an update leave alone what a reference with this view denotes? */
    ghost predicate SparedBy(i: int, l: Lazy, id: int, query: Option<NodeQuery>, set_: Properties, removed: set<Key>)
      requires Valid()
      reads this`g, this`nodes, nodes.Values, Footprint()
    {
      Targets(id, query).Some? ==> Spares(g, nodes.Keys, i, l, id, query, Targets(id, query).value, set_, removed)
    }

    constructor (graph: Graph)
      requires WellFormed(graph)
      ensures Valid() && g == graph && nodes == map[] && edges == map[] && fresh(Footprint())
    {
      g, nodes, edges := graph, map[], map[];
    }

    /** Runs a query that walks away from a cached cursor. */
    method Follow(q: NodeQuery) returns (reply: Reply, kept: Cursor?)
      requires Valid() && q.link.Some? && !Refused(q)
      modifies nodes[q.link.value.start].repr
      ensures Footprint() == old(Footprint())
      ensures reply.code != Raised ==> Valid()
      ensures reply.code != Raised ==> forall i :: i in nodes ==> nodes[i].Denotes(g) == old(nodes[i].Denotes(g))
      ensures forall i :: i in nodes ==> nodes[i].repr == old(nodes[i].repr)
      ensures reply == ReplyTo(g, q, old(AnswerHere(q)))
      ensures kept != null <==> Caches(g, q, old(AnswerHere(q)))
      ensures kept != null ==> fresh(kept.repr) && Parked(kept) && kept.Denotes(g) == Arranged(g, q, old(AnswerHere(q)))
      ensures reply.code != Raised ==> forall i :: i in nodes && !StartsFrom(q, i) ==> nodes[i].View() == old(nodes[i].View())
      ensures kept != null && reply.code != Raised ==> nodes[q.link.value.start].View().open == []
    {
      var s := nodes[q.link.value.start];
      reply, kept := RunLinked(g, q, s);
      assert s.Denotes(g) != [] && (reply.code != Raised ==> s.At());
      forall i | i in nodes
        ensures nodes[i].repr == old(nodes[i].repr)
        ensures nodes[i].Settled() && nodes[i].Denotes(g) == old(nodes[i].Denotes(g))
        ensures nodes[i] != s ==> nodes[i].it == 0 && Known(nodes[i]) && nodes[i].View() == old(nodes[i].View())
      {
        if i != q.link.value.start {
          assert nodes[i].repr !! old(s.repr);
        }
      }
    }

    /** Runs a query over the whole graph. */
    method Look(q: NodeQuery) returns (reply: Reply, kept: Cursor?)
      requires Valid() && q.link == None
      ensures Valid()
      ensures reply == ReplyTo(g, q, Answer(g, q, []))
      ensures kept != null <==> Caches(g, q, Answer(g, q, []))
      ensures kept != null ==> fresh(kept.repr) && Parked(kept) && kept.Denotes(g) == Arranged(g, q, Answer(g, q, []))
      ensures kept != null && Lazily(q) ==> kept.View() == NewlyOpened(g, ExpressionOf(q))
    {
      reply, kept := RunUnlinked(g, q);
      if kept != null {
        ArrangedNonempty(g, q, Answer(g, q, []));
        assert Known(kept);
      }
    }

    /** Runs a query, linked or not. */
    method Resolve(q: NodeQuery) returns (reply: Reply, kept: Cursor?)
      requires Valid() && !Refused(q)
      modifies Footprint()
      ensures Footprint() == old(Footprint()) && nodes == old(nodes) && g == old(g) && edges == old(edges)
      ensures reply.code != Raised ==> Valid()
      ensures reply.code != Raised ==> forall i :: i in nodes ==> nodes[i].Denotes(g) == old(nodes[i].Denotes(g))
      ensures reply == ReplyTo(g, q, old(AnswerHere(q)))
      ensures kept != null <==> Caches(g, q, old(AnswerHere(q)))
      ensures kept != null ==> fresh(kept.repr) && Parked(kept) && kept.Denotes(g) == Arranged(g, q, old(AnswerHere(q)))
      ensures reply.code != Raised ==> forall i :: i in nodes && !StartsFrom(q, i) ==> nodes[i].View() == old(nodes[i].View())
      ensures kept != null && reply.code != Raised && q.link.Some? ==> nodes[q.link.value.start].View().open == []
      ensures kept != null && Lazily(q) ==> kept.View() == NewlyOpened(g, ExpressionOf(q))
    {
      if q.link.Some? {
        reply, kept := Follow(q);
      } else {
        reply, kept := Look(q);
      }
    }

    /** Adds a parked cursor of its own to the cache. */
    method Publish(id: int, c: Cursor)
      requires Valid() && id !in nodes && Parked(c) && this !in c.repr && c.repr !! Footprint()
      modifies this`nodes
      ensures Valid() && nodes == old(nodes)[id := c] && Footprint() <= old(Footprint()) + c.repr
      ensures forall i :: i in old(nodes) ==> nodes[i].Denotes(g) == old(nodes[i].Denotes(g)) && nodes[i].View() == old(nodes[i].View())
    {
      nodes := nodes[id := c];
    }

    /** A query that is not refused: its cursor, if it leaves one, is cached. */
    method ResolveAndPublish(q: NodeQuery) returns (reply: Reply)
      requires Valid() && !Refused(q)
      modifies this`nodes, Footprint()
      ensures g == old(g) && edges == old(edges) && fresh(Footprint() - old(Footprint()))
      ensures reply.code != Raised ==> Valid()
      ensures forall i :: i in old(nodes) ==> i in nodes && nodes[i] == old(nodes[i])
      ensures reply.code != Raised ==> forall i :: i in old(nodes) ==> nodes[i].Denotes(g) == old(nodes[i].Denotes(g))
      ensures reply == ReplyTo(g, q, old(AnswerHere(q)))
      ensures nodes.Keys == old(nodes.Keys) + (if Caches(g, q, old(AnswerHere(q))) then {q.id} else {})
      ensures Caches(g, q, old(AnswerHere(q))) ==>
                && reply.code != Raised && nodes[q.id].Denotes(g) == Arranged(g, q, old(AnswerHere(q)))
                && (Lazily(q) ==> nodes[q.id].View() == NewlyOpened(g, ExpressionOf(q)))
                && (q.link.Some? ==> nodes[q.link.value.start].View().open == [])
      ensures reply.code != Raised ==>
                forall i :: i in old(nodes) && !StartsFrom(q, i) ==> nodes[i].View() == old(nodes[i].View())
    {
      var kept;
      reply, kept := Resolve(q);
      if kept != null {
        Publish(q.id, kept);
      }
    }

    method QueryNode(q: NodeQuery) returns (ret: int, reply: Reply)
      requires Valid()
      modifies this`nodes, Footprint()
      ensures g == old(g) && edges == old(edges) && fresh(Footprint() - old(Footprint()))
      ensures reply.code != Raised ==> Valid()
      ensures forall i :: i in old(nodes) ==> i in nodes && nodes[i] == old(nodes[i])
      ensures reply.code != Raised ==> forall i :: i in old(nodes) ==> nodes[i].Denotes(g) == old(nodes[i].Denotes(g))
      ensures old(Refused(q)) ==> ret == -1 && reply == Reply(Error, Cached, [], 0) && nodes == old(nodes)
      ensures !old(Refused(q)) ==>
                var xs := old(AnswerHere(q));
                && reply == ReplyTo(g, q, xs)
                && ret == (if reply.code in {Empty, NotUnique, Raised} then -1 else 0)
                && nodes.Keys == old(nodes.Keys) + (if Caches(g, q, xs) then {q.id} else {})
                && (Caches(g, q, xs) ==> reply.code != Raised && nodes[q.id].Denotes(g) == Arranged(g, q, xs))
                && (Caches(g, q, xs) && Lazily(q) ==> nodes[q.id].View() == NewlyOpened(g, ExpressionOf(q)))
                && (Caches(g, q, xs) && q.link.Some? ==> nodes[q.link.value.start].View().open == [])
      ensures !old(Refused(q)) ==> Tells(g, q, old(AnswerHere(q)), reply)
      ensures reply.code != Raised ==>
                forall i :: i in old(nodes) && !StartsFrom(q, i) ==> nodes[i].View() == old(nodes[i].View())
    {
      if q.id >= 0 && q.id in nodes {
        return -1, Reply(Error, Cached, [], 0);
      }
      if q.link.Some? && (q.link.value.unique || q.link.value.start !in nodes) {
        return -1, Reply(Error, Cached, [], 0);
      }
      ReplyTells(g, q, AnswerHere(q));
      reply := ResolveAndPublish(q);
      ret := if reply.code in {Empty, NotUnique, Raised} then -1 else 0;
    }

    /** Creates a node; no cached cursor changes. */
    method NewNode(tag: Tag, props: Properties) returns (n: NodeId)
      requires Valid()
      modifies this`g
      ensures Valid() && n == old(g).next && g == WithNode(old(g), tag, props)
      ensures forall i :: i in nodes ==> nodes[i].Denotes(g) == old(nodes[i].Denotes(g))
    {
      n := g.next;
      ghost var before := g;
      g := WithNode(g, tag, props);
      WithNodeWellFormed(before, tag, props);
      forall i | i in nodes ensures Parked(nodes[i]) && nodes[i].Denotes(g) == nodes[i].Denotes(before) {
        assert Known(nodes[i]);
        AddKeepsDenotes(nodes[i], before, tag, props);
      }
    }

    /** Creates a node and, under a non-negative reference, a cursor over it. */
    method Create(id: int, tag: Tag, props: Properties) returns (n: NodeId)
      requires Valid() && (id >= 0 ==> id !in nodes)
      modifies this`g, this`nodes
      ensures fresh(Footprint() - old(Footprint()))
      ensures Valid() && n == old(g).next && g == WithNode(old(g), tag, props)
      ensures forall i :: i in old(nodes) ==> i in nodes && nodes[i] == old(nodes[i])
      ensures forall i :: i in old(nodes) ==> nodes[i].Denotes(g) == old(nodes[i].Denotes(g))
      ensures nodes.Keys == old(nodes.Keys) + (if id >= 0 then {id} else {})
      ensures id >= 0 ==> nodes[id].Denotes(g) == [n]
    {
      n := NewNode(tag, props);
      if id >= 0 {
        var c := new Cursor.Single(n);
        Publish(id, c);
      }
    }

    /** Adds a node, unless constraints are given and the query made of them finds one. */
    method AddNode(id: int, tag: Tag, props: Properties, constraints: Option<seq<Predicate>>) returns (ret: int, reply: Reply)
      requires Valid()
      modifies this`g, this`nodes, Footprint()
      ensures Valid() && edges == old(edges) && fresh(Footprint() - old(Footprint()))
      ensures forall i :: i in old(nodes) ==> i in nodes && nodes[i] == old(nodes[i])
      ensures forall i :: i in old(nodes) ==> nodes[i].Denotes(g) == old(nodes[i].Denotes(g))
      ensures var plan := Plan(old(g), old(nodes.Keys), id, tag, constraints);
              && ret == (if plan in {Refuse, Ambiguous} then -1 else 0)
              && g == (if plan == Insert then WithNode(old(g), tag, props) else old(g))
              && nodes.Keys == old(nodes.Keys) + (if id >= 0 && plan in {Insert, Reuse} then {id} else {})
              && (id >= 0 && plan in {Insert, Reuse} ==>
                    nodes[id].Denotes(g) == if plan == Insert then [old(g).next] else Matches(old(g), tag, constraints))
              && reply.code == (match plan case Refuse => Error case Ambiguous => NotUnique case Insert => Success case Reuse => Exists)
    {
      if id >= 0 && id in nodes {
        return -1, Reply(Error, Cached, [], 0);
      }
      if constraints.Some? {
        var q := AddQuery(id, tag, constraints.value);
        AddReply(g, nodes.Keys, id, tag, constraints);
        var _, found := QueryNode(q);
        if found.kind == NodeID && found.code == Success {
          return 0, found.(code := Exists);
        }
        if found.code != Empty {
          return -1, found;
        }
      }
      var n := Create(id, tag, props);
      return 0, Reply(Success, NodeID, [], n);
    }

    /** The inner loop: one edge from `x` to every node of a cursor, which is then reset. */
    method AddRow(x: NodeId, d: Cursor, tag: Tag, props: Properties) returns (made: seq<Edge>)
      requires d.Settled() && d.it == 0 && this !in d.repr
      modifies this`g, d.repr
      ensures made == Row(x, old(d.Denotes(g)), |old(d.Denotes(g))|, tag, props, old(|g.edges|))
      ensures g == WithEdges(old(g), made)
      ensures d.Settled() && d.it == 0 && d.repr == old(d.repr) && d.Denotes(g) == old(d.Denotes(g))
    {
      ghost var ys := d.Denotes(g);
      made := [];
      while d.At()
        invariant d.Settled() && d.repr == old(d.repr) && d.it <= |ys|
        invariant g == WithEdges(old(g), made)
        invariant made == Row(x, ys, d.it, tag, props, old(|g.edges|))
        invariant d.Denotes(g) == ys
        decreases |ys| - d.it
      {
        var e := Edge(|g.edges|, x, d.traversed[d.it], tag, props);
        RowAt(x, ys, d.it, tag, props, old(|g.edges|), 0);
        EdgesKeepDenotes(d, g, [e]);
        ConcatAssociates(old(g.edges), made, [e]);
        made := made + [e];
        g := WithEdges(g, [e]);
        var _ := d.NextAlone(g);
      }
      d.ResetAlone();
    }

    /** One round of the outer loop. */
    method AddRowAt(c: Cursor, d: Cursor, tag: Tag, props: Properties) returns (row: seq<Edge>)
      requires c.Settled() && c.At() && this !in c.repr
      requires d.Settled() && d.it == 0 && this !in d.repr && c.repr !! d.repr
      modifies this`g, c.repr, d.repr
      ensures row == Row(old(c.traversed[c.it]), old(d.Denotes(g)), |old(d.Denotes(g))|, tag, props, old(|g.edges|))
      ensures g == WithEdges(old(g), row)
      ensures c.Settled() && c.it == old(c.it) + 1 && c.repr == old(c.repr) && c.Denotes(g) == old(c.Denotes(g))
      ensures c.At() <==> c.it < |c.Denotes(g)|
      ensures d.Settled() && d.it == 0 && d.repr == old(d.repr) && d.Denotes(g) == old(d.Denotes(g))
    {
      ghost var before := g;
      row := AddRow(c.traversed[c.it], d, tag, props);
      EdgesKeepDenotes(c, before, row);
      var _ := c.NextAlone(g);
    }

    /** The outer loop. */
    method AddRows(c: Cursor, d: Cursor, tag: Tag, props: Properties) returns (made: seq<Edge>)
      requires c.Settled() && c.it == 0 && this !in c.repr
      requires d.Settled() && d.it == 0 && this !in d.repr && c.repr !! d.repr
      modifies this`g, c.repr, d.repr
      ensures made == Product(old(c.Denotes(g)), |old(c.Denotes(g))|, old(d.Denotes(g)), tag, props, old(|g.edges|))
      ensures g == WithEdges(old(g), made)
      ensures c.Settled() && c.repr == old(c.repr) && c.Denotes(g) == old(c.Denotes(g))
      ensures d.Settled() && d.it == 0 && d.repr == old(d.repr) && d.Denotes(g) == old(d.Denotes(g))
    {
      ghost var xs, ys, g0 := c.Denotes(g), d.Denotes(g), g;
      made := [];
      while c.At()
        invariant c.Settled() && c.repr == old(c.repr) && c.Denotes(g) == xs && c.it <= |xs|
        invariant d.Settled() && d.it == 0 && d.repr == old(d.repr) && d.Denotes(g) == ys
        invariant g == WithEdges(g0, made)
        invariant made == Product(xs, c.it, ys, tag, props, |g0.edges|)
        decreases |xs| - c.it
      {
        ProductStep(g0, xs, c.it, ys, tag, props);
        var row := AddRowAt(c, d, tag, props);
        made := made + row;
      }
    }

    /** Both loops: the product of two distinct cursors, which are then reset. */
    method AddProduct(c: Cursor, d: Cursor, tag: Tag, props: Properties) returns (made: seq<Edge>)
      requires c.Settled() && c.it == 0 && this !in c.repr
      requires d.Settled() && d.it == 0 && this !in d.repr && c.repr !! d.repr
      modifies this`g, c.repr, d.repr
      ensures made == Product(old(c.Denotes(g)), |old(c.Denotes(g))|, old(d.Denotes(g)), tag, props, old(|g.edges|))
      ensures g == WithEdges(old(g), made)
      ensures c.Settled() && c.it == 0 && c.repr == old(c.repr) && c.Denotes(g) == old(c.Denotes(g))
      ensures d.Settled() && d.it == 0 && d.repr == old(d.repr) && d.Denotes(g) == old(d.Denotes(g))
    {
      made := AddRows(c, d, tag, props);
      c.ResetAlone();
    }

    /** Creates the edges of two cached cursors and, under a non-negative reference, caches
        them. */
    method AddEdge(id: int, src: int, dst: int, tag: Tag, props: Properties) returns (ret: int, reply: Reply)
      requires Valid() && src != dst
      modifies this`g, this`edges, Footprint()
      ensures Valid() && nodes == old(nodes) && Footprint() == old(Footprint())
      ensures forall i :: i in nodes ==> nodes[i].Denotes(g) == old(nodes[i].Denotes(g))
      ensures ret == (if (id >= 0 && id in old(edges)) || src !in nodes || dst !in nodes then -1 else 0)
      ensures ret == -1 ==> g == old(g) && edges == old(edges) && reply.code == Error
      ensures ret == 0 ==>
                var xs, ys := old(nodes[src].Denotes(g)), old(nodes[dst].Denotes(g));
                var made := Product(xs, |xs|, ys, tag, props, old(|g.edges|));
                && g == old(g).(edges := old(g).edges + made)
                && edges == (if id >= 0 then old(edges)[id := made] else old(edges))
                && made != [] && reply == Reply(Success, EdgeID, [], made[|made| - 1].id)
    {
      if (id >= 0 && id in edges) || src !in nodes || dst !in nodes {
        return -1, Reply(Error, Cached, [], 0);
      }
      var made := Connect(src, dst, tag, props);
      if id >= 0 {
        CacheEdges(id, made);
      }
      return 0, Reply(Success, EdgeID, [], made[|made| - 1].id);
    }

    method CacheEdges(id: int, made: seq<Edge>)
      requires Valid()
      modifies this`edges
      ensures Valid() && Footprint() == old(Footprint()) && edges == old(edges)[id := made]
      ensures forall i :: i in nodes ==> nodes[i].Denotes(g) == old(nodes[i].Denotes(g))
    {
      edges := edges[id := made];
    }

    /** The product of two cached cursors; no cached cursor changes. */
    method Connect(src: int, dst: int, tag: Tag, props: Properties) returns (made: seq<Edge>)
      requires Valid() && src in nodes && dst in nodes && src != dst
      modifies this`g, Footprint()
      ensures Valid() && nodes == old(nodes) && edges == old(edges) && Footprint() == old(Footprint())
      ensures forall i :: i in nodes ==> nodes[i].Denotes(g) == old(nodes[i].Denotes(g))
      ensures made == Product(old(nodes[src].Denotes(g)), |old(nodes[src].Denotes(g))|, old(nodes[dst].Denotes(g)), tag, props, old(|g.edges|))
      ensures g == WithEdges(old(g), made) && made != []
    {
      ghost var before := g;
      var c, d := nodes[src], nodes[dst];
      assert c.Denotes(g) != [] && d.Denotes(g) != [];
      ProductNonempty(c.Denotes(g), |c.Denotes(g)|, d.Denotes(g), tag, props, |g.edges|);
      made := AddProduct(c, d, tag, props);
      forall i | i in nodes
        ensures Parked(nodes[i]) && nodes[i].repr == old(nodes[i].repr)
        ensures nodes[i].Denotes(g) == old(nodes[i].Denotes(g))
      {
        if i != src && i != dst {
          assert nodes[i].repr !! old(c.repr) && nodes[i].repr !! old(d.repr);
          EdgesKeepDenotes(nodes[i], before, made);
        }
      }
    }

    ghost function RefContent(r: int): Option<seq<NodeId>>
      requires Valid()
      reads this`g, this`nodes, nodes.Values, Footprint()
    {
      if r >= 0 && r in nodes then Some(nodes[r].Denotes(g)) else None
    }

    /** The edges between two references, as far as they are cached; no cursor changes. */
    method Edges(src: int, dst: int, tag: Tag, ps: seq<Predicate>, limit: nat) returns (es: seq<Edge>)
      requires Valid() && (src >= 0 ==> src != dst)
      modifies Footprint()
      ensures Valid() && nodes == old(nodes) && g == old(g) && edges == old(edges) && Footprint() == old(Footprint())
      ensures forall i :: i in nodes ==> nodes[i].Denotes(g) == old(nodes[i].Denotes(g))
      ensures es == TakeEdges(Yielded(g, tag, ps, old(RefContent(src)), old(RefContent(dst))), limit)
    {
      var c := if src >= 0 && src in nodes then nodes[src] else null;
      var d := if dst >= 0 && dst in nodes then nodes[dst] else null;
      es := RunEdges(g, tag, ps, c, d, limit);
      forall i | i in nodes
        ensures Parked(nodes[i]) && nodes[i].repr == old(nodes[i].repr)
        ensures nodes[i].Denotes(g) == old(nodes[i].Denotes(g))
      {
        assert old(nodes[i].Denotes(g)) != [];
        if nodes[i] == c || nodes[i] == d {
          assert nodes[i].Denotes(g) == old(nodes[i].Denotes(g));
        } else {
          assert c == null || (src in nodes && i != src && nodes[i].repr !! old(c.repr));
          assert d == null || (dst in nodes && i != dst && nodes[i].repr !! old(d.repr));
        }
      }
    }

    method QueryEdge(q: EdgeQuery) returns (ret: int, reply: EdgeReply)
      requires Valid() && (q.src >= 0 ==> q.src != q.dst)
      modifies this`edges, Footprint()
      ensures Valid() && nodes == old(nodes) && g == old(g) && Footprint() == old(Footprint())
      ensures forall i :: i in nodes ==> nodes[i].Denotes(g) == old(nodes[i].Denotes(g))
      ensures q.id >= 0 && q.id in old(edges) ==> ret == -1 && reply.code == Error && edges == old(edges)
      ensures !(q.id >= 0 && q.id in old(edges)) ==>
                var es := Yielded(g, q.tag, q.preds, old(RefContent(q.src)), old(RefContent(q.dst)));
                && reply == EdgeReplyTo(q, es) && EdgeTells(q, es, reply)
                && ret == (if reply.code in {Empty, NotUnique} then -1 else 0)
                && edges == if q.id >= 0 && ret == 0 then old(edges)[q.id := es] else old(edges)
    {
      if q.id >= 0 && q.id in edges {
        return -1, EdgeReply(Error, Cached, [], 0);
      }
      EdgeReplyTells(q, Yielded(g, q.tag, q.preds, RefContent(q.src), RefContent(q.dst)));
      ret, reply := ResolveEdges(q);
    }

    /** An edge query whose reference is free. */
    method ResolveEdges(q: EdgeQuery) returns (ret: int, reply: EdgeReply)
      requires Valid() && (q.src >= 0 ==> q.src != q.dst) && !(q.id >= 0 && q.id in edges)
      modifies this`edges, Footprint()
      ensures Valid() && nodes == old(nodes) && g == old(g) && Footprint() == old(Footprint())
      ensures forall i :: i in nodes ==> nodes[i].Denotes(g) == old(nodes[i].Denotes(g))
      ensures reply == EdgeReplyTo(q, Yielded(g, q.tag, q.preds, old(RefContent(q.src)), old(RefContent(q.dst))))
      ensures ret == if reply.code in {Empty, NotUnique} then -1 else 0
      ensures edges == if q.id >= 0 && ret == 0 then old(edges)[q.id := Yielded(g, q.tag, q.preds, old(RefContent(q.src)), old(RefContent(q.dst)))] else old(edges)
    {
      if !(q.id >= 0 || q.unique) {
        var visited := Edges(q.src, q.dst, q.tag, q.preds, if q.kind == List then q.limit else 0);
        return 0, EdgeSummary(q.kind, 0, visited);
      }
      var es := Edges(q.src, q.dst, q.tag, q.preds, 0);
      reply := EdgeReplyTo(q, es);
      ret := if reply.code in {Empty, NotUnique} then -1 else 0;
      if q.id >= 0 && ret == 0 {
        CacheEdges(q.id, es);
      }
    }

    /** Updates every node of a cursor, which is then reset. */
    method UpdateAll(c: Cursor, set_: Properties, removed: set<Key>) returns (updated: nat)
      requires c.Settled() && c.it == 0 && this !in c.repr && WellFormed(g)
      modifies this`g, c.repr
      ensures updated == |old(c.Denotes(g))|
      ensures g == WithPropsAll(old(g), old(c.Denotes(g)), updated, set_, removed)
      ensures c.Settled() && c.it == 0 && c.repr == old(c.repr) && c.Denotes(g) == old(c.Denotes(g))
      ensures c.Denotes(old(g)) == c.Denotes(g) == c.traversed
    {
      ghost var xs, g0 := c.Denotes(g), g;
      updated := 0;
      while c.At()
        invariant c.Settled() && c.repr == old(c.repr) && c.Denotes(g) == xs
        invariant updated == c.it <= |xs|
        invariant g == WithPropsAll(g0, xs, c.it, set_, removed)
        decreases |xs| - c.it
      {
        var n := c.traversed[c.it];
        assert n == xs[c.it];
        PropsKeepDenotes(c, c.it, g, set_, removed);
        g := WithProps(g, n, set_, removed);
        updated := updated + 1;
        var _ := c.NextAlone(g);
      }
      c.ResetAlone();
    }

    /** Updates the nodes of a cached cursor. That cursor denotes what it denoted before; any
        other one does so exactly when the update leaves its open candidates alone. */
    method UpdateCached(t: int, set_: Properties, removed: set<Key>) returns (updated: nat)
      requires Valid() && t in nodes
      modifies this`g, nodes[t].repr
      ensures Valid() && Footprint() == old(Footprint())
      ensures updated == |old(nodes[t].Denotes(g))|
      ensures g == WithPropsAll(old(g), old(nodes[t].Denotes(g)), updated, set_, removed)
      ensures nodes[t].Denotes(g) == old(nodes[t].Denotes(g))
      ensures forall i :: i in nodes && i != t ==>
                (nodes[i].Denotes(g) == old(nodes[i].Denotes(g)) <==>
                 old(Unaffected(g, nodes[i].View(), nodes[t].Denotes(g), set_, removed)))
    {
      ghost var g0, c, xs := g, nodes[t], nodes[t].Denotes(g);
      updated := UpdateAll(nodes[t], set_, removed);
      UpdateKeepsWellFormed(g0, xs, updated, set_, removed);
      assert xs != [];
      forall i | i in nodes
        ensures Parked(nodes[i]) && nodes[i].repr == old(nodes[i].repr)
        ensures i != t ==> (nodes[i].Denotes(g) == old(nodes[i].Denotes(g)) <==> Unaffected(g0, old(nodes[i].View()), xs, set_, removed))
      {
        if i != t {
          assert nodes[i].repr !! old(c.repr);
          assert nodes[i].View() == old(nodes[i].View());
          ViewMeans(nodes[i], g);
          ViewMeans(nodes[i], g0);
          MeaningSameIff(g0, nodes[i].View(), xs, set_, removed);
        }
      }
    }

    /** Finds the cursor to update: the reference if it is cached, else the query's result. */
    method Target(id: int, query: Option<NodeQuery>) returns (t: Option<int>, reply: Reply)
      requires Valid()
      modifies this`nodes, Footprint()
      ensures g == old(g) && edges == old(edges) && fresh(Footprint() - old(Footprint()))
      ensures reply.code == Raised <==> RaisedBy(g, old(nodes.Keys), id, query, old(Asked(id, query)))
      ensures reply.code != Raised ==> Valid()
      ensures forall i :: i in old(nodes) ==> i in nodes && nodes[i] == old(nodes[i])
      ensures reply.code != Raised ==> forall i :: i in old(nodes) ==> nodes[i].Denotes(g) == old(nodes[i].Denotes(g))
      ensures nodes.Keys == old(nodes.Keys) + old(Published(id, query))
      ensures reply.code != Raised ==> forall i :: i in old(Published(id, query)) ==>
                nodes[i].Denotes(g) == Arranged(g, query.value, old(Asked(id, query)))
      ensures t.Some? <==> old(Targets(id, query)).Some?
      ensures t.Some? ==> reply.code != Raised && t.value in nodes && t.value == TargetId(old(nodes.Keys), id, query)
                          && nodes[t.value].Denotes(g) == old(Targets(id, query)).value
      ensures t.Some? ==> forall i :: i in old(nodes) ==>
                if Asks(old(nodes.Keys), id, query) && StartsFrom(query.value, i) then nodes[i].View().open == []
                else nodes[i].View() == old(nodes[i].View())
    {
      if id >= 0 && id in nodes {
        return Some(id), Reply(Success, Cached, [], 0);
      }
      if query == None {
        return None, Reply(Error, Cached, [], 0);
      }
      var _, found := QueryNode(query.value);
      reply := found;
      t := None;
      if found.code == Success {
        if query.value.id >= 0 {
          t := Some(query.value.id);
        } else {
          reply := Reply(Error, found.kind, [], 0);
        }
      }
    }

    /** Updates the nodes of a reference or, failing that, of a query's result. */
    method UpdateNode(id: int, query: Option<NodeQuery>, set_: Properties, removed: set<Key>) returns (ret: int, reply: Reply)
      requires Valid()
      modifies this`g, this`nodes, Footprint()
      ensures edges == old(edges) && (reply.code != Raised ==> Valid()) && fresh(Footprint() - old(Footprint()))
      ensures reply.code == Raised <==> RaisedBy(old(g), old(nodes.Keys), id, query, old(Asked(id, query)))
      ensures forall i :: i in old(nodes) ==> i in nodes && nodes[i] == old(nodes[i])
      ensures nodes.Keys == old(nodes.Keys) + old(Published(id, query))
      ensures reply.code != Raised && ret == -1 ==> forall i :: i in old(Published(id, query)) ==>
                nodes[i].Denotes(g) == Arranged(g, query.value, old(Asked(id, query)))
      ensures ret == if old(Targets(id, query)).Some? then 0 else -1
      ensures ret == -1 ==> g == old(g)
      ensures ret == 0 ==>
                var xs := old(Targets(id, query)).value;
                && reply == Reply(Success, Count, [], |xs|)
                && g == WithPropsAll(old(g), xs, |xs|, set_, removed)
                && var t := TargetId(old(nodes.Keys), id, query); t in nodes && nodes[t].Denotes(g) == xs
      ensures ret == -1 && reply.code != Raised ==>
                forall i :: i in old(nodes) ==> nodes[i].Denotes(g) == old(nodes[i].Denotes(g))
      ensures ret == 0 ==>
                forall i :: i in old(nodes) ==>
                  (nodes[i].Denotes(g) == old(nodes[i].Denotes(g)) <==>
                   old(SparedBy(i, nodes[i].View(), id, query, set_, removed)))
    {
      ghost var first := map i | i in nodes :: nodes[i].View();
      var t, found := Target(id, query);
      if t == None {
        return -1, found;
      }
      var updated := UpdateFound(t.value, first, id, query, set_, removed);
      ret, reply := 0, Reply(Success, Count, [], updated);
      forall i | i in old(nodes)
        ensures nodes[i].Denotes(g) == old(nodes[i].Denotes(g)) <==> old(SparedBy(i, nodes[i].View(), id, query, set_, removed))
      {
        assert i in first && first[i] == old(nodes[i].View());
      }
    }

    /** An update through a cached cursor, seen from the views that cursors had before its query
        may have drained one of them. */
    method UpdateFound(t: int, ghost first: map<int, Lazy>, ghost id: int, ghost query: Option<NodeQuery>,
                       set_: Properties, removed: set<Key>) returns (updated: nat)
      requires Valid() && t in nodes && first.Keys <= nodes.Keys
      requires forall i :: i in first ==> (i == t <==> id >= 0 && i == id)
      requires forall i :: i in first ==>
                 if Asks(first.Keys, id, query) && StartsFrom(query.value, i) then nodes[i].View().open == []
                 else nodes[i].View() == first[i]
      modifies this`g, nodes[t].repr
      ensures Valid() && Footprint() == old(Footprint())
      ensures updated == |old(nodes[t].Denotes(g))|
      ensures g == WithPropsAll(old(g), old(nodes[t].Denotes(g)), updated, set_, removed)
      ensures nodes[t].Denotes(g) == old(nodes[t].Denotes(g))
      ensures forall i :: i in first ==>
                (nodes[i].Denotes(g) == old(nodes[i].Denotes(g)) <==>
                 Spares(old(g), first.Keys, i, first[i], id, query, old(nodes[t].Denotes(g)), set_, removed))
    {
      updated := UpdateCached(t, set_, removed);
    }
  }

  lemma UpdateKeepsWellFormed(g: Graph, xs: seq<NodeId>, n: nat, set_: Properties, removed: set<Key>)
    requires WellFormed(g) && n <= |xs|
    ensures WellFormed(WithPropsAll(g, xs, n, set_, removed))
    ensures WithPropsAll(g, xs, n, set_, removed).next == g.next
  {
    WithPropsAllAt(g, xs, n, set_, removed, 0);
  }

  lemma WithNodeWellFormed(g: Graph, tag: Tag, props: Properties)
    requires WellFormed(g)
    ensures WellFormed(WithNode(g, tag, props))
  {
    forall i | 0 <= i < |g.order| ensures g.order[i] != g.next {
      assert g.order[i] in g.order;
    }
  }

  lemma {:induction false} AddKeepsSelection(g: Graph, tag: Tag, props: Properties, f: Filter, xs: seq<NodeId>, i: nat)
    requires forall n :: n in xs ==> n < g.next
    ensures SelectFrom(WithNode(g, tag, props), f, xs, i) == SelectFrom(g, f, xs, i)
    decreases |xs| - i
  {
    if i < |xs| {
      assert xs[i] in xs;
      AddKeepsSelection(g, tag, props, f, xs, i + 1);
    }
  }

  /** A new node changes no cursor whose candidates are older than it. */
  lemma AddKeepsDenotes(c: Cursor, g: Graph, tag: Tag, props: Properties)
    requires c.Settled()
    requires c.source.Search? ==> forall n :: n in c.source.s.candidates ==> n < g.next
    ensures c.Denotes(WithNode(g, tag, props)) == c.Denotes(g)
  {
    if c.source.Search? {
      var s := c.source.s;
      AddKeepsSelection(g, tag, props, s.Remaining(), s.candidates, s.pos + 1);
    }
  }
}
