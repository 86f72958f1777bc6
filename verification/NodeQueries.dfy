/** One node query, from search expression to reply. The query may walk away from one cached
    cursor (`start`); whatever happens, that cursor ends up where it began. */
module NodeQueries {
  import opened Sequences
  import opened Graph
  import opened Ordering
  import opened Cursors

  datatype ResultKind = Cached | Count | NodeID | EdgeID | List

  /** `limit` 0 means no limit. */
  datatype ResultInfo = ResultInfo(kind: ResultKind, sort: Option<SortKey>, limit: nat)

  datatype Link = Link(start: int, dir: Direction, edgeTag: Tag, edgePreds: seq<Predicate>, unique: bool)

  datatype NodeQuery = NodeQuery(id: int, link: Option<Link>, tag: Tag, preds: seq<Predicate>, unique: bool, results: ResultInfo)

  /** `Raised` stands for an exception, which ends the transaction. */
  datatype Code = Success | Exists | Empty | NotUnique | Error | Raised

  datatype Reply = Reply(code: Code, kind: ResultKind, listed: seq<NodeId>, number: nat)

  // ------------------------------------------------------------ specification

  function ExpressionOf(q: NodeQuery): Expression {
    Expression(q.tag, q.preds, if q.link.Some? then q.link.value.edgePreds else [])
  }

  function WalkOf(q: NodeQuery): Walk
    requires q.link.Some?
  {
    Walk(ExpressionOf(q), q.link.value.dir, q.link.value.edgeTag)
  }

  /** The nodes a query describes, given the nodes its link starts from. */
  function Answer(g: Graph, q: NodeQuery, from: seq<NodeId>): seq<NodeId> {
    if q.link.Some? then FoundFrom(g, WalkOf(q), from) else Found(g, ExpressionOf(q))
  }

  /** Which nodes a query describes: those with its tag that pass all its predicates and, if it
      walks away from other nodes, that a fitting edge in the link's direction leads to. */
  lemma AnswerMembers(g: Graph, q: NodeQuery, from: seq<NodeId>, n: NodeId)
    requires WellFormed(g) && n in g.nodes
    ensures n in Answer(g, q, from) <==>
            && (q.tag == 0 || g.nodes[n].tag == q.tag)
            && (forall i :: 0 <= i < |q.preds| ==> Passes(q.preds[i], g.nodes[n].props))
            && (q.link.Some? ==>
                  var l := q.link.value;
                  exists m, e :: m in from && e in g.edges && Fits(e, l.edgeTag, l.edgePreds) && Leads(e, m, n, l.dir))
  {
    SelectMembers(g, Filter(q.tag, q.preds), g.order, n);
    if q.link.Some? { FoundFromMembers(g, WalkOf(q), from, n); }
  }

  function Take(xs: seq<NodeId>, limit: nat): seq<NodeId> {
    if 0 < limit < |xs| then xs[..limit] else xs
  }

  function Arranged(g: Graph, q: NodeQuery, xs: seq<NodeId>): seq<NodeId> {
    if q.results.sort.Some? then Sorted(g, q.results.sort.value, xs) else xs
  }

  /** The reply that lists, counts or identifies the nodes `xs`. */
  function Summary(info: ResultInfo, xs: seq<NodeId>): Reply {
    match info.kind
    case List => Reply(Success, List, Take(xs, info.limit), |Take(xs, info.limit)|)
    case Count => Reply(Success, Count, [], |xs|)
    case NodeID => Reply(Success, NodeID, [], if xs == [] then 0 else xs[|xs| - 1])
    case _ => Reply(Error, info.kind, [], 0)
  }

  /** The reply to a query whose answer is `xs`. */
  function ReplyTo(g: Graph, q: NodeQuery, xs: seq<NodeId>): Reply {
    if xs == [] && q.id >= 0 then Reply(Empty, Cached, [], 0)
    else if q.unique && |xs| > 1 then Reply(NotUnique, q.results.kind, [], 0)
    else if q.results.sort.Some? && !Sortable(g, q.results.sort.value, xs) then Reply(Raised, q.results.kind, [], 0)
    else if q.results.kind == Cached && (q.id >= 0 || q.unique || q.results.sort.Some?) then Reply(Success, Cached, [], 0)
    else Summary(q.results, Arranged(g, q, xs))
  }

  /** What a reply `r` tells of the answer `xs`, read without the functions that build replies. It
      is empty or not unique exactly when the answer is and the query minds, and an exception is
      left to answers that cannot be sorted. Otherwise a count is the length of the answer, a list
      its sorted prefix up to the limit, and an identifier that of the last node. */
  ghost predicate Tells(g: Graph, q: NodeQuery, xs: seq<NodeId>, r: Reply) {
    var ys := if q.results.sort == None then xs else Sorted(g, q.results.sort.value, xs);
    && (r.code == Empty <==> |xs| == 0 && q.id >= 0)
    && (r.code == NotUnique <==> |xs| > 1 && q.unique)
    && (r.code == Raised <==> !(|xs| > 1 && q.unique) && q.results.sort.Some? && !Sortable(g, q.results.sort.value, xs))
    && (r.code !in {Empty, NotUnique, Raised} ==>
          && r.kind == q.results.kind
          && (r.code == Success <==> r.kind in {List, Count, NodeID} || (r.kind == Cached && (q.id >= 0 || q.unique || q.results.sort.Some?)))
          && (r.kind == Count ==> r.number == |xs|)
          && (r.kind == NodeID && |xs| > 0 ==> |ys| == |xs| && r.number == ys[|xs| - 1])
          && (r.kind == List ==>
                && |ys| == |xs| && r.number == |r.listed| && r.listed <= ys
                && |r.listed| == if q.results.limit == 0 || |xs| < q.results.limit then |xs| else q.results.limit))
  }

  /** The specified reply tells the truth. */
  lemma ReplyTells(g: Graph, q: NodeQuery, xs: seq<NodeId>)
    ensures Tells(g, q, xs, ReplyTo(g, q, xs))
  {
    ArrangedLength(g, q, xs);
    SummarySays(q.results, Arranged(g, q, xs));
  }

  lemma ArrangedLength(g: Graph, q: NodeQuery, xs: seq<NodeId>)
    ensures |Arranged(g, q, xs)| == |xs|
  {
    assert |multiset(Arranged(g, q, xs))| == |multiset(xs)|;
  }

  lemma SummarySays(info: ResultInfo, ys: seq<NodeId>)
    ensures var r := Summary(info, ys);
            && r.kind == info.kind && r.code == (if info.kind in {List, Count, NodeID} then Success else Error)
            && (r.kind == Count ==> r.number == |ys|)
            && (r.kind == NodeID && |ys| > 0 ==> r.number == ys[|ys| - 1])
            && (r.kind == List ==>
                  && r.number == |r.listed| && r.listed <= ys
                  && |r.listed| == if info.limit == 0 || |ys| < info.limit then |ys| else info.limit)
  {
  }

  /** Does the query end in a cached result? */
  predicate Caches(g: Graph, q: NodeQuery, xs: seq<NodeId>) {
    && q.id >= 0 && xs != []
    && !(q.unique && |xs| > 1)
    && (q.results.sort.Some? ==> Sortable(g, q.results.sort.value, xs))
  }

  /** A query that is only cached: nothing makes it look further than a new cursor does. */
  predicate Lazily(q: NodeQuery) {
    q.link == None && q.id >= 0 && !q.unique && q.results.sort == None && q.results.kind == Cached
  }

  // ----------------------------------------------------------------- results

  /** How many elements a result loop visits. */
  function Visits(info: ResultInfo): nat {
    if info.kind == List then info.limit else 0
  }

  function Digest(info: ResultInfo, visited: seq<NodeId>): Reply {
    match info.kind
    case List => Reply(Success, List, visited, |visited|)
    case Count => Reply(Success, Count, [], |visited|)
    case NodeID => Reply(Success, NodeID, [], if visited == [] then 0 else visited[|visited| - 1])
    case _ => Reply(Error, info.kind, [], 0)
  }

  lemma DigestIsSummary(info: ResultInfo, xs: seq<NodeId>)
    requires info.kind in {List, Count, NodeID}
    ensures Digest(info, Take(xs, Visits(info))) == Summary(info, xs)
  {
  }

  /** The result loop over a plain iterator: visits at most `limit` elements, 0 for all. */
  method VisitSource(g: Graph, src: Source, limit: nat) returns (visited: seq<NodeId>)
    requires Live(src) && Owned(src) !! Borrowed(src)
    modifies Owned(src), Borrowed(src)
    ensures visited == Take(old(Left(src, g)), limit)
    ensures var c := old(StartOf(src));
            c != null ==> c.Settled() && c.repr == old(c.repr) && c.Denotes(g) == old(c.Denotes(g))
  {
    ghost var all, c := Left(src, g), StartOf(src);
    visited := [];
    while HasNode(src)
      invariant Live(src)
      invariant fresh(Owned(src) - old(Owned(src)))
      invariant StartOf(src) == null || StartOf(src) == c
      invariant c != null ==> c.Settled() && c.repr == old(c.repr) && c.Denotes(g) == old(c.Denotes(g))
      invariant visited + Left(src, g) == all
      invariant limit > 0 ==> |visited| < limit
      decreases |Left(src, g)|
    {
      var n := CurrentNode(src);
      ghost var before := visited;
      visited := visited + [n];
      LeftStartsWith(src, g);
      if |visited| == limit {
        assert visited == all[..limit];
        return;
      }
      Advance(src, g);
      ConcatAssociates(before, [n], Left(src, g));
    }
    ConcatEmpty(visited);
  }

  lemma LeftStartsWith(src: Source, g: Graph)
    requires Live(src) && HasNode(src)
    ensures Left(src, g) != [] && Left(src, g)[0] == CurrentNode(src)
  {
  }

  /** The result loop over a cursor that stands at its first element. */
  method VisitCursor(g: Graph, tni: Cursor, limit: nat) returns (visited: seq<NodeId>)
    requires tni.Valid() && tni.it == 0
    modifies tni.repr, Borrowed(tni.source)
    ensures visited == Take(old(tni.All(g)), limit)
    ensures tni.Valid() && tni.All(g) == old(tni.All(g))
    ensures fresh(tni.repr - old(tni.repr))
    ensures StartOf(tni.source) == null || StartOf(tni.source) == old(StartOf(tni.source))
    ensures old(StartOf(tni.source)) == null ==> tni.repr == old(tni.repr)
    ensures var c := old(StartOf(tni.source));
            c != null ==> c.Settled() && c.repr == old(c.repr) && c.Denotes(g) == old(c.Denotes(g)) && tni.repr !! c.repr
                          && (StartOf(tni.source) == null ==> !c.At())
  {
    ghost var all, c := tni.All(g), StartOf(tni.source);
    ghost var r, ys := if c == null then {} else c.repr, if c == null then [] else c.Denotes(g);
    visited := [];
    while tni.At()
      invariant tni.Valid() && tni.All(g) == all
      invariant fresh(tni.repr - old(tni.repr)) && (c == null ==> tni.repr == old(tni.repr))
      invariant StartOf(tni.source) == null || StartOf(tni.source) == c
      invariant c != null ==> c.Settled() && c.repr == r && c.Denotes(g) == ys && tni.repr !! c.repr
      invariant c != null && StartOf(tni.source) == null ==> !c.At()
      invariant tni.it <= |all| && visited == all[..tni.it]
      invariant limit > 0 ==> |visited| < limit
      decreases |all| - tni.it
    {
      assert tni.traversed[tni.it] == all[tni.it];
      PrefixStep(all, tni.it);
      ghost var it := tni.it;
      visited := visited + [tni.traversed[tni.it]];
      if |visited| == limit {
        PrefixAll(all);
        return;
      }
      var _ := tni.Next(g);
      assert tni.Valid() && tni.All(g) == all && tni.it == it + 1;
    }
    LeftEmptyIff(tni.source, g);
    PrefixAll(all);
    assert tni.it == |all|;
  }

  // -------------------------------------------------------------- the query

  /** Looks whether the cursor has a second element, and goes back. */
  method CheckUnique(g: Graph, tni: Cursor) returns (ok: bool)
    requires tni.Valid() && tni.it == 0
    modifies tni.repr, Borrowed(tni.source)
    ensures ok == (|old(tni.All(g))| <= 1)
    ensures tni.Valid() && (ok ==> tni.it == 0) && tni.All(g) == old(tni.All(g))
    ensures fresh(tni.repr - old(tni.repr))
    ensures StartOf(tni.source) == null || StartOf(tni.source) == old(StartOf(tni.source))
    ensures var c := old(StartOf(tni.source));
            c != null ==> c.Settled() && c.repr == old(c.repr) && c.Denotes(g) == old(c.Denotes(g)) && tni.repr !! c.repr
                          && (StartOf(tni.source) == null ==> !c.At())
  {
    var _ := tni.Next(g);
    ok := !tni.At();
    if ok {
      tni.Reset();
    }
  }

  ghost function ScanPos(src: Source): nat
    reads if src.Search? then {src.s} else {}
  {
    if src.Search? then src.s.pos else 0
  }

  /** Nothing more has been pulled out of the cursor's search. */
  ghost predicate Unmoved(c: Cursor, traversed: seq<NodeId>, pos: nat)
    reads c, (if c.source.Search? then {c.source.s} else {})
  {
    c.traversed == traversed && ScanPos(c.source) == pos
  }

  /** Where the search of a new cursor stands. */
  ghost function NextPos(g: Graph, src: Source): nat
    reads if src.Search? then {src.s} else {}
  {
    if src.Search? then FirstAccepted(g, src.s.Remaining(), src.s.candidates, src.s.pos + 1) else 0
  }

  /** Drains what has to be drained so that the start cursor may be reset, and goes back. */
  method Park(g: Graph, tni: Cursor, linked: bool)
    requires tni.Valid() && (!linked ==> StartOf(tni.source) == null)
    modifies tni.repr, Borrowed(tni.source)
    ensures tni.Settled() && tni.it == 0 && tni.Denotes(g) == old(tni.All(g))
    ensures !linked ==> Unmoved(tni, old(tni.traversed), old(ScanPos(tni.source)))
    ensures fresh(tni.repr - old(tni.repr))
    ensures var c := old(StartOf(tni.source));
            c != null ==> c.Settled() && c.repr == old(c.repr) && c.Denotes(g) == old(c.Denotes(g)) && tni.repr !! c.repr
                          && (StartOf(tni.source) == null ==> !c.At())
  {
    SettledIff(tni, g);
    if linked {
      tni.TraverseAll(g);
    }
    SettledIff(tni, g);
    tni.Reset();
    SettledIff(tni, g);
  }

  /** Wraps the iterator in a cursor and checks uniqueness, if asked for. */
  method Wrap(g: Graph, q: NodeQuery, src: Source) returns (ok: bool, tni: Cursor)
    requires Live(src) && Owned(src) !! Borrowed(src)
    modifies Owned(src), Borrowed(src)
    ensures ok == !(q.unique && |old(Left(src, g))| > 1)
    ensures tni.Valid() && (ok ==> tni.it == 0) && tni.All(g) == old(Left(src, g))
    ensures tni.source == src && fresh(tni.repr - old(Owned(src)))
    ensures !q.unique && src.Search? && old(HasNode(src)) ==> Unmoved(tni, [old(CurrentNode(src))], old(NextPos(g, src)))
    ensures StartOf(src) == null || StartOf(src) == old(StartOf(src))
    ensures var c := old(StartOf(src));
            c != null ==> c.Settled() && c.repr == old(c.repr) && c.Denotes(g) == old(c.Denotes(g)) && tni.repr !! c.repr
                          && (StartOf(tni.source) == null ==> !c.At())
  {
    tni := Cursor.Over(g, src);
    ok := true;
    if q.unique {
      ok := CheckUnique(g, tni);
    }
  }

  /** Sorts the cursor, if asked for. */
  method Order(g: Graph, q: NodeQuery, tni: Cursor) returns (ok: bool)
    requires tni.Valid() && tni.it == 0
    modifies tni.repr, Borrowed(tni.source)
    ensures ok == (q.results.sort.Some? ==> Sortable(g, q.results.sort.value, old(tni.All(g))))
    ensures ok ==> tni.Valid() && tni.it == 0 && tni.All(g) == Arranged(g, q, old(tni.All(g)))
    ensures q.results.sort == None ==> Unmoved(tni, old(tni.traversed), old(ScanPos(tni.source)))
    ensures fresh(tni.repr - old(tni.repr))
    ensures StartOf(tni.source) == null || StartOf(tni.source) == old(StartOf(tni.source))
    ensures var c := old(StartOf(tni.source));
            c != null ==> c.Settled() && c.repr == old(c.repr) && c.Denotes(g) == old(c.Denotes(g)) && tni.repr !! c.repr
                          && (StartOf(tni.source) == null ==> !c.At())
  {
    ok := true;
    if q.results.sort.Some? {
      ok := tni.Sort(g, q.results.sort.value);
      SettledIff(tni, g);
    }
  }

  /** Builds the reply from the cursor and parks the cursor. */
  method Use(g: Graph, q: NodeQuery, tni: Cursor) returns (reply: Reply)
    requires tni.Valid() && tni.it == 0 && (q.link == None ==> StartOf(tni.source) == null)
    modifies tni.repr, Borrowed(tni.source)
    ensures reply == if q.results.kind == Cached then Reply(Success, Cached, [], 0) else Summary(q.results, old(tni.All(g)))
    ensures q.id >= 0 ==> tni.Settled() && tni.it == 0 && tni.Denotes(g) == old(tni.All(g))
    ensures Lazily(q) ==> Unmoved(tni, old(tni.traversed), old(ScanPos(tni.source)))
    ensures fresh(tni.repr - old(tni.repr))
    ensures var c := old(StartOf(tni.source));
            c != null ==> c.Settled() && c.repr == old(c.repr) && c.Denotes(g) == old(c.Denotes(g)) && tni.repr !! c.repr
                          && (StartOf(tni.source) == null ==> !c.At())
  {
    var visited := [];
    if q.results.kind in {List, Count, NodeID} {
      DigestIsSummary(q.results, tni.All(g));
      visited := VisitCursor(g, tni, Visits(q.results));
    }
    reply := if q.results.kind == Cached then Reply(Success, Cached, [], 0) else Digest(q.results, visited);
    if q.id >= 0 {
      Park(g, tni, q.link.Some?);
    }
  }

  /** What follows once the cursor is known to be unique enough. */
  method OrderAndUse(g: Graph, q: NodeQuery, tni: Cursor) returns (ok: bool, reply: Reply)
    requires tni.Valid() && tni.it == 0 && (q.link == None ==> StartOf(tni.source) == null)
    modifies tni.repr, Borrowed(tni.source)
    ensures ok == (q.results.sort.Some? ==> Sortable(g, q.results.sort.value, old(tni.All(g))))
    ensures !ok ==> reply == Reply(Raised, q.results.kind, [], 0)
    ensures ok ==> reply == if q.results.kind == Cached then Reply(Success, Cached, [], 0) else Summary(q.results, Arranged(g, q, old(tni.All(g))))
    ensures ok && q.id >= 0 ==> tni.Settled() && tni.it == 0 && tni.Denotes(g) == Arranged(g, q, old(tni.All(g)))
    ensures Lazily(q) ==> Unmoved(tni, old(tni.traversed), old(ScanPos(tni.source)))
    ensures fresh(tni.repr - old(tni.repr))
    ensures var c := old(StartOf(tni.source));
            c != null ==> c.Settled() && c.repr == old(c.repr) && c.Denotes(g) == old(c.Denotes(g)) && tni.repr !! c.repr
                          && (StartOf(tni.source) == null ==> !c.At())
  {
    ok := Order(g, q, tni);
    if !ok {
      return ok, Reply(Raised, q.results.kind, [], 0);
    }
    reply := Use(g, q, tni);
  }

  /** The part of a node query that keeps a cursor. */
  method RunReusable(g: Graph, q: NodeQuery, src: Source) returns (reply: Reply, kept: Cursor?)
    requires Live(src) && Owned(src) !! Borrowed(src) && (q.link == None ==> StartOf(src) == null)
    requires q.id >= 0 || q.unique || q.results.sort.Some?
    requires q.id >= 0 ==> Left(src, g) != []
    modifies Owned(src), Borrowed(src)
    ensures reply == ReplyTo(g, q, old(Left(src, g)))
    ensures kept != null <==> Caches(g, q, old(Left(src, g)))
    ensures kept != null ==> kept.Settled() && kept.it == 0 && kept.Denotes(g) == Arranged(g, q, old(Left(src, g)))
                             && fresh(kept.repr - old(Owned(src))) && kept.source == src
    ensures kept != null && Lazily(q) && src.Search? ==> old(HasNode(src)) && Unmoved(kept, [old(CurrentNode(src))], old(NextPos(g, src)))
    ensures var c := old(StartOf(src));
            c != null ==> c.Settled() && c.repr == old(c.repr) && c.Denotes(g) == old(c.Denotes(g))
                          && (kept != null ==> kept.repr !! c.repr && !c.At())
  {
    var unique, tni := Wrap(g, q, src);
    if !unique {
      return Reply(NotUnique, q.results.kind, [], 0), null;
    }
    var sorted: bool;
    sorted, reply := OrderAndUse(g, q, tni);
    kept := if sorted && q.id >= 0 then tni else null;
  }

  /** The query once its iterator is open. */
  method RunSource(g: Graph, q: NodeQuery, src: Source) returns (reply: Reply, kept: Cursor?)
    requires Live(src) && Owned(src) !! Borrowed(src) && (q.link == None ==> StartOf(src) == null)
    modifies Owned(src), Borrowed(src)
    ensures reply == ReplyTo(g, q, old(Left(src, g)))
    ensures kept != null <==> Caches(g, q, old(Left(src, g)))
    ensures kept != null ==> kept.Settled() && kept.it == 0 && kept.Denotes(g) == Arranged(g, q, old(Left(src, g)))
                             && fresh(kept.repr - old(Owned(src))) && kept.source == src
    ensures kept != null && Lazily(q) && src.Search? ==> old(HasNode(src)) && Unmoved(kept, [old(CurrentNode(src))], old(NextPos(g, src)))
    ensures var c := old(StartOf(src));
            c != null ==> c.Settled() && c.repr == old(c.repr) && c.Denotes(g) == old(c.Denotes(g))
                          && (kept != null ==> kept.repr !! c.repr && !c.At())
  {
    kept := null;
    LeftEmptyIff(src, g);
    if !HasNode(src) && q.id >= 0 {
      reply := Reply(Empty, Cached, [], 0);
    } else if !(q.id >= 0 || q.unique || q.results.sort.Some?) {
      reply := RunPlain(g, q, src);
    } else {
      reply, kept := RunReusable(g, q, src);
    }
  }

  /** A query over the whole graph. */
  method RunUnlinked(g: Graph, q: NodeQuery) returns (reply: Reply, kept: Cursor?)
    requires q.link == None && Distinct(g.order)
    ensures var xs := Answer(g, q, []);
            && reply == ReplyTo(g, q, xs)
            && (kept != null <==> Caches(g, q, xs))
            && (kept != null ==> kept.Settled() && kept.it == 0 && fresh(kept.repr) && kept.Denotes(g) == Arranged(g, q, xs))
    ensures kept != null ==> kept.source.Search? && forall n :: n in kept.source.s.candidates ==> n in g.order
    ensures kept != null && Lazily(q) ==> kept.View() == NewlyOpened(g, ExpressionOf(q))
  {
    var s := new SearchIterator.Nodes(g, ExpressionOf(q));
    ghost var i := s.pos;
    reply, kept := RunSource(g, q, Search(s));
    if kept != null && Lazily(q) {
      NewCursorView(g, ExpressionOf(q), kept, i);
    }
  }

  lemma NewCursorView(g: Graph, e: Expression, c: Cursor, i: nat)
    requires c.Settled() && c.it == 0 && c.source.Search? && i < |c.source.s.candidates|
    requires c.source.s.candidates == NodesWhere(g, e.tag, ScanPredicate(e)) && c.source.s.Remaining() == AfterScan(e)
    requires i == FirstAccepted(g, AfterScan(e), c.source.s.candidates, 0)
    requires Unmoved(c, [c.source.s.candidates[i]], FirstAccepted(g, AfterScan(e), c.source.s.candidates, i + 1))
    ensures c.View() == NewlyOpened(g, e)
  {
  }

  /** A query that walks away from a cached cursor, up to the final reset of that cursor. */
  method RunAlong(g: Graph, q: NodeQuery, start: Cursor) returns (reply: Reply, kept: Cursor?)
    requires q.link.Some? && start.Settled() && start.it == 0
    modifies start.repr
    ensures var xs := old(Answer(g, q, start.Denotes(g)));
            && reply == ReplyTo(g, q, xs)
            && (kept != null <==> Caches(g, q, xs))
            && (kept != null ==> kept.Settled() && kept.it == 0 && kept.Denotes(g) == Arranged(g, q, xs))
    ensures start.Settled() && start.repr == old(start.repr) && start.Denotes(g) == old(start.Denotes(g))
    ensures kept != null ==> fresh(kept.repr) && kept.repr !! start.repr && kept.source.Linked? && !start.At()
  {
    assert start.Ahead(g) == start.Denotes(g);
    var l := new NeighborIterator(g, start, WalkOf(q));
    reply, kept := RunBeside(g, q, Linked(l), start);
  }

  /** `RunSource`, seen from a cursor that the source either moves or does not touch. */
  method RunBeside(g: Graph, q: NodeQuery, src: Source, c: Cursor) returns (reply: Reply, kept: Cursor?)
    requires Live(src) && Owned(src) !! Borrowed(src) && q.link.Some?
    requires StartOf(src) == null || StartOf(src) == c
    requires c.Settled() && Owned(src) !! c.repr && (StartOf(src) == null ==> !c.At())
    modifies Owned(src), c.repr
    ensures reply == ReplyTo(g, q, old(Left(src, g)))
    ensures kept != null <==> Caches(g, q, old(Left(src, g)))
    ensures kept != null ==> kept.Settled() && kept.it == 0 && kept.Denotes(g) == Arranged(g, q, old(Left(src, g)))
                             && fresh(kept.repr - old(Owned(src))) && kept.repr !! c.repr && kept.source == src
    ensures c.Settled() && c.repr == old(c.repr) && c.Denotes(g) == old(c.Denotes(g))
    ensures kept != null ==> !c.At()
  {
    reply, kept := RunSource(g, q, src);
    assert c.Settled() && c.repr == old(c.repr);
  }

  /** A query that walks away from a cached cursor. Unless an exception is raised, that cursor
      ends at its start. */
  method RunLinked(g: Graph, q: NodeQuery, start: Cursor) returns (reply: Reply, kept: Cursor?)
    requires q.link.Some? && start.Settled() && start.it == 0
    modifies start.repr
    ensures var xs := old(Answer(g, q, start.Denotes(g)));
            && reply == ReplyTo(g, q, xs)
            && (kept != null <==> Caches(g, q, xs))
            && (kept != null ==> kept.Settled() && kept.it == 0 && fresh(kept.repr) && kept.Denotes(g) == Arranged(g, q, xs))
    ensures start.Settled() && start.repr == old(start.repr) && start.Denotes(g) == old(start.Denotes(g))
    ensures kept != null ==> kept.source.Linked?
    ensures reply.code != Raised ==> start.it == 0
    ensures kept != null ==> start.View().open == []
  {
    reply, kept := RunAlong(g, q, start);
    if reply.code != Raised {
      start.ResetAlone();
    }
  }

  /** The part of a node query that keeps nothing. */
  method RunPlain(g: Graph, q: NodeQuery, src: Source) returns (reply: Reply)
    requires Live(src) && Owned(src) !! Borrowed(src)
    requires !(q.id >= 0 || q.unique || q.results.sort.Some?)
    modifies Owned(src), Borrowed(src)
    ensures reply == ReplyTo(g, q, old(Left(src, g)))
    ensures var c := old(StartOf(src));
            c != null ==> c.Settled() && c.repr == old(c.repr) && c.Denotes(g) == old(c.Denotes(g))
  {
    var visited := [];
    if q.results.kind in {List, Count, NodeID} {
      DigestIsSummary(q.results, Left(src, g));
      visited := VisitSource(g, src, Visits(q.results));
    }
    reply := Digest(q.results, visited);
  }
}
