/** The lazy edge iterator: it walks the edges of every node of a source cursor, moves that
    cursor as it goes, and keeps the edges that pass the predicates and, when there is a
    destination cursor, end in one of its nodes. */
module EdgeSearch {
  import opened Sequences
  import opened Graph
  import opened Cursors

  /** The conditions an edge is tested against. */
  datatype EdgeFilter = EdgeFilter(preds: seq<Predicate>, restricted: bool, ends: set<NodeId>)

  predicate Keeps(f: EdgeFilter, e: Edge) {
    PassesAll(f.preds, e.props) && (f.restricted ==> e.dst in f.ends)
  }

  /** The edges of `es` from index `i` on that `f` keeps, in order. */
  function KeptEdges(f: EdgeFilter, es: seq<Edge>, i: nat): seq<Edge>
    decreases |es| - i
  {
    if i >= |es| then []
    else if Keeps(f, es[i]) then [es[i]] + KeptEdges(f, es, i + 1)
    else KeptEdges(f, es, i + 1)
  }

  lemma {:induction false} KeptMembers(f: EdgeFilter, es: seq<Edge>, i: nat, e: Edge)
    ensures e in KeptEdges(f, es, i) <==> Keeps(f, e) && exists k :: i <= k < |es| && es[k] == e
    decreases |es| - i
  {
    if i < |es| { KeptMembers(f, es, i + 1, e); }
  }

  /** PMGD's get_edges over the whole graph. */
  function EdgesWhere(es: seq<Edge>, tag: Tag, q: Predicate): seq<Edge> {
    if es == [] then []
    else
      (if (tag == ANY_TAG || es[0].tag == tag) && Passes(q, es[0].props) then [es[0]] else [])
      + EdgesWhere(es[1..], tag, q)
  }

  /** The edges at the nodes of `xs` that `f` keeps, one node after the other. */
  function EdgesFrom(g: Graph, f: EdgeFilter, dir: Direction, tag: Tag, xs: seq<NodeId>): seq<Edge> {
    if xs == [] then []
    else KeptEdges(f, EdgesAt(g.edges, xs[0], dir, tag), 0) + EdgesFrom(g, f, dir, tag, xs[1..])
  }

  /** Membership in `EdgesFrom`, without mentioning any order. */
  lemma {:induction false} EdgesFromMembers(g: Graph, f: EdgeFilter, dir: Direction, tag: Tag, xs: seq<NodeId>, e: Edge)
    ensures e in EdgesFrom(g, f, dir, tag, xs) <==>
            e in g.edges && Keeps(f, e) && exists n :: n in xs && Touches(e, n, dir, tag)
  {
    if xs != [] {
      EdgesFromMembers(g, f, dir, tag, xs[1..], e);
      KeptMembers(f, EdgesAt(g.edges, xs[0], dir, tag), 0, e);
      assert forall n :: n in xs <==> n == xs[0] || n in xs[1..];
    }
  }

  ghost function Content(g: Graph, c: Cursor?): Option<seq<NodeId>>
    requires c != null ==> c.Settled()
    reads c, if c == null then {} else c.repr
  {
    if c == null then None else Some(c.Denotes(g))
  }

  function Nodes(xs: seq<NodeId>): set<NodeId> {
    set n | n in xs
  }

  /** The node list an edge query starts from: the source, or else the destination. */
  function Origin(s: Option<seq<NodeId>>, d: Option<seq<NodeId>>): Option<seq<NodeId>> {
    if s.Some? then s else d
  }

  function OriginDir(s: Option<seq<NodeId>>, d: Option<seq<NodeId>>): Direction {
    if s == None && d.Some? then Incoming else Outgoing
  }

  /** The first edge list the iterator looks at. */
  function FirstEdges(g: Graph, tag: Tag, ps: seq<Predicate>, s: Option<seq<NodeId>>, d: Option<seq<NodeId>>): seq<Edge> {
    match Origin(s, d)
    case None => EdgesWhere(g.edges, tag, if |ps| > 0 then ps[0] else Unconditional)
    case Some(xs) => if xs == [] then [] else EdgesAt(g.edges, xs[0], OriginDir(s, d), tag)
  }

  /** The tests each edge gets. */
  function EdgeTests(ps: seq<Predicate>, s: Option<seq<NodeId>>, d: Option<seq<NodeId>>): EdgeFilter {
    EdgeFilter(if Origin(s, d) == None && ps != [] then ps[1..] else ps,
               s.Some? && d.Some?, if s.Some? && d.Some? then Nodes(d.value) else {})
  }

  /** What the iterator yields for given source and destination nodes: nothing at all when
      its first edge list is empty. */
  function Yielded(g: Graph, tag: Tag, ps: seq<Predicate>, s: Option<seq<NodeId>>, d: Option<seq<NodeId>>): seq<Edge> {
    var f, first := EdgeTests(ps, s, d), FirstEdges(g, tag, ps, s, d);
    if first == [] then []
    else
      KeptEdges(f, first, 0)
      + (match Origin(s, d)
         case None => []
         case Some(xs) => if xs == [] then [] else EdgesFrom(g, f, OriginDir(s, d), tag, xs[1..]))
  }

  /** Drains a cursor into a set of nodes. */
  method Collect(g: Graph, c: Cursor) returns (r: set<NodeId>)
    requires c.Settled() && c.it == 0
    modifies c.repr
    ensures c.Settled() && c.repr == old(c.repr) && c.Denotes(g) == old(c.Denotes(g))
    ensures r == Nodes(c.Denotes(g))
  {
    r := {};
    while c.At()
      invariant c.Settled() && c.repr == old(c.repr) && c.Denotes(g) == old(c.Denotes(g))
      invariant c.it <= |c.Denotes(g)| && r == Nodes(c.Denotes(g)[..c.it])
      decreases |c.Denotes(g)| - c.it
    {
      r := r + {c.traversed[c.it]};
      ghost var i := c.it;
      assert c.Denotes(g)[..i + 1] == c.Denotes(g)[..i] + [c.traversed[i]];
      var _ := c.NextAlone(g);
    }
    assert c.Denotes(g)[..c.it] == c.Denotes(g);
  }

  class EdgeIterator {
    const tag: Tag
    const preds: seq<Predicate>
    var src: Cursor?
    var dir: Direction
    var predStart: nat
    var checkDest: bool
    var destNodes: set<NodeId>
    var edges: seq<Edge>
    var pos: nat

    predicate More()
      reads this
    {
      pos < |edges|
    }

    function Tests(): EdgeFilter
      reads this`predStart, this`checkDest, this`destNodes
    {
      EdgeFilter(if predStart <= |preds| then preds[predStart..] else [], checkDest, destNodes)
    }

    ghost predicate Valid()
      reads this, Sources()
    {
      pos <= |edges| && (src != null ==> src.Settled())
    }

    ghost function Sources(): set<object>
      reads this`src, src
    {
      if src == null then {} else {src} + src.repr
    }

    /** What the source nodes after the current one contribute. */
    ghost function Later(g: Graph): seq<Edge>
      requires src != null ==> src.Settled()
      reads this`src, this`dir, this`predStart, this`checkDest, this`destNodes, src, if src == null then {} else src.repr
    {
      if src != null && src.At() then EdgesFrom(g, Tests(), dir, tag, src.Ahead(g)[1..]) else []
    }

    ghost function Rest(g: Graph): seq<Edge>
      requires Valid()
      reads this, Sources()
    {
      if More() then [edges[pos]] + KeptEdges(Tests(), edges, pos + 1) + Later(g) else []
    }

    constructor Raw(g: Graph, t: Tag, ps: seq<Predicate>, source: Cursor?, dest: Cursor?)
      requires source != null ==> source.Settled() && source.it == 0 && source.At()
      requires dest != null ==> dest.Settled() && dest.it == 0 && dest.At()
      ensures tag == t && preds == ps && pos == 0
      ensures src == if source == null then dest else source
      ensures var s, d := Content(g, source), Content(g, dest);
              && dir == OriginDir(s, d)
              && edges == FirstEdges(g, t, ps, s, d)
              && Tests() == EdgeFilter(EdgeTests(ps, s, d).preds, false, {})
    {
      tag, preds := t, ps;
      src, dir, predStart, checkDest, destNodes, pos := source, Outgoing, 0, false, {}, 0;
      edges := [];
      new;
      if source == null {
        if dest == null {
          predStart := 1;
        } else {
          dir, src := Incoming, dest;
        }
      }
      if src == null {
        edges := EdgesWhere(g.edges, t, if |ps| > 0 then ps[0] else Unconditional);
      } else {
        edges := EdgesAt(g.edges, src.traversed[src.it], dir, t);
      }
    }

    /** Notes the nodes of the destination cursor. */
    method Restrict(g: Graph, dest: Cursor)
      requires dest.Settled() && dest.it == 0 && this !in dest.repr
      modifies this`checkDest, this`destNodes, dest.repr
      ensures dest.Settled() && dest.repr == old(dest.repr) && dest.Denotes(g) == old(dest.Denotes(g))
      ensures Tests() == EdgeFilter(old(Tests()).preds, true, Nodes(dest.Denotes(g)))
    {
      var nodes := Collect(g, dest);
      destNodes, checkDest := nodes, true;
    }

    /** Opens the iterator over cursors that stand at their first element. */
    static method Open(g: Graph, t: Tag, ps: seq<Predicate>, source: Cursor?, dest: Cursor?) returns (i: EdgeIterator)
      requires source != null ==> source.Settled() && source.it == 0 && source.At()
      requires dest != null ==> dest.Settled() && dest.it == 0 && dest.At()
      requires source != null && dest != null ==> source.repr !! dest.repr
      modifies if source == null then {} else source.repr, if dest == null then {} else dest.repr
      ensures fresh(i) && i.Valid() && i.src == if source == null then dest else source
      ensures source != null ==> source.Settled() && source.repr == old(source.repr) && source.Denotes(g) == old(source.Denotes(g))
      ensures dest != null ==> dest.Settled() && dest.repr == old(dest.repr) && dest.Denotes(g) == old(dest.Denotes(g))
      ensures i.Rest(g) == old(Yielded(g, t, ps, Content(g, source), Content(g, dest)))
    {
      if source != null && dest != null {
        i := OpenBetween(g, t, ps, source, dest);
      } else if source != null {
        i := OpenFrom(g, t, ps, source);
      } else if dest != null {
        i := OpenInto(g, t, ps, dest);
      } else {
        i := OpenAll(g, t, ps);
      }
    }

    static method OpenBetween(g: Graph, t: Tag, ps: seq<Predicate>, source: Cursor, dest: Cursor) returns (i: EdgeIterator)
      requires source.Settled() && source.it == 0 && source.At()
      requires dest.Settled() && dest.it == 0 && dest.At() && source.repr !! dest.repr
      modifies source.repr, dest.repr
      ensures fresh(i) && i.Valid() && i.src == source
      ensures source.Settled() && source.repr == old(source.repr) && source.Denotes(g) == old(source.Denotes(g))
      ensures dest.Settled() && dest.repr == old(dest.repr) && dest.Denotes(g) == old(dest.Denotes(g))
      ensures i.Rest(g) == old(Yielded(g, t, ps, Some(source.Denotes(g)), Some(dest.Denotes(g))))
    {
      i := new EdgeIterator.Raw(g, t, ps, source, dest);
      if i.edges != [] {
        i.StartBetween(g, dest);
      }
    }

    static method OpenFrom(g: Graph, t: Tag, ps: seq<Predicate>, c: Cursor) returns (i: EdgeIterator)
      requires c.Settled() && c.it == 0 && c.At()
      modifies c.repr
      ensures fresh(i) && i.Valid() && i.src == c
      ensures c.Settled() && c.repr == old(c.repr) && c.Denotes(g) == old(c.Denotes(g))
      ensures i.Rest(g) == old(Yielded(g, t, ps, Some(c.Denotes(g)), None))
    {
      i := new EdgeIterator.Raw(g, t, ps, c, null);
      if i.edges != [] {
        assert c.Ahead(g) == c.Denotes(g);
        i.Advance(g);
      }
    }

    static method OpenInto(g: Graph, t: Tag, ps: seq<Predicate>, c: Cursor) returns (i: EdgeIterator)
      requires c.Settled() && c.it == 0 && c.At()
      modifies c.repr
      ensures fresh(i) && i.Valid() && i.src == c
      ensures c.Settled() && c.repr == old(c.repr) && c.Denotes(g) == old(c.Denotes(g))
      ensures i.Rest(g) == old(Yielded(g, t, ps, None, Some(c.Denotes(g))))
    {
      i := new EdgeIterator.Raw(g, t, ps, null, c);
      if i.edges != [] {
        assert c.Ahead(g) == c.Denotes(g);
        i.Advance(g);
      }
    }

    static method OpenAll(g: Graph, t: Tag, ps: seq<Predicate>) returns (i: EdgeIterator)
      ensures fresh(i) && i.Valid() && i.src == null
      ensures i.Rest(g) == Yielded(g, t, ps, None, None)
    {
      i := new EdgeIterator.Raw(g, t, ps, null, null);
      if i.edges != [] {
        i.Advance(g);
      }
    }

    /** With a destination cursor: notes its nodes and finds the first kept edge. */
    method StartBetween(g: Graph, dest: Cursor)
      requires Valid() && pos == 0 && src != null && src.it == 0 && this !in src.repr
      requires dest.Settled() && dest.it == 0 && this !in dest.repr && src.repr !! dest.repr
      modifies this`checkDest, this`destNodes, this`edges, this`pos, src.repr, dest.repr
      ensures Valid() && src == old(src) && src.repr == old(src.repr) && src.Denotes(g) == old(src.Denotes(g))
      ensures dest.Settled() && dest.repr == old(dest.repr) && dest.Denotes(g) == old(dest.Denotes(g))
      ensures var f := EdgeFilter(old(Tests()).preds, true, Nodes(old(dest.Denotes(g))));
              Rest(g) == KeptEdges(f, old(edges), 0)
                         + if old(src.At()) then EdgesFrom(g, f, dir, tag, old(src.Ahead(g))[1..]) else []
    {
      Restrict(g, dest);
      assert src.Settled() && src.Denotes(g) == old(src.Denotes(g)) && src.it == 0;
      Advance(g);
    }

    method CheckPredicates() returns (ok: bool)
      requires More()
      ensures ok == Keeps(Tests(), edges[pos])
    {
      var i := predStart;
      while i < |preds|
        invariant predStart <= i
        invariant forall k :: predStart <= k < i && k < |preds| ==> Passes(preds[k], edges[pos].props)
      {
        if !Passes(preds[i], edges[pos].props) {
          assert Tests().preds[i - predStart] == preds[i];
          return false;
        }
        i := i + 1;
      }
      ok := !checkDest || edges[pos].dst in destNodes;
    }

    /** Moves forward inside the current edge list. */
    method Scan() returns (found: bool)
      requires pos <= |edges|
      modifies this`pos
      ensures pos <= |edges| && found == More()
      ensures KeptEdges(Tests(), edges, old(pos))
           == if found then [edges[pos]] + KeptEdges(Tests(), edges, pos + 1) else []
    {
      ghost var all := KeptEdges(Tests(), edges, pos);
      while pos < |edges|
        invariant pos <= |edges|
        invariant KeptEdges(Tests(), edges, pos) == all
      {
        var ok := CheckPredicates();
        if ok {
          return true;
        }
        pos := pos + 1;
      }
      return false;
    }

    /** Moves the source cursor on and takes up the edges of its new node, if it has one. */
    method OpenNext(g: Graph) returns (more: bool)
      requires Valid() && src != null && src.At() && this !in Sources()
      modifies this`edges, this`pos, src.repr
      ensures Valid() && src == old(src) && src.repr == old(src.repr)
      ensures src.Denotes(g) == old(src.Denotes(g)) && src.it == old(src.it) + 1
      ensures more == src.At()
      ensures more ==> pos == 0 && old(Later(g)) == KeptEdges(Tests(), edges, 0) + Later(g)
      ensures !more ==> edges == old(edges) && pos == old(pos) && old(Later(g)) == Later(g) == []
    {
      more := src.NextAlone(g);
      if more {
        edges, pos := EdgesAt(g.edges, src.traversed[src.it], dir, tag), 0;
      }
    }

    /** Takes up the edges of the next source node that has a kept edge. */
    method NextSource(g: Graph)
      requires Valid() && !More() && this !in Sources()
      modifies this`edges, this`pos, Sources()
      ensures Valid() && src == old(src) && Sources() == old(Sources())
      ensures src != null ==> src.Denotes(g) == old(src.Denotes(g))
      ensures Rest(g) == old(Later(g))
    {
      ghost var later := Later(g);
      while src != null && src.At()
        invariant Valid() && !More() && src == old(src) && Sources() == old(Sources())
        invariant src != null ==> src.Denotes(g) == old(src.Denotes(g))
        invariant Later(g) == later
        decreases if src == null then 0 else |src.Denotes(g)| - src.it
      {
        var more := OpenNext(g);
        if !more {
          break;
        }
        ghost var after := Later(g);
        var found := Scan();
        assert Later(g) == after;
        if found {
          return;
        }
        ConcatEmpty(after);
      }
    }

    /** Finds the next kept edge at or after the current position. */
    method Advance(g: Graph)
      requires Valid() && this !in Sources()
      modifies this`edges, this`pos, Sources()
      ensures Valid() && src == old(src) && Sources() == old(Sources())
      ensures src != null ==> src.Denotes(g) == old(src.Denotes(g))
      ensures Rest(g) == KeptEdges(Tests(), old(edges), old(pos)) + old(Later(g))
    {
      ghost var kept, later := KeptEdges(Tests(), edges, pos), Later(g);
      var found := Scan();
      assert Later(g) == later;
      if found {
        assert Rest(g) == kept + later;
      } else {
        ConcatEmpty(later);
        NextSource(g);
        assert Rest(g) == later == kept + later;
      }
    }

    method Next(g: Graph)
      requires Valid() && More() && this !in Sources()
      modifies this`edges, this`pos, Sources()
      ensures Valid() && src == old(src) && Sources() == old(Sources())
      ensures src != null ==> src.Denotes(g) == old(src.Denotes(g))
      ensures old(Rest(g)) == [old(edges[pos])] + Rest(g)
    {
      ghost var e, kept, later := edges[pos], KeptEdges(Tests(), edges, pos + 1), Later(g);
      assert Rest(g) == ([e] + kept) + later;
      ConcatAssociates([e], kept, later);
      pos := pos + 1;
      assert Later(g) == later;
      Advance(g);
    }
  }

  // ----------------------------------------------------------- edge queries

  /** The result loop over an edge iterator: visits at most `limit` edges, 0 for all. */
  method VisitEdges(g: Graph, i: EdgeIterator, limit: nat) returns (visited: seq<Edge>)
    requires i.Valid() && i !in i.Sources()
    modifies i, i.Sources()
    ensures i.Valid() && i.src == old(i.src) && i.Sources() == old(i.Sources())
    ensures i.src != null ==> i.src.Denotes(g) == old(i.src.Denotes(g))
    ensures visited == TakeEdges(old(i.Rest(g)), limit)
  {
    ghost var all := i.Rest(g);
    visited := [];
    while i.More()
      invariant i.Valid() && i.src == old(i.src) && i.Sources() == old(i.Sources())
      invariant i.src != null ==> i.src.Denotes(g) == old(i.src.Denotes(g))
      invariant visited + i.Rest(g) == all
      invariant limit > 0 ==> |visited| < limit
      decreases |i.Rest(g)|
    {
      var e := i.edges[i.pos];
      ghost var before := visited;
      visited := visited + [e];
      assert i.Rest(g)[0] == e;
      if |visited| == limit {
        return;
      }
      i.Next(g);
      ConcatAssociates(before, [e], i.Rest(g));
    }
    ConcatEmpty(visited);
  }

  /** `VisitEdges`, seen from a cursor that the iterator does not move. */
  method VisitBeside(g: Graph, i: EdgeIterator, ghost other: Cursor?, limit: nat) returns (visited: seq<Edge>)
    requires i.Valid() && i !in i.Sources()
    requires other != null ==> other.Settled() && i !in other.repr && i.Sources() !! other.repr
    modifies i, i.Sources()
    ensures visited == TakeEdges(old(i.Rest(g)), limit)
    ensures i.Valid() && i.src == old(i.src) && i.Sources() == old(i.Sources())
    ensures i.src != null ==> i.src.Denotes(g) == old(i.src.Denotes(g))
    ensures other != null ==> other.Settled() && other.repr == old(other.repr) && other.Denotes(g) == old(other.Denotes(g))
  {
    visited := VisitEdges(g, i, limit);
  }

  /** Opens an edge iterator and visits it. */
  method OpenAndVisit(g: Graph, tag: Tag, ps: seq<Predicate>, source: Cursor?, dest: Cursor?, limit: nat) returns (visited: seq<Edge>)
    requires source != null ==> source.Settled() && source.it == 0 && source.At()
    requires dest != null ==> dest.Settled() && dest.it == 0 && dest.At()
    requires source != null && dest != null ==> source.repr !! dest.repr
    modifies if source == null then {} else source.repr, if dest == null then {} else dest.repr
    ensures visited == TakeEdges(old(Yielded(g, tag, ps, Content(g, source), Content(g, dest))), limit)
    ensures source != null ==> source.Settled() && source.repr == old(source.repr) && source.Denotes(g) == old(source.Denotes(g))
    ensures dest != null ==> dest.Settled() && dest.repr == old(dest.repr) && dest.Denotes(g) == old(dest.Denotes(g))
  {
    ghost var all := Yielded(g, tag, ps, Content(g, source), Content(g, dest));
    var i := EdgeIterator.Open(g, tag, ps, source, dest);
    assert i.Rest(g) == all;
    visited := VisitBeside(g, i, if source == null then null else dest, limit);
    assert visited == TakeEdges(all, limit);
  }

  method Rewind(g: Graph, c: Cursor?)
    requires c != null ==> c.Settled()
    modifies if c == null then {} else {c}
    ensures c != null ==> c.Settled() && c.it == 0 && c.repr == old(c.repr) && c.Denotes(g) == old(c.Denotes(g))
  {
    if c != null {
      c.ResetAlone();
    }
  }

  /** Opens an edge iterator, visits it, and resets both cursors. */
  method RunEdges(g: Graph, tag: Tag, ps: seq<Predicate>, source: Cursor?, dest: Cursor?, limit: nat) returns (visited: seq<Edge>)
    requires source != null ==> source.Settled() && source.it == 0 && source.At()
    requires dest != null ==> dest.Settled() && dest.it == 0 && dest.At()
    requires source != null && dest != null ==> source.repr !! dest.repr
    modifies if source == null then {} else source.repr, if dest == null then {} else dest.repr
    ensures visited == TakeEdges(old(Yielded(g, tag, ps, Content(g, source), Content(g, dest))), limit)
    ensures source != null ==> source.Settled() && source.it == 0 && source.repr == old(source.repr) && source.Denotes(g) == old(source.Denotes(g))
    ensures dest != null ==> dest.Settled() && dest.it == 0 && dest.repr == old(dest.repr) && dest.Denotes(g) == old(dest.Denotes(g))
  {
    visited := OpenAndVisit(g, tag, ps, source, dest, limit);
    Rewind(g, source);
    Rewind(g, dest);
  }

  function TakeEdges(es: seq<Edge>, limit: nat): seq<Edge> {
    if 0 < limit < |es| then es[..limit] else es
  }

  /** The edges an edge query describes: those at the nodes it starts from that pass all its
      predicates and, between two references, end in a destination node. */
  function Wanted(g: Graph, tag: Tag, ps: seq<Predicate>, s: Option<seq<NodeId>>, d: Option<seq<NodeId>>): seq<Edge> {
    match Origin(s, d)
    case None => KeptEdges(EdgeFilter(ps, false, {}), EdgesWhere(g.edges, tag, Unconditional), 0)
    case Some(xs) => EdgesFrom(g, EdgeTests(ps, s, d), OriginDir(s, d), tag, xs)
  }

  /** The iterator yields what is wanted exactly when the first node it starts from has an
      edge of the right tag and direction, or when nothing is wanted. */
  lemma YieldedExactly(g: Graph, tag: Tag, ps: seq<Predicate>, s: Option<seq<NodeId>>, d: Option<seq<NodeId>>)
    requires Origin(s, d).Some? && Origin(s, d).value != []
    ensures Yielded(g, tag, ps, s, d) == Wanted(g, tag, ps, s, d) <==>
            EdgesAt(g.edges, Origin(s, d).value[0], OriginDir(s, d), tag) != [] || Wanted(g, tag, ps, s, d) == []
  {
  }

  lemma {:induction false} KeptShift(f: EdgeFilter, x: Edge, ys: seq<Edge>, i: nat)
    ensures KeptEdges(f, [x] + ys, i + 1) == KeptEdges(f, ys, i)
    decreases |ys| - i
  {
    if i < |ys| {
      KeptShift(f, x, ys, i + 1);
    }
  }

  lemma KeptUnfold(f: EdgeFilter, es: seq<Edge>)
    requires es != []
    ensures KeptEdges(f, es, 0) == (if Keeps(f, es[0]) then [es[0]] else []) + KeptEdges(f, es, 1)
  {
    if !Keeps(f, es[0]) { ConcatEmpty(KeptEdges(f, es, 1)); }
  }

  lemma KeptCons(f: EdgeFilter, x: Edge, ys: seq<Edge>)
    ensures KeptEdges(f, [x] + ys, 0) == (if Keeps(f, x) then [x] else []) + KeptEdges(f, ys, 0)
  {
    KeptShift(f, x, ys, 0);
    KeptUnfold(f, [x] + ys);
  }

  lemma {:induction false} FirstPredicateFirst(es: seq<Edge>, tag: Tag, ps: seq<Predicate>)
    requires ps != []
    ensures KeptEdges(EdgeFilter(ps[1..], false, {}), EdgesWhere(es, tag, ps[0]), 0)
         == KeptEdges(EdgeFilter(ps, false, {}), EdgesWhere(es, tag, Unconditional), 0)
  {
    if es != [] {
      var all, some := EdgesWhere(es[1..], tag, Unconditional), EdgesWhere(es[1..], tag, ps[0]);
      FirstPredicateFirst(es[1..], tag, ps);
      KeptCons(EdgeFilter(ps, false, {}), es[0], all);
      KeptCons(EdgeFilter(ps[1..], false, {}), es[0], some);
      ConcatEmpty(all);
      ConcatEmpty(some);
      ConcatEmpty(KeptEdges(EdgeFilter(ps, false, {}), all, 0));
      PassesSplit(ps, es[0].props);
    }
  }

  lemma PassesSplit(ps: seq<Predicate>, p: Properties)
    requires ps != []
    ensures PassesAll(ps, p) <==> Passes(ps[0], p) && PassesAll(ps[1..], p)
  {
    assert forall i :: 1 <= i < |ps| ==> ps[i] == ps[1..][i - 1];
    assert forall i :: 0 <= i < |ps[1..]| ==> ps[1..][i] == ps[i + 1];
  }

  /** The quirk is real: with an edge only at the second of two source nodes, nothing comes. */
  lemma FirstSourceWithoutEdges()
    ensures var e := Edge(0, 1, 2, 7, map[]);
            var g := Graph([0, 1, 2], map[0 := Node(3, map[]), 1 := Node(3, map[]), 2 := Node(4, map[])], [e], 3);
            && WellFormed(g)
            && Yielded(g, 7, [], Some([0, 1]), Some([2])) == []
            && Wanted(g, 7, [], Some([0, 1]), Some([2])) == [e]
  {
    var e := Edge(0, 1, 2, 7, map[]);
    var g := Graph([0, 1, 2], map[0 := Node(3, map[]), 1 := Node(3, map[]), 2 := Node(4, map[])], [e], 3);
    var f := EdgeTests([], Some([0, 1]), Some([2]));
    assert EdgesAt(g.edges, 0, Outgoing, 7) == [] && EdgesAt(g.edges, 1, Outgoing, 7) == [e];
    assert Nodes([2]) == {2};
    assert KeptEdges(f, [e], 0) == [e];
    assert [0, 1][1..] == [1] && [1][1..] == [];
    assert EdgesFrom(g, f, Outgoing, 7, [1]) == [e];
  }

  /** Without references the iterator yields every wanted edge. */
  lemma YieldedEverywhere(g: Graph, tag: Tag, ps: seq<Predicate>)
    ensures Yielded(g, tag, ps, None, None) == Wanted(g, tag, ps, None, None)
  {
    if ps == [] {
    } else {
      FirstPredicateFirst(g.edges, tag, ps);
    }
  }

  // ------------------------------------------- what is wanted, spelled out

  /** Edge `e` of the graph has the tag and passes every predicate. */
  ghost predicate Fitting(g: Graph, tag: Tag, ps: seq<Predicate>, e: Edge) {
    e in g.edges && Fits(e, tag, ps)
  }

  /** From source nodes: the fitting edges that leave one of them and, if a destination is given,
      enter one of its nodes. */
  lemma WantedFromSource(g: Graph, tag: Tag, ps: seq<Predicate>, xs: seq<NodeId>, d: Option<seq<NodeId>>, e: Edge)
    ensures e in Wanted(g, tag, ps, Some(xs), d) <==>
            Fitting(g, tag, ps, e) && e.src in xs && (d.Some? ==> e.dst in d.value)
  {
    EdgesFromMembers(g, EdgeTests(ps, Some(xs), d), Outgoing, tag, xs, e);
    if e.src in xs { assert Touches(e, e.src, Outgoing, tag) <==> tag == 0 || e.tag == tag; }
  }

  /** Into destination nodes, no source given: the fitting edges that enter one of them. */
  lemma WantedIntoDestination(g: Graph, tag: Tag, ps: seq<Predicate>, ys: seq<NodeId>, e: Edge)
    ensures e in Wanted(g, tag, ps, None, Some(ys)) <==> Fitting(g, tag, ps, e) && e.dst in ys
  {
    EdgesFromMembers(g, EdgeTests(ps, None, Some(ys)), Incoming, tag, ys, e);
    if e.dst in ys { assert Touches(e, e.dst, Incoming, tag) <==> tag == 0 || e.tag == tag; }
  }

  lemma {:induction false} EdgesWhereMembers(es: seq<Edge>, tag: Tag, e: Edge)
    ensures e in EdgesWhere(es, tag, Unconditional) <==> e in es && (tag == 0 || e.tag == tag)
  {
    if es != [] { EdgesWhereMembers(es[1..], tag, e); }
  }

  /** Without references: the fitting edges of the whole graph. */
  lemma WantedAnywhere(g: Graph, tag: Tag, ps: seq<Predicate>, e: Edge)
    ensures e in Wanted(g, tag, ps, None, None) <==> Fitting(g, tag, ps, e)
  {
    KeptMembers(EdgeFilter(ps, false, {}), EdgesWhere(g.edges, tag, Unconditional), 0, e);
    EdgesWhereMembers(g.edges, tag, e);
  }

  /** What a query between references yields: an edge comes if and only if it is wanted and some
      edge with the tag leaves the first source node. */
  lemma YieldedFromSource(g: Graph, tag: Tag, ps: seq<Predicate>, xs: seq<NodeId>, d: Option<seq<NodeId>>, e: Edge)
    requires xs != []
    ensures e in Yielded(g, tag, ps, Some(xs), d) <==>
            && Fitting(g, tag, ps, e) && e.src in xs && (d.Some? ==> e.dst in d.value)
            && exists f :: f in g.edges && (tag == 0 || f.tag == tag) && f.src == xs[0]
  {
    WantedFromSource(g, tag, ps, xs, d, e);
    var first := EdgesAt(g.edges, xs[0], Outgoing, tag);
    if first != [] { assert first[0] in first; }
  }

  lemma YieldedIntoDestination(g: Graph, tag: Tag, ps: seq<Predicate>, ys: seq<NodeId>, e: Edge)
    requires ys != []
    ensures e in Yielded(g, tag, ps, None, Some(ys)) <==>
            && Fitting(g, tag, ps, e) && e.dst in ys
            && exists f :: f in g.edges && (tag == 0 || f.tag == tag) && f.dst == ys[0]
  {
    WantedIntoDestination(g, tag, ps, ys, e);
    var first := EdgesAt(g.edges, ys[0], Incoming, tag);
    if first != [] { assert first[0] in first; }
  }

  lemma {:induction false} EdgesFromSplits(g: Graph, f: EdgeFilter, dir: Direction, tag: Tag, xs: seq<NodeId>, ys: seq<NodeId>)
    ensures EdgesFrom(g, f, dir, tag, xs + ys) == EdgesFrom(g, f, dir, tag, xs) + EdgesFrom(g, f, dir, tag, ys)
  {
    if xs == [] {
      assert xs + ys == ys;
    } else {
      assert (xs + ys)[1..] == xs[1..] + ys;
      EdgesFromSplits(g, f, dir, tag, xs[1..], ys);
      ConcatAssociates(KeptEdges(f, EdgesAt(g.edges, xs[0], dir, tag), 0), EdgesFrom(g, f, dir, tag, xs[1..]), EdgesFrom(g, f, dir, tag, ys));
    }
  }

  lemma {:induction false} KeptAtAppend(f: EdgeFilter, es: seq<Edge>, e: Edge, n: NodeId, dir: Direction, tag: Tag)
    ensures KeptEdges(f, EdgesAt(es + [e], n, dir, tag), 0)
         == KeptEdges(f, EdgesAt(es, n, dir, tag), 0) + if Touches(e, n, dir, tag) && Keeps(f, e) then [e] else []
  {
    if es == [] {
      assert [] + [e] == [e];
    } else {
      var head, rest := if Touches(es[0], n, dir, tag) then [es[0]] else [], EdgesAt(es[1..], n, dir, tag);
      assert (es + [e])[1..] == es[1..] + [e];
      KeptAtAppend(f, es[1..], e, n, dir, tag);
      if Touches(es[0], n, dir, tag) {
        KeptCons(f, es[0], rest);
        KeptCons(f, es[0], EdgesAt(es[1..] + [e], n, dir, tag));
        ConcatAssociates(if Keeps(f, es[0]) then [es[0]] else [], KeptEdges(f, rest, 0),
                         if Touches(e, n, dir, tag) && Keeps(f, e) then [e] else []);
      } else {
        ConcatEmpty(rest);
        ConcatEmpty(EdgesAt(es[1..] + [e], n, dir, tag));
      }
    }
  }

  /** The order of what is wanted: source node by source node, and at one source node in the order
      of the graph, where one more edge comes last if it is wanted at all. */
  lemma WantedInOrder(g: Graph, tag: Tag, ps: seq<Predicate>, n: NodeId, xs: seq<NodeId>, d: Option<seq<NodeId>>, e: Edge)
    ensures Wanted(g, tag, ps, Some([n] + xs), d) == Wanted(g, tag, ps, Some([n]), d) + Wanted(g, tag, ps, Some(xs), d)
    ensures Wanted(g.(edges := g.edges + [e]), tag, ps, Some([n]), d)
         == Wanted(g, tag, ps, Some([n]), d) + if Fits(e, tag, ps) && e.src == n && (d.Some? ==> e.dst in d.value) then [e] else []
  {
    var f := EdgeTests(ps, Some([n]), d);
    EdgesFromSplits(g, f, Outgoing, tag, [n], xs);
    KeptAtAppend(f, g.edges, e, n, Outgoing, tag);
    assert [n][1..] == [];
    var h := g.(edges := g.edges + [e]);
    assert EdgesFrom(g, f, Outgoing, tag, [n]) == KeptEdges(f, EdgesAt(g.edges, n, Outgoing, tag), 0);
    assert EdgesFrom(h, f, Outgoing, tag, [n]) == KeptEdges(f, EdgesAt(h.edges, n, Outgoing, tag), 0);
  }
}
