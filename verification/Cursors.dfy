/** The lazy node iterators and the resettable cursors of the query engine.

    A `SearchIterator` filters a fixed candidate list, a `NeighborIterator` walks the
    neighbours of every node of another cursor and moves that cursor as it goes, and a
    `Cursor` remembers what it has pulled from its source so that it can start over.
    Predicates are evaluated lazily, against the graph at the time of the call, so what is
    left in an iterator is a function of the graph. */
module Cursors {
  import opened Sequences
  import opened Graph
  import opened Ordering

  /** The search expression: a tag, predicates on nodes, predicates on traversed edges. */
  datatype Expression = Expression(tag: Tag, preds: seq<Predicate>, edgePreds: seq<Predicate>)

  // ------------------------------------------------------- conjunctive search

  /** All nodes that an expression describes, in scan order. */
  function Found(g: Graph, e: Expression): seq<NodeId> {
    Select(g, Filter(e.tag, e.preds), g.order)
  }

  /** The neighbours of `n` that an expression describes. */
  function FoundNear(g: Graph, e: Expression, n: NodeId, dir: Direction, edgeTag: Tag): seq<NodeId> {
    Select(g, Filter(e.tag, e.preds), NeighborsOf(g, n, dir, edgeTag, e.edgePreds))
  }

  /** `Select` on the part of `xs` from index `i` on. */
  function SelectFrom(g: Graph, f: Filter, xs: seq<NodeId>, i: nat): seq<NodeId>
    decreases |xs| - i
  {
    if i >= |xs| then []
    else if Accepts(g, f, xs[i]) then [xs[i]] + SelectFrom(g, f, xs, i + 1)
    else SelectFrom(g, f, xs, i + 1)
  }

  lemma {:induction false} SelectFromIs(g: Graph, f: Filter, xs: seq<NodeId>, i: nat)
    requires i <= |xs|
    ensures SelectFrom(g, f, xs, i) == Select(g, f, xs[i..])
    decreases |xs| - i
  {
    if i < |xs| {
      SelectFromIs(g, f, xs, i + 1);
      assert xs[i..][1..] == xs[i + 1..];
    }
  }

  /** The first accepted position of `xs` from index `i` on, or the end. */
  function FirstAccepted(g: Graph, f: Filter, xs: seq<NodeId>, i: nat): nat
    decreases |xs| - i
  {
    if i >= |xs| || Accepts(g, f, xs[i]) then i else FirstAccepted(g, f, xs, i + 1)
  }

  /** The predicate that the scan of the whole graph takes care of. */
  function ScanPredicate(e: Expression): Predicate {
    if e.preds == [] then Unconditional else e.preds[0]
  }

  /** What the search over the whole graph still has to check on every node of the scan. */
  function AfterScan(e: Expression): Filter {
    Filter(ANY_TAG, if e.preds == [] then [] else e.preds[1..])
  }

  class SearchIterator {
    const candidates: seq<NodeId>
    const expr: Expression
    const startAt: nat
    const neighbor: bool
    var pos: nat

    ghost predicate Valid()
      reads this
    {
      pos <= |candidates| && startAt <= 1 && Distinct(candidates)
    }

    predicate More()
      reads this
    {
      pos < |candidates|
    }

    /** What the iterator still checks on every further candidate. */
    function Remaining(): Filter {
      Filter(if neighbor then expr.tag else ANY_TAG,
             if startAt <= |expr.preds| then expr.preds[startAt..] else [])
    }

    /** The nodes still to be yielded: the settled one, then the accepted candidates. */
    ghost function Rest(g: Graph): seq<NodeId>
      requires Valid()
      reads this
    {
      if More() then [candidates[pos]] + SelectFrom(g, Remaining(), candidates, pos + 1) else []
    }

    /** Moves forward to the first acceptable candidate. */
    method Settle(g: Graph)
      requires Valid()
      modifies this
      ensures Valid() && pos >= old(pos)
      ensures Rest(g) == SelectFrom(g, Remaining(), candidates, old(pos))
      ensures pos == FirstAccepted(g, Remaining(), candidates, old(pos))
    {
      ghost var all := SelectFrom(g, Remaining(), candidates, pos);
      while pos < |candidates|
        invariant Valid() && pos >= old(pos)
        invariant FirstAccepted(g, Remaining(), candidates, pos) == FirstAccepted(g, Remaining(), candidates, old(pos))
        invariant SelectFrom(g, Remaining(), candidates, pos) == all
      {
        if !neighbor || expr.tag == ANY_TAG || TagOf(g, candidates[pos]) == expr.tag {
          var i := startAt;
          while i < |expr.preds| && Passes(expr.preds[i], PropsOf(g, candidates[pos]))
            invariant startAt <= i
            invariant forall k :: startAt <= k < i && k < |expr.preds| ==> Passes(expr.preds[k], PropsOf(g, candidates[pos]))
          {
            i := i + 1;
          }
          if i >= |expr.preds| {
            assert Accepts(g, Remaining(), candidates[pos]);
            return;
          }
          assert Remaining().preds[i - startAt] == expr.preds[i];
        }
        assert !Accepts(g, Remaining(), candidates[pos]);
        pos := pos + 1;
      }
    }

    /** A search over the whole graph: the scan takes the first predicate, the iterator the
        others. */
    constructor Nodes(g: Graph, e: Expression)
      requires Distinct(g.order)
      ensures Valid() && Rest(g) == Found(g, e)
      ensures candidates == NodesWhere(g, e.tag, ScanPredicate(e)) && Remaining() == AfterScan(e)
      ensures pos == FirstAccepted(g, Remaining(), candidates, 0)
      ensures forall n :: n in candidates ==> n in g.order
    {
      candidates := NodesWhere(g, e.tag, ScanPredicate(e));
      expr, startAt, neighbor, pos := e, 1, false, 0;
      new;
      SelectDistinct(g, Filter(e.tag, [ScanPredicate(e)]), g.order);
      forall n | n in candidates ensures n in g.order {
        SelectMembers(g, Filter(e.tag, [ScanPredicate(e)]), g.order, n);
      }
      Settle(g);
      SelectTwice(g, e.tag, ScanPredicate(e), Remaining().preds, g.order);
      SelectFromIs(g, Remaining(), candidates, 0);
      assert candidates[0..] == candidates;
      if e.preds == [] {
        UnconditionalIsNeutral(g, e.tag, g.order);
        assert [ScanPredicate(e)] + Remaining().preds == [Unconditional];
      } else {
        assert [ScanPredicate(e)] + Remaining().preds == e.preds;
      }
    }

    /** A search among the neighbours of one node: the iterator checks everything. */
    constructor Neighbors(g: Graph, n: NodeId, dir: Direction, edgeTag: Tag, e: Expression)
      ensures Valid() && Rest(g) == FoundNear(g, e, n, dir, edgeTag)
    {
      candidates := NeighborsOf(g, n, dir, edgeTag, e.edgePreds);
      expr, startAt, neighbor, pos := e, 0, true, 0;
      new;
      Settle(g);
      SelectFromIs(g, Remaining(), candidates, 0);
      assert candidates[0..] == candidates;
      assert e.preds[0..] == e.preds;
    }

    method Next(g: Graph) returns (more: bool)
      requires Valid() && More()
      modifies this
      ensures Valid()
      ensures old(Rest(g)) == [old(candidates[pos])] + Rest(g)
      ensures more == More() && pos > old(pos)
      ensures pos == FirstAccepted(g, Remaining(), candidates, old(pos) + 1)
    {
      pos := pos + 1;
      Settle(g);
      more := pos < |candidates|;
    }
  }

  lemma {:induction false} UnconditionalIsNeutral(g: Graph, tag: Tag, xs: seq<NodeId>)
    ensures Select(g, Filter(tag, [Unconditional]), xs) == Select(g, Filter(tag, []), xs)
  {
    if xs != [] {
      UnconditionalIsNeutral(g, tag, xs[1..]);
      assert PassesAll([Unconditional], PropsOf(g, xs[0]));
    }
  }

  // ------------------------------------------------- linked search and cursors

  /** How a linked query walks away from its start nodes. */
  datatype Walk = Walk(expr: Expression, dir: Direction, edgeTag: Tag)

  /** The neighbours of all nodes of `xs`, one start node after the other. */
  function FoundFrom(g: Graph, w: Walk, xs: seq<NodeId>): seq<NodeId> {
    if xs == [] then []
    else FoundNear(g, w.expr, xs[0], w.dir, w.edgeTag) + FoundFrom(g, w, xs[1..])
  }

  /** A walk reaches a node if and only if the node has the tag, passes every predicate, and some
      fitting edge leads to it from a start node. */
  lemma {:induction false} FoundFromMembers(g: Graph, w: Walk, xs: seq<NodeId>, m: NodeId)
    ensures m in FoundFrom(g, w, xs) <==>
            && (w.expr.tag == 0 || TagOf(g, m) == w.expr.tag)
            && (forall i :: 0 <= i < |w.expr.preds| ==> Passes(w.expr.preds[i], PropsOf(g, m)))
            && exists n, e :: n in xs && e in g.edges && Fits(e, w.edgeTag, w.expr.edgePreds) && Leads(e, n, m, w.dir)
  {
    if xs != [] {
      FoundFromMembers(g, w, xs[1..], m);
      SelectMembers(g, Filter(w.expr.tag, w.expr.preds), NeighborsOf(g, xs[0], w.dir, w.edgeTag, w.expr.edgePreds), m);
      NeighborsMembers(g, xs[0], w.dir, w.edgeTag, w.expr.edgePreds, m);
      assert forall n :: n in xs <==> n == xs[0] || n in xs[1..];
    }
  }

  /** Start nodes are walked from one after the other. */
  lemma {:induction false} FoundFromInOrder(g: Graph, w: Walk, xs: seq<NodeId>, ys: seq<NodeId>)
    ensures FoundFrom(g, w, xs + ys) == FoundFrom(g, w, xs) + FoundFrom(g, w, ys)
  {
    if xs == [] {
      assert xs + ys == ys;
    } else {
      assert (xs + ys)[1..] == xs[1..] + ys;
      FoundFromInOrder(g, w, xs[1..], ys);
      ConcatAssociates(FoundNear(g, w.expr, xs[0], w.dir, w.edgeTag), FoundFrom(g, w, xs[1..]), FoundFrom(g, w, ys));
    }
  }

  class NeighborIterator {
    const walk: Walk
    var start: Cursor?
    var neighbors: SearchIterator?

    predicate More()
      reads this, neighbors
    {
      neighbors != null && neighbors.More()
    }

    ghost function Parts(): set<object>
      reads this
    {
      {this} + if neighbors == null then {} else {neighbors}
    }

    /** Drained exactly when the start cursor has been let go. */
    ghost predicate Valid()
      reads this, Parts(), StartRepr()
    {
      && (neighbors != null ==> neighbors.Valid())
      && (start == null <==> !More())
      && (start != null ==> start.Settled() && Parts() !! start.repr)
    }

    ghost function StartRepr(): set<object>
      reads this, start
    {
      if start == null then {} else {start} + start.repr
    }

    ghost function Rest(g: Graph): seq<NodeId>
      requires Valid()
      reads this, Parts(), StartRepr()
    {
      if start == null then [] else neighbors.Rest(g) + FoundFrom(g, walk, start.Ahead(g))
    }

    /** Opens the neighbours of the start cursor's current node and moves that cursor on. */
    method Open(g: Graph)
      requires start != null && start.Settled() && start.At() && Parts() !! start.repr
      modifies this`neighbors, start.repr
      ensures neighbors != null && fresh(neighbors) && neighbors.Valid()
      ensures start == old(start) && start.Settled() && start.repr == old(start.repr)
      ensures start.Denotes(g) == old(start.Denotes(g)) && start.it == old(start.it) + 1
      ensures neighbors.Rest(g) == FoundNear(g, walk.expr, old(start.Ahead(g))[0], walk.dir, walk.edgeTag)
      ensures start.Ahead(g) == old(start.Ahead(g))[1..]
      decreases 0, 6
    {
      var nb := new SearchIterator.Neighbors(g, start.traversed[start.it], walk.dir, walk.edgeTag, walk.expr);
      neighbors := nb;
      var _ := start.NextAlone(g);
    }

    /** Opens the neighbours of the next start node that has any. */
    method Seek(g: Graph) returns (found: bool)
      requires start != null && start.Settled() && Parts() !! start.repr
      requires neighbors != null ==> neighbors.Valid() && !neighbors.More()
      modifies this`neighbors, start.repr
      ensures start == old(start) && start.Settled() && start.repr == old(start.repr)
      ensures start.Denotes(g) == old(start.Denotes(g))
      ensures neighbors != null ==> neighbors.Valid()
      ensures found == More() && (!found ==> !start.At())
      ensures old(FoundFrom(g, walk, start.Ahead(g))) == (if found then neighbors.Rest(g) + FoundFrom(g, walk, start.Ahead(g)) else [])
      ensures fresh(Parts() - old(Parts())) && Parts() !! start.repr
      decreases 0, 7
    {
      ghost var all := FoundFrom(g, walk, start.Ahead(g));
      while start.At()
        invariant start == old(start) && start.Settled() && start.repr == old(start.repr)
        invariant start.Denotes(g) == old(start.Denotes(g))
        invariant neighbors != null ==> neighbors.Valid() && !neighbors.More()
        invariant fresh(Parts() - old(Parts())) && Parts() !! start.repr
        invariant FoundFrom(g, walk, start.Ahead(g)) == all
        decreases |start.Denotes(g)| - start.it
      {
        Open(g);
        if neighbors.More() {
          return true;
        }
      }
      found := false;
    }

    /** The same, and lets the start cursor go when there is none. */
    method Refill(g: Graph)
      requires start != null && start.Settled() && Parts() !! start.repr
      requires neighbors != null ==> neighbors.Valid() && !neighbors.More()
      modifies this, start.repr
      ensures Valid()
      ensures Rest(g) == old(FoundFrom(g, walk, start.Ahead(g)))
      ensures old(start).Settled() && old(start).repr == old(start.repr)
      ensures old(start).Denotes(g) == old(start.Denotes(g))
      ensures start == null || start == old(start)
      ensures start == null ==> !old(start).At()
      ensures fresh(Parts() - old(Parts())) && Parts() !! old(start.repr)
      decreases 0, 8
    {
      var found := Seek(g);
      if !found {
        start := null;
      }
    }

    constructor (g: Graph, s: Cursor, w: Walk)
      requires s.Settled()
      modifies s.repr
      ensures Valid() && fresh(Parts())
      ensures Rest(g) == old(FoundFrom(g, w, s.Ahead(g)))
      ensures s.Settled() && s.repr == old(s.repr) && s.Denotes(g) == old(s.Denotes(g))
      ensures start == null || start == s
      ensures start == null ==> !s.At()
    {
      walk, start, neighbors := w, s, null;
      new;
      Refill(g);
    }

    method Next(g: Graph)
      requires Valid() && More()
      modifies Parts(), StartRepr()
      ensures Valid()
      ensures old(Rest(g)) == [old(neighbors.candidates[neighbors.pos])] + Rest(g)
      ensures old(start).Settled() && old(start).repr == old(start.repr)
      ensures old(start).Denotes(g) == old(start.Denotes(g))
      ensures start == null || start == old(start)
      ensures start == null ==> !old(start).At()
      ensures fresh(Parts() - old(Parts())) && Parts() !! old(start.repr)
      decreases 1, 0
    {
      ghost var ahead := FoundFrom(g, walk, start.Ahead(g));
      ghost var node := neighbors.candidates[neighbors.pos];
      ghost var near := neighbors.Rest(g);
      var more := neighbors.Next(g);
      ghost var later := neighbors.Rest(g);
      ConcatAssociates([node], later, ahead);
      assert start == old(start) && start.Settled() && start.repr == old(start.repr);
      assert start.Denotes(g) == old(start.Denotes(g)) && FoundFrom(g, walk, start.Ahead(g)) == ahead;
      if !more {
        ConcatEmpty(ahead);
        Refill(g);
        assert Rest(g) == ahead;
      }
    }
  }

  /** The engine's node iterator handle: none, a search, or a linked search. */
  datatype Source = NoSource | Search(s: SearchIterator) | Linked(l: NeighborIterator)

  predicate HasNode(src: Source)
    reads match src case NoSource => {} case Search(s) => {s} case Linked(l) => {l, l.neighbors}
  {
    match src
    case NoSource => false
    case Search(s) => s.More()
    case Linked(l) => l.More()
  }

  function CurrentNode(src: Source): NodeId
    requires HasNode(src)
    reads match src case NoSource => {} case Search(s) => {s} case Linked(l) => {l, l.neighbors}
  {
    match src
    case Search(s) => s.candidates[s.pos]
    case Linked(l) => l.neighbors.candidates[l.neighbors.pos]
  }

  /** The objects a source owns, and those of the start cursor it still moves. */
  ghost function Owned(src: Source): set<object>
    reads if src.Linked? then {src.l} else {}
  {
    match src
    case NoSource => {}
    case Search(s) => {s}
    case Linked(l) => l.Parts()
  }

  ghost function StartOf(src: Source): Cursor?
    reads if src.Linked? then {src.l} else {}
  {
    if src.Linked? then src.l.start else null
  }

  ghost function Borrowed(src: Source): set<object>
    reads (if src.Linked? then {src.l} else {}), StartOf(src)
  {
    if src.Linked? then src.l.StartRepr() else {}
  }

  ghost predicate Live(src: Source)
    reads Owned(src), Borrowed(src)
  {
    match src
    case NoSource => true
    case Search(s) => s.Valid()
    case Linked(l) => l.Valid()
  }

  /** What a source still yields. */
  ghost function Left(src: Source, g: Graph): seq<NodeId>
    requires Live(src)
    reads Owned(src), Borrowed(src)
  {
    match src
    case NoSource => []
    case Search(s) => s.Rest(g)
    case Linked(l) => l.Rest(g)
  }

  /** One step of a source. The start cursor of a linked source moves, and nothing else
      about it changes. */
  method Advance(src: Source, g: Graph)
    requires Live(src) && HasNode(src)
    modifies Owned(src), Borrowed(src)
    ensures Live(src)
    ensures old(Left(src, g)) == [old(CurrentNode(src))] + Left(src, g)
    ensures HasNode(src) <==> Left(src, g) != []
    ensures src.Search? ==> src.s.pos > old(src.s.pos)
    ensures src.Search? ==> src.s.pos == FirstAccepted(g, src.s.Remaining(), src.s.candidates, old(src.s.pos) + 1)
    ensures fresh(Owned(src) - old(Owned(src)))
    ensures StartOf(src) == null || StartOf(src) == old(StartOf(src))
    ensures var c := old(StartOf(src));
            c != null ==> c.Settled() && c.repr == old(c.repr) && c.Denotes(g) == old(c.Denotes(g))
                          && Owned(src) !! c.repr && (StartOf(src) == null ==> !c.At())
    decreases if StartOf(src) == null then 0 else 1, 1
  {
    match src
    case Search(s) => var _ := s.Next(g);
    case Linked(l) => l.Next(g);
  }

  /** None of `xs` is among the candidates still to come. */
  ghost predicate Past(src: Source, xs: seq<NodeId>)
    reads if src.Search? then {src.s} else {}
  {
    src.Search? ==> forall i, j :: 0 <= i < |xs| && src.s.pos <= j < |src.s.candidates| ==> xs[i] != src.s.candidates[j]
  }

  /** What there is to know about a cursor that depends on no other: its position, the nodes it
      is sure of, and the candidates it still has to check. */
  datatype Lazy = Lazy(position: nat, sure: seq<NodeId>, filter: Filter, open: seq<NodeId>)

  /** The sequence that such a cursor denotes in a graph. */
  function Meaning(g: Graph, l: Lazy): seq<NodeId> { l.sure + Select(g, l.filter, l.open) }

  /** A new cursor over the whole graph has looked for the first node and the one after it. */
  function NewlyOpened(g: Graph, e: Expression): Lazy {
    var xs, f := NodesWhere(g, e.tag, ScanPredicate(e)), AfterScan(e);
    var i := FirstAccepted(g, f, xs, 0);
    if i >= |xs| then Lazy(0, [], f, [])
    else
      var j := FirstAccepted(g, f, xs, i + 1);
      if j >= |xs| then Lazy(0, [xs[i]], f, []) else Lazy(0, [xs[i], xs[j]], f, xs[j + 1..])
  }

  class Cursor {
    const source: Source
    var traversed: seq<NodeId>
    var it: nat
    ghost var repr: set<object>

    predicate At()
      reads this
    {
      it < |traversed|
    }

    /** A cursor that depends on no other cursor. */
    ghost predicate Settled()
      reads this, repr
    {
      && this in repr
      && it <= |traversed|
      && match source {
           case NoSource => true
           case Search(s) => s in repr && s.Valid() && (it == |traversed| ==> !s.More()) && Past(source, traversed)
           case Linked(l) =>
             && l in repr && l.start == null && l.Parts() <= repr
             && (l.neighbors != null ==> l.neighbors.Valid() && !l.neighbors.More())
         }
    }

    /** The whole sequence a settled cursor runs through. */
    ghost function Denotes(g: Graph): seq<NodeId>
      requires Settled()
      reads this, repr
    {
      if source.Search? then traversed + source.s.Rest(g) else traversed
    }

    ghost function View(): Lazy
      requires Settled()
      reads this, repr
    {
      match source
      case Search(s) =>
        if s.More() then Lazy(it, traversed + [s.candidates[s.pos]], s.Remaining(), s.candidates[s.pos + 1..])
        else Lazy(it, traversed, s.Remaining(), [])
      case _ => Lazy(it, traversed, Filter(ANY_TAG, []), [])
    }

    ghost function Ahead(g: Graph): seq<NodeId>
      requires Settled()
      reads this, repr
    {
      Denotes(g)[it..]
    }

    /** A cursor whose source may still move a start cursor. */
    ghost predicate Valid()
      reads this, repr, Owned(source), Borrowed(source)
    {
      && Wired()
      && (it == |traversed| ==> !HasNode(source))
    }

    ghost predicate Wired()
      reads this, repr, Owned(source), Borrowed(source)
    {
      && this in repr && this !in Owned(source) && Owned(source) <= repr && Borrowed(source) !! repr
      && it <= |traversed|
      && Live(source) && Past(source, traversed)
    }

    ghost function All(g: Graph): seq<NodeId>
      requires Wired()
      reads this, repr, Owned(source), Borrowed(source)
    {
      traversed + Left(source, g)
    }

    constructor Wrap(src: Source)
      requires Live(src) && Owned(src) !! Borrowed(src)
      ensures Wired() && source == src && traversed == [] && it == 0
      ensures repr == {this} + Owned(src)
    {
      source, traversed, it := src, [], 0;
      new;
      repr := {this} + Owned(src);
    }

    /** Wraps a source and pulls its first node. */
    static method Over(g: Graph, src: Source) returns (c: Cursor)
      requires Live(src) && Owned(src) !! Borrowed(src)
      modifies Owned(src), Borrowed(src)
      ensures c.Valid() && c.it == 0 && c.source == src
      ensures c.All(g) == old(Left(src, g))
      ensures fresh(c.repr - old(Owned(src)))
      ensures src.Search? && old(HasNode(src)) ==>
                c.traversed == [old(CurrentNode(src))]
                && src.s.pos == FirstAccepted(g, src.s.Remaining(), src.s.candidates, old(src.s.pos) + 1)
      ensures StartOf(src) == null || StartOf(src) == old(StartOf(src))
      ensures var s := old(StartOf(src));
              s != null ==> s.Settled() && s.repr == old(s.repr) && s.Denotes(g) == old(s.Denotes(g))
                            && c.repr !! s.repr && (StartOf(src) == null ==> !s.At())
    {
      c := new Cursor.Wrap(src);
      ConcatEmpty(Left(src, g));
      var _ := c.Step(g);
    }

    /** A cursor over one freshly added node. */
    constructor Single(n: NodeId)
      ensures Settled() && it == 0 && At() && !source.Search? && fresh(repr)
      ensures forall g :: Denotes(g) == [n]
    {
      source, traversed, it := NoSource, [n], 0;
      repr := {this};
    }

    /** Pulls one more node out of the source. */
    method Pull(g: Graph)
      requires Wired() && HasNode(source)
      modifies repr, Borrowed(source)
      ensures Wired() && it == old(it)
      ensures traversed == old(traversed) + [old(CurrentNode(source))]
      ensures All(g) == old(All(g))
      ensures source.Search? ==> source.s.pos == FirstAccepted(g, source.s.Remaining(), source.s.candidates, old(source.s.pos) + 1)
      ensures fresh(repr - old(repr))
      ensures old(StartOf(source)) == null ==> repr == old(repr)
      ensures HasNode(source) <==> Left(source, g) != []
      ensures StartOf(source) == null || StartOf(source) == old(StartOf(source))
      ensures var c := old(StartOf(source));
              c != null ==> c.Settled() && c.repr == old(c.repr) && c.Denotes(g) == old(c.Denotes(g))
                            && repr !! c.repr && (StartOf(source) == null ==> !c.At())
      decreases if StartOf(source) == null then 0 else 1, 2
    {
      var n := CurrentNode(source);
      ghost var c := StartOf(source);
      assert c != null ==> this !in c.repr;
      Advance(source, g);
      ConcatAssociates(traversed, [n], Left(source, g));
      Remember(g, n);
    }

    /** Appends a node just taken from the source. */
    method Remember(g: Graph, n: NodeId)
      requires this in repr && this !in Owned(source) && this !in Borrowed(source)
      requires Borrowed(source) !! repr + Owned(source)
      requires it <= |traversed| && Live(source) && Past(source, traversed + [n])
      modifies this`traversed, this`repr
      ensures Wired() && repr == old(repr) + Owned(source)
      ensures traversed == old(traversed) + [n]
      ensures Left(source, g) == old(Left(source, g)) && HasNode(source) == old(HasNode(source))
      ensures source.Search? ==> source.s.pos == old(source.s.pos)
    {
      traversed := traversed + [n];
      repr := repr + Owned(source);
    }

    /** Moves within what has been traversed, or right behind it. */
    method Move(g: Graph)
      requires Wired() && it < |traversed|
      modifies this`it
      ensures Wired() && it == old(it) + 1 && All(g) == old(All(g))
      ensures var c := StartOf(source); c != null ==> c.Settled() && c.Denotes(g) == old(c.Denotes(g)) && this !in c.repr
    {
      it := it + 1;
    }

    /** The step shared by `Next` and the constructor. */
    method Step(g: Graph) returns (more: bool)
      requires Wired() && (it == |traversed| == 0 || !HasNode(source) || it < |traversed|)
      modifies repr, Borrowed(source)
      ensures Valid()
      ensures All(g) == old(All(g))
      ensures it == if old(it == |traversed|) then old(it) else old(it) + 1
      ensures more == At()
      ensures source.Search? && old(traversed == [] && HasNode(source)) ==>
                traversed == [old(CurrentNode(source))]
                && source.s.pos == FirstAccepted(g, source.s.Remaining(), source.s.candidates, old(source.s.pos) + 1)
      ensures fresh(repr - old(repr))
      ensures old(StartOf(source)) == null ==> repr == old(repr)
      ensures StartOf(source) == null || StartOf(source) == old(StartOf(source))
      ensures var c := old(StartOf(source));
              c != null ==> c.Settled() && c.repr == old(c.repr) && c.Denotes(g) == old(c.Denotes(g))
                            && repr !! c.repr && (StartOf(source) == null ==> !c.At())
      decreases if StartOf(source) == null then 0 else 1, 3
    {
      if it != |traversed| {
        Move(g);
      }
      if it == |traversed| && HasNode(source) {
        Pull(g);
      }
      more := it != |traversed|;
    }

    method Next(g: Graph) returns (more: bool)
      requires Valid()
      modifies repr, Borrowed(source)
      ensures Valid()
      ensures All(g) == old(All(g))
      ensures it == if old(it) < |All(g)| then old(it) + 1 else old(it)
      ensures more == At() && (more <==> it < |All(g)|)
      ensures fresh(repr - old(repr))
      ensures old(StartOf(source)) == null ==> repr == old(repr)
      ensures StartOf(source) == null || StartOf(source) == old(StartOf(source))
      ensures var c := old(StartOf(source));
              c != null ==> c.Settled() && c.repr == old(c.repr) && c.Denotes(g) == old(c.Denotes(g))
                            && repr !! c.repr && (StartOf(source) == null ==> !c.At())
      decreases if StartOf(source) == null then 0 else 1, 4
    {
      LeftEmptyIff(source, g);
      more := Step(g);
      LeftEmptyIff(source, g);
    }

    /** `Next` on a cursor that moves no other cursor. */
    method NextAlone(g: Graph) returns (more: bool)
      requires Settled()
      modifies repr
      ensures Settled() && repr == old(repr)
      ensures Denotes(g) == old(Denotes(g))
      ensures it == if old(it) < |Denotes(g)| then old(it) + 1 else old(it)
      ensures more == At() && (more <==> it < |Denotes(g)|)
      ensures more ==> traversed[it] == Denotes(g)[it]
      decreases 0, 5
    {
      SettledIff(this, g);
      more := Next(g);
      SettledIff(this, g);
    }

    /** Drains the source; the position does not change. */
    method TraverseAll(g: Graph)
      requires Valid()
      modifies repr, Borrowed(source)
      ensures Settled() && it == old(it)
      ensures Denotes(g) == traversed == old(All(g)) && !HasNode(source)
      ensures fresh(repr - old(repr))
      ensures var c := old(StartOf(source));
              c != null ==> c.Settled() && c.repr == old(c.repr) && c.Denotes(g) == old(c.Denotes(g))
                            && repr !! c.repr && (StartOf(source) == null ==> !c.At())
    {
      ghost var c := StartOf(source);
      while HasNode(source)
        invariant Wired() && it == old(it)
        invariant it == |traversed| ==> !HasNode(source)
        invariant All(g) == old(All(g))
        invariant fresh(repr - old(repr))
        invariant StartOf(source) == null || StartOf(source) == c
        invariant c != null ==> c.Settled() && c.repr == old(c.repr) && c.Denotes(g) == old(c.Denotes(g)) && repr !! c.repr
        invariant c != null && StartOf(source) == null ==> !c.At()
        decreases |Left(source, g)|
      {
        Pull(g);
      }
      LeftEmptyIff(source, g);
    }

    /** Goes back to the first element. */
    method Reset()
      requires Valid()
      modifies this`it
      ensures Valid() && it == 0
      ensures forall g :: All(g) == old(All(g))
    {
      it := 0;
    }

    /** `Reset` on a cursor that moves no other cursor. */
    method ResetAlone()
      requires Settled()
      modifies this`it
      ensures Settled() && it == 0
      ensures forall g :: Denotes(g) == old(Denotes(g))
    {
      it := 0;
    }

    /** Drains the source, sorts what was collected, and goes back to the start. */
    method Sort(g: Graph, k: SortKey) returns (ok: bool)
      requires Valid()
      modifies repr, Borrowed(source)
      ensures ok == Sortable(g, k, old(All(g)))
      ensures Settled() && it == 0 && fresh(repr - old(repr))
      ensures ok ==> Denotes(g) == traversed == Sorted(g, k, old(All(g)))
      ensures var c := old(StartOf(source));
              c != null ==> c.Settled() && c.repr == old(c.repr) && c.Denotes(g) == old(c.Denotes(g))
                            && repr !! c.repr && (StartOf(source) == null ==> !c.At())
    {
      ghost var c := StartOf(source);
      TraverseAll(g);
      assert c != null ==> this !in c.repr;
      ok := Rearrange(g, k);
      assert c != null ==> c.Settled() && c.repr == old(c.repr) && c.Denotes(g) == old(c.Denotes(g));
    }

    method Rearrange(g: Graph, k: SortKey) returns (ok: bool)
      requires Settled() && !HasNode(source)
      modifies this`traversed, this`it
      ensures ok == Sortable(g, k, old(traversed))
      ensures Settled() && it == 0 && repr == old(repr) && Denotes(g) == traversed
      ensures traversed == if ok then Sorted(g, k, old(traversed)) else old(traversed)
    {
      ok := Sortable(g, k, traversed);
      if ok {
        traversed := Sorted(g, k, traversed);
      }
      it := 0;
    }
  }

  /** A settled cursor is a valid one whose source moves no other cursor. */
  lemma SettledIff(c: Cursor, g: Graph)
    ensures c.Settled() <==> c.Valid() && StartOf(c.source) == null
    ensures c.Settled() ==> c.Denotes(g) == c.All(g)
  {
  }

  /** A cursor denotes in any graph what its view means there. */
  lemma ViewMeans(c: Cursor, g: Graph)
    requires c.Settled()
    ensures c.Denotes(g) == Meaning(g, c.View())
  {
    ConcatEmpty(c.traversed);
    if c.source.Search? && c.source.s.More() {
      var s := c.source.s;
      SelectFromIs(g, s.Remaining(), s.candidates, s.pos + 1);
      ConcatAssociates(c.traversed, [s.candidates[s.pos]], SelectFrom(g, s.Remaining(), s.candidates, s.pos + 1));
    }
  }

  lemma LeftEmptyIff(src: Source, g: Graph)
    requires Live(src)
    ensures HasNode(src) <==> Left(src, g) != []
  {
  }
}
