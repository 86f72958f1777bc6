/** Whole transactions: what runs of commands keep. */
module Transactions {
  import opened Sequences
  import opened Graph
  import opened Cursors
  import opened NodeQueries
  import opened EdgeSearch
  import opened Engine

  // ------------------------------------------------ runs of conditional additions

  datatype Addition = Addition(id: int, props: Properties)

  datatype State = State(g: Graph, taken: set<int>)

  /** One conditional addition, as `QueryHandler.AddNode` carries it out. */
  function Add(s: State, tag: Tag, preds: seq<Predicate>, a: Addition): State {
    var plan := Plan(s.g, s.taken, a.id, tag, Some(preds));
    State(if plan == Insert then WithNode(s.g, tag, a.props) else s.g,
          if a.id >= 0 && plan in {Insert, Reuse} then s.taken + {a.id} else s.taken)
  }

  function AddAll(s: State, tag: Tag, preds: seq<Predicate>, run: seq<Addition>): State
    decreases |run|
  {
    if run == [] then s else AddAll(Add(s, tag, preds, run[0]), tag, preds, run[1..])
  }

  /** Over every run of conditional additions with the same constraints, whatever references
      and properties they carry, at most one node matches if at most one did. */
  lemma {:induction false} AtMostOneMatch(s: State, tag: Tag, preds: seq<Predicate>, run: seq<Addition>)
    requires WellFormed(s.g) && |Matches(s.g, tag, Some(preds))| <= 1
    ensures var t := AddAll(s, tag, preds, run);
            WellFormed(t.g) && |Matches(t.g, tag, Some(preds))| <= 1
    decreases |run|
  {
    if run != [] {
      var a := run[0];
      WithNodeWellFormed(s.g, tag, a.props);
      AddedIsFound(s.g, tag, a.props, Expression(tag, preds, []));
      AtMostOneMatch(Add(s, tag, preds, a), tag, preds, run[1..]);
    }
  }

  /** A conditional addition adds a node if and only if it carries a fresh reference and no
      node matches. In particular one without a reference never adds, although the request
      promises an addition whenever nothing matches. */
  lemma AddsExactlyWhen(s: State, tag: Tag, preds: seq<Predicate>, a: Addition)
    ensures Add(s, tag, preds, a).g != s.g <==>
            a.id >= 0 && a.id !in s.taken && Matches(s.g, tag, Some(preds)) == []
  {
    assert WithNode(s.g, tag, a.props).next != s.g.next;
  }

  /** An AddEntity command with constraints that nothing matches, but without a reference, which
      the command passes on as -1: it succeeds and adds nothing. */
  lemma AdditionWithoutReference()
    ensures var empty := State(Graph([], map[], [], 0), {});
            var only := [Compare("x", Eq, IntV(1))];
            var a := Addition(-1, map["x" := IntV(1)]);
            && WellFormed(empty.g) && Matches(empty.g, 1, Some(only)) == []
            && Plan(empty.g, empty.taken, a.id, 1, Some(only)) == Reuse
            && Add(empty, 1, only, a) == empty
  {
    var empty := State(Graph([], map[], [], 0), {});
    assert Found(empty.g, Expression(1, [Compare("x", Eq, IntV(1))], [])) == [];
  }

  /** A run of conditional additions through the handler. */
  method AddEach(qh: QueryHandler, tag: Tag, preds: seq<Predicate>, run: seq<Addition>)
    requires qh.Valid()
    modifies qh, qh.Footprint()
    ensures qh.Valid() && State(qh.g, qh.nodes.Keys) == AddAll(old(State(qh.g, qh.nodes.Keys)), tag, preds, run)
  {
    ghost var start := State(qh.g, qh.nodes.Keys);
    assert run[0..] == run;
    for i := 0 to |run|
      invariant qh.Valid() && fresh(qh.Footprint() - old(qh.Footprint()))
      invariant AddAll(State(qh.g, qh.nodes.Keys), tag, preds, run[i..]) == AddAll(start, tag, preds, run)
    {
      assert run[i..][1..] == run[i + 1..];
      ghost var before := State(qh.g, qh.nodes.Keys);
      var _, _ := qh.AddNode(run[i].id, tag, run[i].props, Some(preds));
      assert State(qh.g, qh.nodes.Keys) == Add(before, tag, preds, run[i]);
    }
  }

  // -------------------------------------------------------- stale cached queries

  /** Two queries that are only cached. */
  method CacheTwo(qh: QueryHandler, q1: NodeQuery, q2: NodeQuery)
    requires qh.Valid() && qh.nodes == map[] && Lazily(q1) && Lazily(q2) && q1.id != q2.id
    requires Answer(qh.g, q1, []) != [] && Answer(qh.g, q2, []) != []
    modifies qh, qh.Footprint()
    ensures qh.Valid() && qh.g == old(qh.g) && qh.nodes.Keys == {q1.id, q2.id} && fresh(qh.Footprint() - old(qh.Footprint()))
    ensures qh.nodes[q1.id].Denotes(qh.g) == Answer(qh.g, q1, []) && qh.nodes[q2.id].Denotes(qh.g) == Answer(qh.g, q2, [])
    ensures qh.nodes[q1.id].View() == NewlyOpened(qh.g, ExpressionOf(q1))
  {
    var _, _ := qh.QueryNode(q1);
    assert qh.nodes.Keys == {q1.id} && !Refuses(qh.nodes.Keys, q2);
    var _, _ := qh.QueryNode(q2);
  }

  /** A cached query goes stale when the nodes of another one are updated, as soon as one of
      those is a candidate it has yet to check and answers differently afterwards. */
  method UpdateBehind(qh: QueryHandler, q1: NodeQuery, q2: NodeQuery, set_: Properties)
    requires qh.Valid() && qh.nodes == map[] && Lazily(q1) && Lazily(q2) && q1.id != q2.id
    requires Answer(qh.g, q1, []) != [] && Answer(qh.g, q2, []) != []
    modifies qh, qh.Footprint()
    ensures qh.Valid() && qh.nodes.Keys == {q1.id, q2.id}
    ensures qh.nodes[q1.id].Denotes(qh.g) == Answer(old(qh.g), q1, []) <==>
            Unaffected(old(qh.g), NewlyOpened(old(qh.g), ExpressionOf(q1)), Answer(old(qh.g), q2, []), set_, {})
  {
    CacheTwo(qh, q1, q2);
    ghost var l, xs := qh.nodes[q1.id].View(), qh.nodes[q2.id].Denotes(qh.g);
    assert qh.Targets(q2.id, None) == Some(xs);
    assert Spares(qh.g, qh.nodes.Keys, q1.id, l, q2.id, None, xs, set_, {}) <==> Unaffected(qh.g, l, xs, set_, {});
    var _, _ := qh.UpdateNode(q2.id, None, set_, {});
  }

  function Only(id: int, preds: seq<Predicate>): NodeQuery {
    NodeQuery(id, None, ANY_TAG, preds, false, ResultInfo(Cached, None, 0))
  }

  const XY: seq<Predicate> := [Compare("x", Eq, IntV(1)), Compare("y", Eq, IntV(1))]
  const Z: seq<Predicate> := [Compare("z", Eq, IntV(1))]

  /** Three nodes with `x == 1` and `y == 1`, the last one with `z == 1` too. */
  function ThreeNodes(): Graph {
    var one := map["x" := IntV(1), "y" := IntV(1)];
    Graph([0, 1, 2], map[0 := Node(1, one), 1 := Node(1, one), 2 := Node(1, one["z" := IntV(1)])], [], 3)
  }

  /** A run in which it happens: query 1 asks for `x == 1` and `y == 1`, which all three nodes
      meet; it has looked at two of them when the third, found by query 2, is given `y = 2` and
      drops out of query 1 unseen. */
  method UpdateChangesCachedQuery() returns (qh: QueryHandler)
    ensures fresh(qh) && qh.Valid() && 1 in qh.nodes
    ensures Answer(ThreeNodes(), Only(1, XY), []) == [0, 1, 2] && qh.nodes[1].Denotes(qh.g) != [0, 1, 2]
  {
    ThreeAnswers();
    LastIsOpen();
    ThreeWellFormed();
    qh := new QueryHandler(ThreeNodes());
    UpdateBehind(qh, Only(1, XY), Only(2, Z), map["y" := IntV(2)]);
  }

  function Pick(b: bool, n: NodeId): seq<NodeId> { if b then [n] else [] }

  lemma SelectThree(g: Graph, f: Filter)
    ensures Select(g, f, [0, 1, 2]) == Pick(Accepts(g, f, 0), 0) + (Pick(Accepts(g, f, 1), 1) + Pick(Accepts(g, f, 2), 2))
  {
    assert [0, 1, 2][1..] == [1, 2] && [1, 2][1..] == [2] && [2][1..] == [];
    ConcatEmpty(Pick(Accepts(g, f, 2), 2));
    assert Select(g, f, [2]) == Pick(Accepts(g, f, 2), 2) + Select(g, f, []);
    assert Select(g, f, [1, 2]) == Pick(Accepts(g, f, 1), 1) + Select(g, f, [2]);
  }

  lemma AllMeetXY(n: NodeId)
    requires n in {0, 1, 2}
    ensures Accepts(ThreeNodes(), Filter(ANY_TAG, XY), n)
  {
  }

  lemma OneMeetsZ(n: NodeId)
    requires n in {0, 1, 2}
    ensures Accepts(ThreeNodes(), Filter(ANY_TAG, Z), n) <==> n == 2
  {
    assert Z[0] == Compare("z", Eq, IntV(1));
  }

  lemma ThreeWellFormed()
    ensures WellFormed(ThreeNodes())
  {
  }

  lemma ThreeAnswers()
    ensures Answer(ThreeNodes(), Only(1, XY), []) == [0, 1, 2] && Answer(ThreeNodes(), Only(2, Z), []) == [2]
  {
    var g := ThreeNodes();
    AllMeetXY(0);
    AllMeetXY(1);
    AllMeetXY(2);
    OneMeetsZ(0);
    OneMeetsZ(1);
    OneMeetsZ(2);
    SelectThree(g, Filter(ANY_TAG, XY));
    SelectThree(g, Filter(ANY_TAG, Z));
    assert Found(g, Expression(ANY_TAG, XY, [])) == Select(g, Filter(ANY_TAG, XY), [0, 1, 2]);
    assert Found(g, Expression(ANY_TAG, Z, [])) == Select(g, Filter(ANY_TAG, Z), [0, 1, 2]);
  }

  /** The new cursor over query 1 has yet to check the third node, and the update matters. */
  lemma LastIsOpen()
    ensures !Unaffected(ThreeNodes(), NewlyOpened(ThreeNodes(), ExpressionOf(Only(1, XY))), [2], map["y" := IntV(2)], {})
  {
    var g, e, f := ThreeNodes(), ExpressionOf(Only(1, XY)), Filter(ANY_TAG, [XY[1]]);
    SelectThree(g, Filter(ANY_TAG, [XY[0]]));
    assert XY[1..] == [XY[1]];
    assert NodesWhere(g, ANY_TAG, XY[0]) == [0, 1, 2];
    assert FirstAccepted(g, f, [0, 1, 2], 0) == 0 && FirstAccepted(g, f, [0, 1, 2], 1) == 1;
    assert [0, 1, 2][2..] == [2];
    assert NewlyOpened(g, e).open == [2] && NewlyOpened(g, e).filter == f;
    assert f.preds[0] == Compare("y", Eq, IntV(1));
  }

  // ------------------------------------------------------------- transactions

  datatype Command =
    | AddNodeCmd(id: int, tag: Tag, props: Properties, constraints: Option<seq<Predicate>>)
    | AddEdgeCmd(id: int, src: int, dst: int, tag: Tag, props: Properties)
    | QueryNodeCmd(q: NodeQuery)
    | QueryEdgeCmd(e: EdgeQuery)
    | UpdateNodeCmd(id: int, query: Option<NodeQuery>, set_: Properties, removed: set<Key>)

  /** The two references of an edge command name different cursors. */
  predicate TwoCursors(c: Command) {
    && (c.AddEdgeCmd? ==> c.src != c.dst)
    && (c.QueryEdgeCmd? ==> c.e.src < 0 || c.e.src != c.e.dst)
  }

  /** What a handler holds between two commands: the graph, the view of every cached cursor, and
      the cached edges. */
  datatype Memory = Memory(g: Graph, refs: map<int, Lazy>, edges: map<int, seq<Edge>>)

  ghost function Now(qh: QueryHandler): Memory
    requires qh.Valid()
    reads qh, qh.nodes.Values, qh.Footprint()
  {
    Memory(qh.g, map i | i in qh.nodes :: qh.nodes[i].View(), qh.edges)
  }

  /** The sequence that a reference denotes. */
  function Denoted(m: Memory, i: int): seq<NodeId> { if i in m.refs then Meaning(m.g, m.refs[i]) else [] }

  function AnswerIn(m: Memory, q: NodeQuery): seq<NodeId> {
    Answer(m.g, q, if q.link.Some? then Denoted(m, q.link.value.start) else [])
  }

  function AskedIn(m: Memory, id: int, query: Option<NodeQuery>): seq<NodeId> {
    if Asks(m.refs.Keys, id, query) then AnswerIn(m, query.value) else []
  }

  function TargetsIn(m: Memory, id: int, query: Option<NodeQuery>): Option<seq<NodeId>> {
    TargetsOf(m.g, m.refs.Keys, id, query, Denoted(m, id), AskedIn(m, id, query))
  }

  function ContentIn(m: Memory, r: int): Option<seq<NodeId>> {
    if r >= 0 && r in m.refs then Some(Denoted(m, r)) else None
  }

  /** What a command does, if queries were evaluated at once: its return value, whether it raises
      an exception, the graph and the cached edges after it, and what its new reference denotes. */
  datatype Effect = Effect(ret: int, raised: bool, g: Graph, edges: map<int, seq<Edge>>, made: map<int, seq<NodeId>>)

  function AddNodeEffect(m: Memory, id: int, tag: Tag, props: Properties, constraints: Option<seq<Predicate>>): Effect {
    var plan := Plan(m.g, m.refs.Keys, id, tag, constraints);
    Effect(if plan in {Refuse, Ambiguous} then -1 else 0, false,
           if plan == Insert then WithNode(m.g, tag, props) else m.g, m.edges,
           if id >= 0 && plan in {Insert, Reuse} then
             map[id := if plan == Insert then [m.g.next] else Matches(m.g, tag, constraints)]
           else map[])
  }

  function AddEdgeEffect(m: Memory, id: int, src: int, dst: int, tag: Tag, props: Properties): Effect {
    if (id >= 0 && id in m.edges) || src !in m.refs || dst !in m.refs then Effect(-1, false, m.g, m.edges, map[])
    else
      var xs := Denoted(m, src);
      var made := Product(xs, |xs|, Denoted(m, dst), tag, props, |m.g.edges|);
      Effect(0, false, WithEdges(m.g, made), if id >= 0 then m.edges[id := made] else m.edges, map[])
  }

  function QueryNodeEffect(m: Memory, q: NodeQuery): Effect {
    if Refuses(m.refs.Keys, q) then Effect(-1, false, m.g, m.edges, map[])
    else
      var xs := AnswerIn(m, q);
      var code := ReplyTo(m.g, q, xs).code;
      Effect(if code in {Empty, NotUnique, Raised} then -1 else 0, code == Raised, m.g, m.edges,
             if Caches(m.g, q, xs) then map[q.id := Arranged(m.g, q, xs)] else map[])
  }

  function QueryEdgeEffect(m: Memory, e: EdgeQuery): Effect {
    if e.id >= 0 && e.id in m.edges then Effect(-1, false, m.g, m.edges, map[])
    else
      var es := Yielded(m.g, e.tag, e.preds, ContentIn(m, e.src), ContentIn(m, e.dst));
      var ret := if EdgeReplyTo(e, es).code in {Empty, NotUnique} then -1 else 0;
      Effect(ret, false, m.g, if e.id >= 0 && ret == 0 then m.edges[e.id := es] else m.edges, map[])
  }

  function UpdateNodeEffect(m: Memory, id: int, query: Option<NodeQuery>, set_: Properties, removed: set<Key>): Effect {
    var asked, xs := AskedIn(m, id, query), TargetsIn(m, id, query);
    var raised := RaisedBy(m.g, m.refs.Keys, id, query, asked);
    Effect(if raised then -1 else 0, raised,
           if xs.Some? then WithPropsAll(m.g, xs.value, |xs.value|, set_, removed) else m.g, m.edges,
           map i | i in PublishedBy(m.g, m.refs.Keys, id, query, asked) :: Arranged(m.g, query.value, asked))
  }

  function EffectOf(c: Command, m: Memory): Effect {
    match c
    case AddNodeCmd(id, tag, props, constraints) => AddNodeEffect(m, id, tag, props, constraints)
    case AddEdgeCmd(id, src, dst, tag, props) => AddEdgeEffect(m, id, src, dst, tag, props)
    case QueryNodeCmd(q) => QueryNodeEffect(m, q)
    case QueryEdgeCmd(e) => QueryEdgeEffect(m, e)
    case UpdateNodeCmd(id, query, set_, removed) => UpdateNodeEffect(m, id, query, set_, removed)
  }

  /** Will a reference denote after an update what it denotes before? That depends on what its
      cursor has yet to check. */
  predicate SparedBy(m: Memory, i: int, id: int, query: Option<NodeQuery>, set_: Properties, removed: set<Key>) {
    i in m.refs &&
    match TargetsIn(m, id, query)
    case None => true
    case Some(xs) => Spares(m.g, m.refs.Keys, i, m.refs[i], id, query, xs, set_, removed)
  }

  /** Only updates can change what a reference denotes. */
  predicate Spared(c: Command, m: Memory, i: int) {
    c.UpdateNodeCmd? ==> SparedBy(m, i, c.id, c.query, c.set_, c.removed)
  }

  /** Every cursor stands at the first of its nodes. */
  predicate AllParked(m: Memory) {
    forall i :: i in m.refs ==> m.refs[i].position == 0 && Denoted(m, i) != []
  }

  /** `n` has the graph, the edges and the references of `m` after an effect. */
  predicate Shows(e: Effect, m: Memory, n: Memory) {
    && n.g == e.g && n.edges == e.edges && n.refs.Keys == m.refs.Keys + e.made.Keys
    && (forall i :: i in e.made ==> Denoted(n, i) == e.made[i])
    && AllParked(n)
  }

  predicate Keeps(m: Memory, n: Memory) {
    forall i :: i in m.refs ==> Denoted(n, i) == Denoted(m, i)
  }

  /** `n` is what a command that raises no exception leaves of `m`. */
  predicate Follows(c: Command, m: Memory, n: Memory) {
    && Shows(EffectOf(c, m), m, n)
    && forall i :: i in m.refs ==> (Denoted(n, i) == Denoted(m, i) <==> Spared(c, m, i))
  }

  lemma NowMeans(qh: QueryHandler)
    requires qh.Valid()
    ensures Now(qh).refs.Keys == qh.nodes.Keys && AllParked(Now(qh))
    ensures forall i :: i in qh.nodes ==> Now(qh).refs[i] == qh.nodes[i].View() && Denoted(Now(qh), i) == qh.nodes[i].Denotes(qh.g)
  {
    forall i | i in qh.nodes
      ensures Denoted(Now(qh), i) == qh.nodes[i].Denotes(qh.g) != []
    {
      ViewMeans(qh.nodes[i], qh.g);
    }
  }

  method DoAddNode(qh: QueryHandler, id: int, tag: Tag, props: Properties, constraints: Option<seq<Predicate>>) returns (ret: int)
    requires qh.Valid()
    modifies qh, qh.Footprint()
    ensures qh.Valid() && fresh(qh.Footprint() - old(qh.Footprint()))
    ensures var e := AddNodeEffect(old(Now(qh)), id, tag, props, constraints);
            ret == e.ret && Shows(e, old(Now(qh)), Now(qh)) && Keeps(old(Now(qh)), Now(qh))
  {
    NowMeans(qh);
    var r, _ := qh.AddNode(id, tag, props, constraints);
    NowMeans(qh);
    ret := r;
  }

  method DoAddEdge(qh: QueryHandler, id: int, src: int, dst: int, tag: Tag, props: Properties) returns (ret: int)
    requires qh.Valid() && src != dst
    modifies qh, qh.Footprint()
    ensures qh.Valid() && fresh(qh.Footprint() - old(qh.Footprint()))
    ensures var e := AddEdgeEffect(old(Now(qh)), id, src, dst, tag, props);
            ret == e.ret && Shows(e, old(Now(qh)), Now(qh)) && Keeps(old(Now(qh)), Now(qh))
  {
    NowMeans(qh);
    var r, _ := qh.AddEdge(id, src, dst, tag, props);
    NowMeans(qh);
    ret := r;
  }

  method DoQueryNode(qh: QueryHandler, q: NodeQuery) returns (ret: int, raised: bool)
    requires qh.Valid()
    modifies qh, qh.Footprint()
    ensures fresh(qh.Footprint() - old(qh.Footprint())) && qh.g == old(qh.g) && qh.edges == old(qh.edges)
    ensures var e := QueryNodeEffect(old(Now(qh)), q);
            && ret == e.ret && raised == e.raised
            && (!raised ==> qh.Valid() && Shows(e, old(Now(qh)), Now(qh)) && Keeps(old(Now(qh)), Now(qh)))
  {
    NowMeans(qh);
    var r, reply := qh.QueryNode(q);
    ret, raised := r, reply.code == Raised;
    if !raised {
      NowMeans(qh);
    }
  }

  method DoQueryEdge(qh: QueryHandler, q: EdgeQuery) returns (ret: int)
    requires qh.Valid() && (q.src >= 0 ==> q.src != q.dst)
    modifies qh, qh.Footprint()
    ensures qh.Valid() && fresh(qh.Footprint() - old(qh.Footprint()))
    ensures var e := QueryEdgeEffect(old(Now(qh)), q);
            ret == e.ret && Shows(e, old(Now(qh)), Now(qh)) && Keeps(old(Now(qh)), Now(qh))
  {
    NowMeans(qh);
    var r, _ := qh.QueryEdge(q);
    NowMeans(qh);
    ret := r;
  }

  lemma UpdateTerms(qh: QueryHandler, id: int, query: Option<NodeQuery>)
    requires qh.Valid()
    ensures AskedIn(Now(qh), id, query) == qh.Asked(id, query)
    ensures TargetsIn(Now(qh), id, query) == qh.Targets(id, query)
  {
    NowMeans(qh);
  }

  /** Does an update leave exactly the references alone that it spares? */
  predicate KeepsSpared(m: Memory, n: Memory, id: int, query: Option<NodeQuery>, set_: Properties, removed: set<Key>) {
    forall i :: i in m.refs ==> (Denoted(n, i) == Denoted(m, i) <==> SparedBy(m, i, id, query, set_, removed))
  }

  method DoUpdateNode(qh: QueryHandler, id: int, query: Option<NodeQuery>, set_: Properties, removed: set<Key>) returns (ret: int, raised: bool)
    requires qh.Valid()
    modifies qh, qh.Footprint()
    ensures fresh(qh.Footprint() - old(qh.Footprint()))
    ensures raised ==> qh.g == old(qh.g) && qh.edges == old(qh.edges)
    ensures ret == UpdateNodeEffect(old(Now(qh)), id, query, set_, removed).ret
    ensures raised == UpdateNodeEffect(old(Now(qh)), id, query, set_, removed).raised
    ensures !raised ==> qh.Valid()
    ensures !raised ==> Shows(UpdateNodeEffect(old(Now(qh)), id, query, set_, removed), old(Now(qh)), Now(qh))
    ensures !raised ==> KeepsSpared(old(Now(qh)), Now(qh), id, query, set_, removed)
  {
    ghost var m, e := Now(qh), UpdateNodeEffect(Now(qh), id, query, set_, removed);
    NowMeans(qh);
    UpdateTerms(qh, id, query);
    var r, reply := qh.UpdateNode(id, query, set_, removed);
    raised := reply.code == Raised;
    ret := if raised then -1 else 0;
    if !raised {
      NowMeans(qh);
      MadeByUpdate(m, Now(qh), r, id, query, set_, removed);
    }
  }

  /** The new reference of an update, whether the update reached it or not. */
  lemma MadeByUpdate(m: Memory, n: Memory, ret: int, id: int, query: Option<NodeQuery>, set_: Properties, removed: set<Key>)
    requires var asked := AskedIn(m, id, query); var made := PublishedBy(m.g, m.refs.Keys, id, query, asked);
             && ret == (if TargetsIn(m, id, query).Some? then 0 else -1)
             && (ret == -1 ==> forall i :: i in made ==> Denoted(n, i) == Arranged(m.g, query.value, asked))
             && (ret == 0 ==> Denoted(n, TargetId(m.refs.Keys, id, query)) == TargetsIn(m, id, query).value)
    ensures forall i :: i in UpdateNodeEffect(m, id, query, set_, removed).made ==>
              Denoted(n, i) == UpdateNodeEffect(m, id, query, set_, removed).made[i]
  {
  }

  /** Carries out one command. The value an update returns is dropped, so that it only fails by
      an exception. */
  method ProcessQuery(qh: QueryHandler, c: Command) returns (ret: int, raised: bool)
    requires qh.Valid() && TwoCursors(c)
    modifies qh, qh.Footprint()
    ensures fresh(qh.Footprint() - old(qh.Footprint()))
    ensures ret == EffectOf(c, old(Now(qh))).ret && raised == EffectOf(c, old(Now(qh))).raised
    ensures ret < 0 ==> qh.g == old(qh.g) && qh.edges == old(qh.edges)
    ensures !raised ==> qh.Valid() && Follows(c, old(Now(qh)), Now(qh))
  {
    raised := false;
    match c
    case AddNodeCmd(id, tag, props, constraints) => ret := DoAddNode(qh, id, tag, props, constraints);
    case AddEdgeCmd(id, src, dst, tag, props) => ret := DoAddEdge(qh, id, src, dst, tag, props);
    case QueryNodeCmd(q) => ret, raised := DoQueryNode(qh, q);
    case QueryEdgeCmd(e) => ret := DoQueryEdge(qh, e);
    case UpdateNodeCmd(id, query, set_, removed) => ret, raised := DoUpdateNode(qh, id, query, set_, removed);
  }

  /** Has every one of the first `n` commands succeeded and left what it should of what it found? */
  predicate Logged(cmds: seq<Command>, log: seq<Memory>, n: nat) {
    && n <= |cmds| && |log| == n + 1
    && forall k :: 0 <= k < n ==> EffectOf(cmds[k], log[k]).ret >= 0 && Follows(cmds[k], log[k], log[k + 1])
  }

  lemma LogStep(cmds: seq<Command>, log: seq<Memory>, n: nat, m: Memory)
    requires n < |cmds| && Logged(cmds, log, n) && EffectOf(cmds[n], log[n]).ret >= 0 && Follows(cmds[n], log[n], m)
    ensures Logged(cmds, log + [m], n + 1)
  {
    var more := log + [m];
    forall k | 0 <= k < n + 1 ensures EffectOf(cmds[k], more[k]).ret >= 0 && Follows(cmds[k], more[k], more[k + 1]) {
      assert more[k] == log[k] && more[k + 1] == if k < n then log[k + 1] else m;
    }
  }

  /** Runs commands until one fails, then drops the cached cursors. `log` is what the handler
      holds before each command and at the end: every command does exactly what evaluating all
      queries at once would do, leaves every cursor at its first node, and leaves every
      reference's meaning alone unless it is an update that matters to an open candidate. */
  method ProcessQueries(qh: QueryHandler, cmds: seq<Command>) returns (done: nat, ok: bool, ghost log: seq<Memory>)
    requires qh.Valid() && qh.nodes == map[] && forall c :: c in cmds ==> TwoCursors(c)
    modifies qh
    ensures done <= |cmds| && (ok <==> done == |cmds|) && Logged(cmds, log, done)
    ensures log[0] == Memory(old(qh.g), map[], old(qh.edges))
    ensures !ok ==> EffectOf(cmds[done], log[done]).ret < 0
    ensures qh.g == log[done].g && qh.edges == log[done].edges && qh.nodes == map[]
  {
    done, ok := 0, true;
    log := [Now(qh)];
    while done < |cmds|
      invariant done <= |cmds| && qh.Valid() && fresh(qh.Footprint()) && ok
      invariant Logged(cmds, log, done) && log[done] == Now(qh)
      invariant log[0] == Memory(old(qh.g), map[], old(qh.edges))
      decreases |cmds| - done
    {
      var ret, raised := ProcessQuery(qh, cmds[done]);
      if ret < 0 {
        ok := false;
        break;
      }
      LogStep(cmds, log, done, Now(qh));
      log := log + [Now(qh)];
      done := done + 1;
    }
    qh.nodes := map[];
  }

  /** Over any run, a reference, once made, stays and denotes the same sequence for as long as
      every update spares it; commands other than updates always do. */
  lemma {:induction false} ReferencesStay(cmds: seq<Command>, log: seq<Memory>, n: nat, i: int, j: nat, k: nat)
    requires Logged(cmds, log, n) && j <= k <= n && i in log[j].refs
    requires forall l :: j <= l < k ==> Spared(cmds[l], log[l], i)
    ensures i in log[k].refs && Denoted(log[k], i) == Denoted(log[j], i)
    decreases k - j
  {
    if j < k {
      assert Follows(cmds[j], log[j], log[j + 1]);
      ReferencesStay(cmds, log, n, i, j + 1, k);
    }
  }
}
