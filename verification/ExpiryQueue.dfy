/** The queue of nodes that expire, which outlives transactions: ordered by expiry time,
    extended when a node with an expiry time is added, searched when a node is purged and
    swept from the front. Transactions commit; a node's address may be used again once the
    node is removed. */
module ExpiryQueue {

  type Node = nat
  type Time = nat

  datatype Entry = Entry(expiry: Time, node: Node)

  /** The queue, the nodes in the database, and the expiry times of those that expire. */
  datatype Store = Store(queue: seq<Entry>, nodes: set<Node>, expiry: map<Node, Time>)

  datatype Op = Add(node: Node) | AddExpiring(node: Node, at: Time) | Purge(node: Node) | Sweep(now: Time)

  predicate Sorted(q: seq<Entry>) {
    forall i, j :: 0 <= i < j < |q| ==> q[i].expiry <= q[j].expiry
  }

  function Count(q: seq<Entry>, e: Entry): nat {
    if q == [] then 0 else (if q[0] == e then 1 else 0) + Count(q[1..], e)
  }

  lemma {:induction false} CountJoin(a: seq<Entry>, b: seq<Entry>, e: Entry)
    ensures Count(a + b, e) == Count(a, e) + Count(b, e)
  {
    if a == [] {
      assert a + b == b;
    } else {
      CountJoin(a[1..], b, e);
      assert (a + b)[1..] == a[1..] + b;
    }
  }

  lemma {:induction false} CountIn(q: seq<Entry>, e: Entry)
    ensures Count(q, e) > 0 <==> e in q
  {
    if q != [] { CountIn(q[1..], e); }
  }

  // ------------------------------------------------------------- specification

  /** Where the search from the back, now at index `i`, puts an entry. */
  function Before(q: seq<Entry>, at: Time, i: nat): (r: nat)
    requires i < |q|
    ensures r <= |q|
  {
    if i == 0 then (if at < q[0].expiry then 0 else 1)
    else if q[i].expiry < at then i + 1
    else Before(q, at, i - 1)
  }

  function Position(q: seq<Entry>, at: Time): (r: nat)
    ensures r <= |q|
  {
    if q == [] || at >= q[|q| - 1].expiry then |q| else Before(q, at, |q| - 1)
  }

  function Insert(q: seq<Entry>, e: Entry): seq<Entry> {
    var i := Position(q, e.expiry);
    q[..i] + [e] + q[i..]
  }

  /** The queue without the first entry of a node. */
  function Delete(q: seq<Entry>, n: Node): seq<Entry> {
    if q == [] then [] else if q[0].node == n then q[1..] else [q[0]] + Delete(q[1..], n)
  }

  /** The queue without the leading entries that have expired. */
  function Swept(q: seq<Entry>, now: Time): (r: seq<Entry>)
    ensures |r| <= |q|
  {
    if q != [] && q[0].expiry < now then Swept(q[1..], now) else q
  }

  /** The entries that have expired, wherever they are. */
  function Expired(q: seq<Entry>, now: Time): (r: seq<Entry>)
    ensures |r| <= |q|
  {
    if q == [] then [] else (if q[0].expiry < now then [q[0]] else []) + Expired(q[1..], now)
  }

  function Nodes(q: seq<Entry>): set<Node> { set e | e in q :: e.node }

  /** Nodes are added once and purged while they exist. */
  predicate Enabled(s: Store, op: Op) {
    match op
    case Add(n) => n !in s.nodes
    case AddExpiring(n, _) => n !in s.nodes
    case Purge(n) => n in s.nodes
    case Sweep(_) => true
  }

  /** What the operations do to the queue and the database. */
  function Next(s: Store, op: Op): Store
    requires Enabled(s, op)
  {
    match op
    case Add(n) => s.(nodes := s.nodes + {n})
    case AddExpiring(n, at) => Store(Insert(s.queue, Entry(at, n)), s.nodes + {n}, s.expiry[n := at])
    case Purge(n) => Store(Delete(s.queue, n), s.nodes - {n}, s.expiry - {n})
    case Sweep(now) =>
      var gone := Nodes(s.queue[..|s.queue| - |Swept(s.queue, now)|]);
      Store(Swept(s.queue, now), s.nodes - gone, s.expiry - gone)
  }

  ghost predicate Possible(s: Store, run: seq<Op>)
    decreases |run|
  {
    run == [] || (Enabled(s, run[0]) && Possible(Next(s, run[0]), run[1..]))
  }

  ghost function After(s: Store, run: seq<Op>): Store
    requires Possible(s, run)
    decreases |run|
  {
    if run == [] then s else After(Next(s, run[0]), run[1..])
  }

  /** The queue is sorted and has exactly one entry, with the right time, for every node that
      expires, and no other entry. */
  ghost predicate Inv(s: Store) {
    && Sorted(s.queue)
    && s.expiry.Keys <= s.nodes
    && forall e: Entry :: Count(s.queue, e) == if e.node in s.expiry && s.expiry[e.node] == e.expiry then 1 else 0
  }

  // ------------------------------------------------------------------ insertion

  /** The search from the back finds a place with nothing later before it and nothing earlier
      after it; only the front entry may have the same time and stay before it. */
  lemma {:induction false} BeforeFits(q: seq<Entry>, at: Time, i: nat)
    requires Sorted(q) && i < |q| && forall k :: i < k < |q| ==> at <= q[k].expiry
    ensures var p := Before(q, at, i);
            && (forall k :: 0 <= k < p ==> q[k].expiry <= at)
            && (forall k :: p <= k < |q| ==> at <= q[k].expiry)
            && (forall k :: 1 <= k < p ==> q[k].expiry < at)
  {
    if i > 0 && q[i].expiry >= at { BeforeFits(q, at, i - 1); }
  }

  lemma InsertKeeps(q: seq<Entry>, e: Entry)
    requires Sorted(q)
    ensures Sorted(Insert(q, e))
  {
    var p := Position(q, e.expiry);
    if q != [] && e.expiry < q[|q| - 1].expiry { BeforeFits(q, e.expiry, |q| - 1); }
    SortedJoin(q[..p], [e]);
    SortedJoin(q[..p] + [e], q[p..]);
  }

  lemma InsertCount(q: seq<Entry>, e: Entry, d: Entry)
    ensures Count(Insert(q, e), d) == Count(q, d) + if d == e then 1 else 0
  {
    var p := Position(q, e.expiry);
    CountJoin(q[..p] + [e], q[p..], d);
    CountJoin(q[..p], [e], d);
    CountJoin(q[..p], q[p..], d);
    assert q == q[..p] + q[p..];
    assert Count([e], d) == (if e == d then 1 else 0) + Count([], d);
  }

  lemma SortedJoin(a: seq<Entry>, b: seq<Entry>)
    requires Sorted(a) && Sorted(b) && (a != [] && b != [] ==> a[|a| - 1].expiry <= b[0].expiry)
    ensures Sorted(a + b)
  {
    if a != [] && b != [] {
      forall i, j | 0 <= i < |a| && 0 <= j < |b| ensures a[i].expiry <= b[j].expiry {
        assert a[i].expiry <= a[|a| - 1].expiry && b[0].expiry <= b[j].expiry;
      }
    }
  }

  // ------------------------------------------------------------------- deletion

  lemma {:induction false} DeleteAbsent(q: seq<Entry>, n: Node)
    requires forall e :: e in q ==> e.node != n
    ensures Delete(q, n) == q
  {
    if q != [] { DeleteAbsent(q[1..], n); }
  }

  lemma {:induction false} DeletePresent(q: seq<Entry>, n: Node, i: nat)
    requires i < |q| && q[i].node == n && forall k :: 0 <= k < i ==> q[k].node != n
    ensures Delete(q, n) == q[..i] + q[i + 1..]
  {
    if i > 0 {
      DeletePresent(q[1..], n, i - 1);
      assert q[..i] == [q[0]] + q[1..][..i - 1];
    }
  }

  lemma {:induction false} DeleteSorted(q: seq<Entry>, n: Node)
    requires Sorted(q)
    ensures Sorted(Delete(q, n)) && forall e :: e in Delete(q, n) ==> e in q
  {
    if q != [] && q[0].node != n {
      var rest := Delete(q[1..], n);
      DeleteSorted(q[1..], n);
      assert rest != [] ==> rest[0] in q[1..];
      SortedJoin([q[0]], rest);
    }
  }

  /** One entry goes: the first of that node. */
  lemma {:induction false} DeleteCount(q: seq<Entry>, e: Entry, d: Entry)
    requires e in q && forall o :: o in q && o.node == e.node ==> o == e
    ensures Count(Delete(q, e.node), d) == Count(q, d) - if d == e then 1 else 0
  {
    if q[0] != e { DeleteCount(q[1..], e, d); }
  }

  // ---------------------------------------------------------------------- sweep

  lemma {:induction false} SweptSuffix(q: seq<Entry>, now: Time)
    ensures |Swept(q, now)| <= |q| && Swept(q, now) == q[|q| - |Swept(q, now)|..]
    ensures forall k :: 0 <= k < |q| - |Swept(q, now)| ==> q[k].expiry < now
    ensures Swept(q, now) != [] ==> Swept(q, now)[0].expiry >= now
  {
    if q != [] && q[0].expiry < now { SweptSuffix(q[1..], now); }
  }

  lemma NodesStep(q: seq<Entry>, k: nat)
    requires k < |q|
    ensures Nodes(q[..k + 1]) == Nodes(q[..k]) + {q[k].node}
  {
    assert q[..k + 1] == q[..k] + [q[k]];
  }

  lemma {:induction false} NoneExpired(q: seq<Entry>, now: Time)
    requires forall k :: 0 <= k < |q| ==> q[k].expiry >= now
    ensures Expired(q, now) == []
  {
    if q != [] { NoneExpired(q[1..], now); }
  }

  /** On a sorted queue the sweep takes exactly the expired entries. */
  lemma {:induction false} SweepIsExact(q: seq<Entry>, now: Time)
    requires Sorted(q)
    ensures q == Expired(q, now) + Swept(q, now)
    ensures forall e :: e in Swept(q, now) <==> e in q && e.expiry >= now
  {
    if q != [] && q[0].expiry < now {
      SweepIsExact(q[1..], now);
    } else {
      NoneExpired(q, now);
    }
  }

  // ------------------------------------------------------------------- all runs

  lemma KeepAdd(s: Store, n: Node, at: Time)
    requires Inv(s) && n !in s.nodes
    ensures Inv(Next(s, AddExpiring(n, at)))
  {
    var e := Entry(at, n);
    InsertKeeps(s.queue, e);
    forall d: Entry ensures Count(Insert(s.queue, e), d) == Count(s.queue, d) + if d == e then 1 else 0 {
      InsertCount(s.queue, e, d);
    }
  }

  /** The queue's entry for a node is the node's expiry time. */
  lemma EntryIs(s: Store, e: Entry)
    requires Inv(s)
    ensures e in s.queue <==> e.node in s.expiry && s.expiry[e.node] == e.expiry
  {
    CountIn(s.queue, e);
  }

  lemma KeepPurge(s: Store, n: Node)
    requires Inv(s) && n in s.nodes
    ensures Inv(Next(s, Purge(n)))
  {
    DeleteSorted(s.queue, n);
    forall e | e in s.queue ensures e.node in s.expiry && s.expiry[e.node] == e.expiry {
      EntryIs(s, e);
    }
    if n in s.expiry {
      var e := Entry(s.expiry[n], n);
      EntryIs(s, e);
      forall d: Entry ensures Count(Delete(s.queue, n), d) == Count(s.queue, d) - if d == e then 1 else 0 {
        DeleteCount(s.queue, e, d);
      }
    } else {
      DeleteAbsent(s.queue, n);
    }
  }

  lemma KeepSweep(s: Store, now: Time)
    requires Inv(s)
    ensures Inv(Next(s, Sweep(now)))
    ensures forall n :: n in Next(s, Sweep(now)).expiry <==> n in s.expiry && s.expiry[n] >= now
    ensures forall n :: n in Next(s, Sweep(now)).nodes <==> n in s.nodes && (n in s.expiry ==> s.expiry[n] >= now)
  {
    var kept := Swept(s.queue, now);
    SweptSuffix(s.queue, now);
    var gone := s.queue[..|s.queue| - |kept|];
    assert s.queue == gone + kept;
    forall n ensures n in Nodes(gone) <==> n in s.expiry && s.expiry[n] < now {
      GoneExactly(s, now, n, gone, kept);
    }
    forall e: Entry
      ensures Count(kept, e) == if e.node in s.expiry && s.expiry[e.node] == e.expiry >= now then 1 else 0
    {
      KeptOnce(s, now, e, gone, kept);
    }
  }

  lemma KeptOnce(s: Store, now: Time, e: Entry, gone: seq<Entry>, kept: seq<Entry>)
    requires Inv(s) && s.queue == gone + kept && kept == Swept(s.queue, now)
    requires forall k :: 0 <= k < |gone| ==> gone[k].expiry < now
    ensures Count(kept, e) == if e.node in s.expiry && s.expiry[e.node] == e.expiry >= now then 1 else 0
  {
    SweepIsExact(s.queue, now);
    CountJoin(gone, kept, e);
    CountIn(gone, e);
    CountIn(kept, e);
  }

  lemma GoneExactly(s: Store, now: Time, n: Node, gone: seq<Entry>, kept: seq<Entry>)
    requires Inv(s) && s.queue == gone + kept && kept == Swept(s.queue, now)
    requires forall k :: 0 <= k < |gone| ==> gone[k].expiry < now
    ensures n in Nodes(gone) <==> n in s.expiry && s.expiry[n] < now
  {
    SweepIsExact(s.queue, now);
    if n in s.expiry {
      var e := Entry(s.expiry[n], n);
      EntryIs(s, e);
      assert e in gone ==> n in Nodes(gone);
    }
    forall e | e in gone && e.node == n ensures n in s.expiry && s.expiry[n] < now {
      EntryIs(s, e);
    }
  }

  lemma Keep(s: Store, op: Op)
    requires Inv(s) && Enabled(s, op)
    ensures Inv(Next(s, op))
  {
    match op
    case Add(_) =>
    case AddExpiring(n, at) => KeepAdd(s, n, at);
    case Purge(n) => KeepPurge(s, n);
    case Sweep(now) => KeepSweep(s, now);
  }

  /** Over every run the queue stays sorted with exactly one entry per live expiring node. */
  lemma {:induction false} KeepRun(s: Store, run: seq<Op>)
    requires Inv(s) && Possible(s, run)
    ensures Inv(After(s, run))
    decreases |run|
  {
    if run != [] {
      Keep(s, run[0]);
      KeepRun(Next(s, run[0]), run[1..]);
    }
  }

  /** A sweep after any run removes exactly the nodes that have expired. */
  lemma SweepAfterRun(run: seq<Op>, now: Time)
    requires Possible(Store([], {}, map[]), run)
    ensures var s := After(Store([], {}, map[]), run); var e := Next(s, Sweep(now));
            && (forall n :: n in e.nodes <==> n in s.nodes && (n in s.expiry ==> s.expiry[n] >= now))
            && e.queue == s.queue[|Expired(s.queue, now)|..]
  {
    var start := Store([], {}, map[]);
    assert Inv(start);
    KeepRun(start, run);
    var s := After(start, run);
    KeepSweep(s, now);
    SweepIsExact(s.queue, now);
  }

  /** No operation of the run removes a node that expires at `at`. */
  predicate Leaves(run: seq<Op>, n: Node, at: Time) {
    forall k :: 0 <= k < |run| ==> run[k] != Purge(n) && (run[k].Sweep? ==> run[k].now <= at)
  }

  lemma {:induction false} RunLeaves(s: Store, n: Node, at: Time, run: seq<Op>)
    requires Inv(s) && Possible(s, run) && n in s.expiry && s.expiry[n] == at && Leaves(run, n, at)
    ensures n in After(s, run).expiry && After(s, run).expiry[n] == at
    decreases |run|
  {
    if run != [] {
      var op := run[0];
      Keep(s, op);
      if op.Sweep? { KeepSweep(s, op.now); }
      RunLeaves(Next(s, op), n, at, run[1..]);
    }
  }

  /** A node that is added with an expiry time keeps its one queue entry, with that time, until it
      is purged or a later sweep comes by; a sweep removes it exactly if its time is later. */
  lemma ExpiresAtItsTime(before: seq<Op>, n: Node, at: Time, later: seq<Op>, now: Time)
    requires Possible(Store([], {}, map[]), before)
    requires Enabled(After(Store([], {}, map[]), before), AddExpiring(n, at))
    requires Possible(Next(After(Store([], {}, map[]), before), AddExpiring(n, at)), later) && Leaves(later, n, at)
    ensures var s := After(Next(After(Store([], {}, map[]), before), AddExpiring(n, at)), later);
            && n in s.nodes
            && (forall e :: e in s.queue && e.node == n ==> e.expiry == at) && Count(s.queue, Entry(at, n)) == 1
            && (n in Next(s, Sweep(now)).nodes <==> now <= at)
  {
    var start := Store([], {}, map[]);
    assert Inv(start);
    KeepRun(start, before);
    var added := Next(After(start, before), AddExpiring(n, at));
    Keep(After(start, before), AddExpiring(n, at));
    RunLeaves(added, n, at, later);
    KeepRun(added, later);
    var s := After(added, later);
    forall e | e in s.queue ensures e.node == n ==> e.expiry == at { EntryIs(s, e); }
    KeepSweep(s, now);
  }

  // ------------------------------------------------------------- implementation

  class AutoDelete {
    var queue: seq<Entry>
    var nodes: set<Node>
    ghost var expiry: map<Node, Time>

    ghost function State(): Store
      reads this
    {
      Store(queue, nodes, expiry)
    }

    constructor ()
      ensures State() == Store([], {}, map[])
    {
      queue, nodes, expiry := [], {}, map[];
    }

    method InsertIntoQueue(e: Entry)
      modifies this`queue
      ensures queue == Insert(old(queue), e)
    {
      if queue == [] {
        queue := [e];
      } else if e.expiry >= queue[|queue| - 1].expiry {
        queue := queue + [e];
      } else {
        var it := |queue| - 1;
        var inserted := false;
        while it != 0 && !inserted
          invariant 0 <= it < |old(queue)|
          invariant if inserted then queue == Insert(old(queue), e)
                    else queue == old(queue) && Position(queue, e.expiry) == Before(queue, e.expiry, it)
        {
          if queue[it].expiry < e.expiry {
            queue := queue[..it + 1] + [e] + queue[it + 1..];
            inserted := true;
          }
          it := it - 1;
        }
        if !inserted {
          if e.expiry < queue[0].expiry {
            queue := [e] + queue;
          } else {
            queue := queue[..1] + [e] + queue[1..];
          }
        }
      }
    }

    method DeleteByValue(n: Node)
      modifies this`queue
      ensures queue == Delete(old(queue), n)
    {
      var it := 0;
      while it < |queue|
        invariant 0 <= it <= |queue|
        invariant queue == old(queue)
        invariant forall k :: 0 <= k < it ==> queue[k].node != n
      {
        if queue[it].node == n {
          DeletePresent(queue, n, it);
          queue := queue[..it] + queue[it + 1..];
          return;
        }
        it := it + 1;
      }
      DeleteAbsent(queue, n);
    }

    method AddNode(n: Node, expiring: bool, at: Time)
      requires n !in nodes
      modifies this
      ensures State() == Next(old(State()), if expiring then AddExpiring(n, at) else Add(n))
    {
      nodes := nodes + {n};
      if expiring {
        InsertIntoQueue(Entry(at, n));
        expiry := expiry[n := at];
      }
    }

    method PurgeNode(n: Node)
      requires n in nodes
      modifies this
      ensures State() == Next(old(State()), Purge(n))
    {
      DeleteByValue(n);
      nodes := nodes - {n};
      expiry := expiry - {n};
    }

    /** Removes the node at the front from the database and from the queue. */
    method RemoveFront()
      requires queue != []
      modifies this
      ensures queue == old(queue)[1..]
      ensures nodes == old(nodes) - {old(queue)[0].node} && expiry == old(expiry) - {old(queue)[0].node}
    {
      nodes := nodes - {queue[0].node};
      expiry := expiry - {queue[0].node};
      queue := queue[1..];
    }

    method DeleteExpiredNodes(now: Time)
      modifies this
      ensures State() == Next(old(State()), Sweep(now))
    {
      ghost var q := queue;
      SweptSuffix(q, now);
      ghost var k, gone := 0, {};
      var thisTime: Time := 0;
      assert q[0..] == q;
      while thisTime < now && queue != []
        invariant 0 <= k <= |q| && queue == q[k..]
        invariant Swept(queue, now) == Swept(q, now)
        invariant thisTime >= now > 0 ==> queue != [] && thisTime == queue[0].expiry
        invariant gone == Nodes(q[..k]) && nodes == old(nodes) - gone && expiry == old(expiry) - gone
        decreases |queue|, now - thisTime
      {
        var front := queue[0];
        thisTime := front.expiry;
        if thisTime < now {
          NodesStep(q, k);
          RemoveFront();
          gone := gone + {front.node};
          k := k + 1;
          if queue != [] {
            thisTime := queue[0].expiry;
          }
        }
      }
      SweptSuffix(queue, now);
      assert k == |q| - |Swept(q, now)|;
    }
  }
}
