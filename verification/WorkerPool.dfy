/** The pool of worker threads behind the request queue: one mutex, one condition variable and
    a queue into which shutdown pushes a sentinel. The model is a step relation over the
    interleavings of any number of workers, of callers that add connections and of callers
    that shut the pool down. What a caller or a worker does under the queue's lock without
    waiting is one step; the shutdown flag is written without the lock, so a worker's test of
    the flag and its pop are two steps. */
module WorkerPool {

  type Conn = nat

  /** A queue entry: a connection, or the null pointer that shutdown pushes. */
  datatype Item = Sentinel | Client(conn: Conn)

  /** Where a worker is: contending for the lock, at the queue test or past it with the lock
      held, past the flag test, asleep on the condition variable, with an entry in hand,
      serving a connection, out of its loop. */
  datatype Pc = Contending | Locked | Passed | Popping | Asleep | Holding(item: Item) | Serving(conn: Conn) | Exited

  /** How far a call of shutdown is: flag set, sentinel pushed, everyone notified. */
  datatype Phase = Flagged | Pushed | Notified

  datatype Owner = Nobody | Worker(w: nat)

  datatype State = State(
    queue: seq<Item>,             // _workq
    flag: bool,                   // _shutdown
    owner: Owner,                 // of _mlock
    workers: seq<Pc>,             // _pool
    pending: nat,                 // calls of notify_one still to come
    calls: seq<Phase>,            // calls of shutdown
    connList: seq<Conn>,          // _conn_list
    closed: seq<Conn>,            // deleted connections
    added: seq<Conn>,             // what add_connection was given, in order
    taken: seq<Conn>)             // what workers popped, in order

  function Pool(n: nat): seq<Pc> {
    if n == 0 then [] else Pool(n - 1) + [Contending]
  }

  function Initial(n: nat): State {
    State([], false, Nobody, Pool(n), 0, [], [], [], [], [])
  }

  /** `Wake` is a notification reaching a sleeping worker, `Lose` one that finds none asleep,
      `Spurious` a wakeup without a notification. A shutdown call's own notify_one counts as
      pending like the others, so it may also come after its notify_all. */
  datatype Step =
    | Add(c: Conn) | Wake(w: nat) | Lose | Spurious(w: nat)
    | Lock(w: nat) | TestQueue(w: nat) | TestFlag(w: nat) | Pop(w: nat) | Register(w: nat) | Close(w: nat)
    | SetFlag | PushSentinel(k: nat) | NotifyAll(k: nat)

  predicate Is(s: State, w: nat, pc: Pc) { w < |s.workers| && s.workers[w] == pc }

  predicate Enabled(s: State, t: Step) {
    match t
    case Add(c) => s.owner == Nobody && c !in s.added
    case Wake(w) => s.pending > 0 && Is(s, w, Asleep)
    case Lose => s.pending > 0 && Asleep !in s.workers
    case Spurious(w) => Is(s, w, Asleep)
    case Lock(w) => s.owner == Nobody && Is(s, w, Contending)
    case TestQueue(w) => Is(s, w, Locked)
    case TestFlag(w) => Is(s, w, Passed)
    case Pop(w) => Is(s, w, Popping) && s.queue != []
    case Register(w) => w < |s.workers| && s.workers[w].Holding?
    case Close(w) => w < |s.workers| && s.workers[w].Serving?
    case SetFlag => true
    case PushSentinel(k) => s.owner == Nobody && k < |s.calls| && s.calls[k] == Flagged
    case NotifyAll(k) => k < |s.calls| && s.calls[k] == Pushed
  }

  function Erase(xs: seq<Conn>, c: Conn): seq<Conn> {
    if xs == [] then [] else if xs[0] == c then xs[1..] else [xs[0]] + Erase(xs[1..], c)
  }

  /** The connections among queue entries. */
  function Clients(q: seq<Item>): seq<Conn> {
    if q == [] then [] else Clients(q[..|q| - 1]) + if q[|q| - 1].Client? then [q[|q| - 1].conn] else []
  }

  function WakeAll(ws: seq<Pc>): (r: seq<Pc>)
    ensures |r| == |ws|
  {
    if ws == [] then []
    else WakeAll(ws[..|ws| - 1]) + [if ws[|ws| - 1] == Asleep then Contending else ws[|ws| - 1]]
  }

  function Next(s: State, t: Step): State
    requires Enabled(s, t)
  {
    match t
    case Add(c) => s.(queue := s.queue + [Client(c)], pending := s.pending + 1, added := s.added + [c])
    case Wake(w) => s.(pending := s.pending - 1, workers := s.workers[w := Contending])
    case Lose => s.(pending := s.pending - 1)
    case Spurious(w) => s.(workers := s.workers[w := Contending])
    case Lock(w) => s.(owner := Worker(w), workers := s.workers[w := Locked])
    case TestQueue(w) =>
      if s.queue == [] then s.(owner := Nobody, workers := s.workers[w := Asleep])
      else s.(workers := s.workers[w := Passed])
    case TestFlag(w) =>
      if s.flag then s.(owner := Nobody, workers := s.workers[w := Exited])
      else s.(workers := s.workers[w := Popping])
    case Pop(w) =>
      s.(queue := s.queue[1..], owner := Nobody, workers := s.workers[w := Holding(s.queue[0])],
         taken := s.taken + Clients(s.queue[..1]))
    case Register(w) =>
      match s.workers[w].item {
        case Sentinel => s.(workers := s.workers[w := Contending])
        case Client(c) => s.(connList := [c] + s.connList, workers := s.workers[w := Serving(c)])
      }
    case Close(w) =>
      var c := s.workers[w].conn;
      s.(connList := Erase(s.connList, c), closed := s.closed + [c], workers := s.workers[w := Contending])
    case SetFlag => s.(flag := true, calls := s.calls + [Flagged])
    case PushSentinel(k) =>
      s.(queue := s.queue + [Sentinel], pending := s.pending + 1, calls := s.calls[k := Pushed])
    case NotifyAll(k) => s.(workers := WakeAll(s.workers), calls := s.calls[k := Notified])
  }

  ghost predicate Possible(s: State, run: seq<Step>)
    decreases |run|
  {
    run == [] || (Enabled(s, run[0]) && Possible(Next(s, run[0]), run[1..]))
  }

  ghost function After(s: State, run: seq<Step>): State
    requires Possible(s, run)
    decreases |run|
  {
    if run == [] then s else After(Next(s, run[0]), run[1..])
  }

  // ------------------------------------------------------------ counting workers

  /** What a worker is counted for; `Effort` is how many steps it has left once the sentinel
      is in the queue. */
  datatype What = Sleeping | Awake | Owning(c: Conn) | ServingOf(c: Conn) | Effort

  function Weight(pc: Pc, what: What): nat {
    match what
    case Sleeping => if pc == Asleep then 1 else 0
    case Awake => if pc in {Contending, Locked, Passed, Popping} then 1 else 0
    case Owning(c) => if pc == Holding(Client(c)) || pc == Serving(c) then 1 else 0
    case ServingOf(c) => if pc == Serving(c) then 1 else 0
    case Effort =>
      match pc {
        case Exited => 0
        case Passed => 1
        case Locked => 2
        case Contending => 3
        case Serving(_) => 4
        case Asleep => 4
        case Holding(_) => 5
        case Popping => 6
      }
  }

  function Tally(ws: seq<Pc>, what: What): nat {
    if ws == [] then 0 else Tally(ws[..|ws| - 1], what) + Weight(ws[|ws| - 1], what)
  }

  lemma {:induction false} TallyUpdate(ws: seq<Pc>, w: nat, pc: Pc, what: What)
    requires w < |ws|
    ensures Tally(ws[w := pc], what) + Weight(ws[w], what) == Tally(ws, what) + Weight(pc, what)
  {
    var front := ws[..|ws| - 1];
    if w < |ws| - 1 {
      TallyUpdate(front, w, pc, what);
      assert ws[w := pc][..|ws| - 1] == front[w := pc];
    } else {
      assert ws[w := pc][..|ws| - 1] == front;
    }
  }

  lemma {:induction false} TallyBound(ws: seq<Pc>, w: nat, what: What)
    requires w < |ws|
    ensures Tally(ws, what) >= Weight(ws[w], what)
  {
    if w < |ws| - 1 { TallyBound(ws[..|ws| - 1], w, what); }
  }

  lemma {:induction false} TallyZero(ws: seq<Pc>)
    requires Asleep !in ws
    ensures Tally(ws, Sleeping) == 0
  {
    if ws != [] { TallyZero(ws[..|ws| - 1]); }
  }

  lemma {:induction false} WakeAllAt(ws: seq<Pc>, w: nat)
    requires w < |ws|
    ensures WakeAll(ws)[w] == if ws[w] == Asleep then Contending else ws[w]
  {
    if w < |ws| - 1 { WakeAllAt(ws[..|ws| - 1], w); }
  }

  lemma {:induction false} WakeAllTally(ws: seq<Pc>, what: What)
    requires !what.Awake? && !what.Sleeping?
    ensures what.Effort? || Tally(WakeAll(ws), what) == Tally(ws, what)
    ensures Tally(WakeAll(ws), what) <= Tally(ws, what)
  {
    if ws != [] {
      var n := |ws| - 1;
      WakeAllTally(ws[..n], what);
      assert WakeAll(ws)[..n] == WakeAll(ws[..n]);
    }
  }

  lemma {:induction false} PoolContends(n: nat, what: What)
    ensures |Pool(n)| == n && forall w :: 0 <= w < n ==> Pool(n)[w] == Contending
    ensures what.Effort? || what.Awake? || Tally(Pool(n), what) == 0
  {
    if n > 0 {
      PoolContends(n - 1, what);
      assert Pool(n)[..n - 1] == Pool(n - 1);
    }
  }

  lemma {:induction false} EraseCount(xs: seq<Conn>, c: Conn, d: Conn)
    ensures multiset(Erase(xs, c))[d] == multiset(xs)[d] - if c == d && c in xs then 1 else 0
  {
    if xs != [] {
      assert xs == [xs[0]] + xs[1..];
      if xs[0] != c { EraseCount(xs[1..], c, d); }
    }
  }

  // ----------------------------------------------------------------- invariant

  predicate Inside(pc: Pc) { pc in {Locked, Passed, Popping} }

  ghost predicate Mutex(s: State) {
    && (forall w :: 0 <= w < |s.workers| && Inside(s.workers[w]) ==> s.owner == Worker(w))
    && (s.owner.Worker? ==> s.owner.w < |s.workers| && Inside(s.workers[s.owner.w]))
  }

  /** No worker gets hold of the sentinel: one that is about to pop saw the flag clear while
      holding the lock, when the sentinel could not have been in the queue. */
  ghost predicate SentinelSafe(s: State) {
    && (Sentinel in s.queue || s.calls != [] ==> s.flag)
    && (forall w :: 0 <= w < |s.workers| ==>
         match s.workers[w]
         case Passed => s.queue != []
         case Popping => s.queue != [] && Sentinel !in s.queue
         case Holding(item) => item.Client?
         case _ => true)
  }

  ghost predicate ShutdownSeen(s: State) {
    && (forall k :: 0 <= k < |s.calls| && s.calls[k] != Flagged ==> Sentinel in s.queue)
    && (Notified in s.calls ==> Asleep !in s.workers)
    && (Exited in s.workers ==> s.flag)
  }

  /** Where a connection is, summed over all places. */
  function Places(s: State, c: Conn): nat {
    multiset(s.queue)[Client(c)] + Tally(s.workers, Owning(c)) + multiset(s.closed)[c]
  }

  ghost predicate Conserved(s: State) {
    forall c :: Places(s, c) == (if c in s.added then 1 else 0) && multiset(s.connList)[c] == Tally(s.workers, ServingOf(c))
  }

  /** Until shutdown, either no worker sleeps or there are enough awake workers and pending
      notifications for the whole queue. */
  ghost predicate NoLostWakeup(s: State) {
    !s.flag ==> Tally(s.workers, Sleeping) == 0 || |s.queue| <= s.pending + Tally(s.workers, Awake)
  }

  /** What was added is what was taken and then what is queued. */
  ghost predicate InOrder(s: State) { s.added == s.taken + Clients(s.queue) }

  ghost predicate Inv(s: State) {
    Mutex(s) && SentinelSafe(s) && ShutdownSeen(s) && Conserved(s) && NoLostWakeup(s) && InOrder(s)
  }

  lemma InitialInv(n: nat)
    ensures Inv(Initial(n))
  {
    PoolContends(n, Sleeping);
    forall c ensures Tally(Pool(n), Owning(c)) == 0 && Tally(Pool(n), ServingOf(c)) == 0 {
      PoolContends(n, Owning(c));
      PoolContends(n, ServingOf(c));
    }
  }

  lemma KeepMutex(s: State, t: Step)
    requires Mutex(s) && Enabled(s, t)
    ensures Mutex(Next(s, t))
  {
    if t.NotifyAll? {
      forall w | 0 <= w < |s.workers| ensures Inside(WakeAll(s.workers)[w]) <==> Inside(s.workers[w]) {
        WakeAllAt(s.workers, w);
      }
    }
  }

  lemma KeepSentinelSafe(s: State, t: Step)
    requires Mutex(s) && SentinelSafe(s) && Enabled(s, t)
    ensures SentinelSafe(Next(s, t))
  {
    if t.NotifyAll? {
      forall w | 0 <= w < |s.workers|
        ensures WakeAll(s.workers)[w] == if s.workers[w] == Asleep then Contending else s.workers[w]
      {
        WakeAllAt(s.workers, w);
      }
    }
  }

  lemma KeepShutdownSeen(s: State, t: Step)
    requires Mutex(s) && SentinelSafe(s) && ShutdownSeen(s) && Enabled(s, t)
    ensures ShutdownSeen(Next(s, t))
  {
    if t.NotifyAll? {
      forall w | 0 <= w < |s.workers| ensures WakeAll(s.workers)[w] != Asleep {
        WakeAllAt(s.workers, w);
      }
    }
  }

  /** The worker a step moves, if it moves just one. */
  function Moved(t: Step): int {
    match t
    case Wake(w) => w
    case Spurious(w) => w
    case Lock(w) => w
    case TestQueue(w) => w
    case TestFlag(w) => w
    case Pop(w) => w
    case Register(w) => w
    case Close(w) => w
    case _ => -1
  }

  lemma TallyStep(s: State, t: Step, what: What)
    requires Enabled(s, t) && Moved(t) >= 0
    ensures var n := Next(s, t).workers; var w := Moved(t);
            |n| == |s.workers| && w < |n| &&
            Tally(n, what) + Weight(s.workers[w], what) == Tally(s.workers, what) + Weight(n[w], what)
  {
    var n := Next(s, t).workers;
    var w := Moved(t);
    TallyUpdate(s.workers, w, n[w], what);
    assert n == s.workers[w := n[w]];
  }

  lemma KeepConserved(s: State, t: Step)
    requires SentinelSafe(s) && Conserved(s) && Enabled(s, t)
    ensures Conserved(Next(s, t))
  {
    var n := Next(s, t);
    forall c
      ensures Places(n, c) == (if c in n.added then 1 else 0)
      ensures multiset(n.connList)[c] == Tally(n.workers, ServingOf(c))
    {
      KeepPlaces(s, t, c);
      KeepConnList(s, t, c);
    }
  }

  lemma KeepPlaces(s: State, t: Step, c: Conn)
    requires SentinelSafe(s) && Conserved(s) && Enabled(s, t)
    ensures Places(Next(s, t), c) == if c in Next(s, t).added then 1 else 0
  {
    assert Places(s, c) == if c in s.added then 1 else 0;
    QueueStep(s, t, c);
    OwningStep(s, t, c);
    ClosedStep(s, t, c);
  }

  lemma OwningStep(s: State, t: Step, c: Conn)
    requires Enabled(s, t)
    ensures Tally(Next(s, t).workers, Owning(c)) + (if t.Close? && s.workers[t.w] == Serving(c) then 1 else 0)
         == Tally(s.workers, Owning(c)) + if t.Pop? && s.queue[0] == Client(c) then 1 else 0
  {
    if Moved(t) >= 0 {
      TallyStep(s, t, Owning(c));
    } else if t.NotifyAll? {
      WakeAllTally(s.workers, Owning(c));
    }
  }

  lemma QueueStep(s: State, t: Step, c: Conn)
    requires Enabled(s, t)
    ensures multiset(Next(s, t).queue)[Client(c)] + (if t.Pop? && s.queue[0] == Client(c) then 1 else 0)
         == multiset(s.queue)[Client(c)] + if t == Add(c) then 1 else 0
  {
    if t.Pop? { assert s.queue == [s.queue[0]] + s.queue[1..]; }
  }

  lemma ClosedStep(s: State, t: Step, c: Conn)
    requires Enabled(s, t)
    ensures multiset(Next(s, t).closed)[c]
         == multiset(s.closed)[c] + if t.Close? && s.workers[t.w] == Serving(c) then 1 else 0
  {
  }

  lemma KeepConnList(s: State, t: Step, c: Conn)
    requires SentinelSafe(s) && Conserved(s) && Enabled(s, t)
    ensures multiset(Next(s, t).connList)[c] == Tally(Next(s, t).workers, ServingOf(c))
  {
    assert Places(s, c) == if c in s.added then 1 else 0;
    if t.Close? {
      EraseCount(s.connList, s.workers[t.w].conn, c);
      TallyBound(s.workers, t.w, ServingOf(c));
    }
    if Moved(t) >= 0 {
      TallyStep(s, t, ServingOf(c));
    } else if t.NotifyAll? {
      WakeAllTally(s.workers, ServingOf(c));
    }
  }

  lemma KeepNoLostWakeup(s: State, t: Step)
    requires Mutex(s) && SentinelSafe(s) && NoLostWakeup(s) && Enabled(s, t)
    ensures NoLostWakeup(Next(s, t))
  {
    if Moved(t) >= 0 {
      TallyStep(s, t, Sleeping);
      TallyStep(s, t, Awake);
    } else if t.Lose? {
      TallyZero(s.workers);
    }
  }

  lemma {:induction false} ClientsJoin(a: seq<Item>, b: seq<Item>)
    ensures Clients(a + b) == Clients(a) + Clients(b)
  {
    if b == [] {
      assert a + b == a;
    } else {
      var n := |b| - 1;
      assert (a + b)[..|a| + n] == a + b[..n];
      ClientsJoin(a, b[..n]);
    }
  }

  lemma KeepInOrder(s: State, t: Step)
    requires InOrder(s) && Enabled(s, t)
    ensures InOrder(Next(s, t))
  {
    match t
    case Add(c) => ClientsPush(s.queue, Client(c));
    case PushSentinel(_) => ClientsPush(s.queue, Sentinel);
    case Pop(_) => ClientsPop(s.queue, s.taken);
    case _ =>
  }

  lemma ClientsPush(q: seq<Item>, item: Item)
    ensures Clients(q + [item]) == Clients(q) + if item.Client? then [item.conn] else []
  {
    assert (q + [item])[..|q|] == q;
  }

  lemma ClientsPop(q: seq<Item>, taken: seq<Conn>)
    requires q != []
    ensures taken + Clients(q) == (taken + Clients(q[..1])) + Clients(q[1..])
  {
    ClientsJoin(q[..1], q[1..]);
    assert q == q[..1] + q[1..];
  }

  lemma Keep(s: State, t: Step)
    requires Inv(s) && Enabled(s, t)
    ensures Inv(Next(s, t))
  {
    KeepMutex(s, t);
    KeepSentinelSafe(s, t);
    KeepShutdownSeen(s, t);
    KeepConserved(s, t);
    KeepNoLostWakeup(s, t);
    KeepInOrder(s, t);
  }

  lemma {:induction false} KeepRun(s: State, run: seq<Step>)
    requires Inv(s) && Possible(s, run)
    ensures Inv(After(s, run))
    decreases |run|
  {
    if run != [] {
      Keep(s, run[0]);
      KeepRun(Next(s, run[0]), run[1..]);
    }
  }

  // --------------------------------------------------------------- main results

  /** In every reachable state no worker holds the sentinel. */
  lemma SentinelNeverTaken(n: nat, run: seq<Step>, w: nat)
    requires Possible(Initial(n), run) && w < |After(Initial(n), run).workers|
    ensures After(Initial(n), run).workers[w] != Holding(Sentinel)
  {
    InitialInv(n);
    KeepRun(Initial(n), run);
  }

  /** In every reachable state each added connection is in exactly one place (queued, with one
      worker, closed), and the connection list holds exactly those being served. */
  lemma OnePlaceEach(n: nat, run: seq<Step>, c: Conn)
    requires Possible(Initial(n), run)
    ensures var s := After(Initial(n), run);
            && Places(s, c) == (if c in s.added then 1 else 0)
            && multiset(s.connList)[c] == Tally(s.workers, ServingOf(c))
  {
    InitialInv(n);
    KeepRun(Initial(n), run);
  }

  /** Connections are taken in the order in which they were added, and until a sentinel is pushed
      the queue is what was added and not yet taken. */
  lemma TakenInOrder(n: nat, run: seq<Step>)
    requires Possible(Initial(n), run)
    ensures var s := After(Initial(n), run);
            && s.taken <= s.added
            && (Sentinel !in s.queue ==>
                  && |s.queue| == |s.added| - |s.taken|
                  && forall i :: 0 <= i < |s.queue| ==> s.queue[i] == Client(s.added[|s.taken| + i]))
  {
    InitialInv(n);
    KeepRun(Initial(n), run);
    var s := After(Initial(n), run);
    if Sentinel !in s.queue { AllClients(s.queue); }
  }

  lemma {:induction false} AllClients(q: seq<Item>)
    requires Sentinel !in q
    ensures |Clients(q)| == |q| && forall i :: 0 <= i < |q| ==> q[i] == Client(Clients(q)[i])
  {
    if q != [] {
      AllClients(q[..|q| - 1]);
      assert q[|q| - 1] in q;
    }
  }

  /** Before shutdown, a connection waits while a worker sleeps only if a notification is on
      its way or another worker is awake. */
  lemma NobodySleepsOverWork(n: nat, run: seq<Step>)
    requires Possible(Initial(n), run)
    ensures var s := After(Initial(n), run);
            !s.flag && s.queue != [] && s.pending == 0 && Tally(s.workers, Awake) == 0 ==> Asleep !in s.workers
  {
    InitialInv(n);
    KeepRun(Initial(n), run);
    var s := After(Initial(n), run);
    if Asleep in s.workers {
      var w :| 0 <= w < |s.workers| && s.workers[w] == Asleep;
      TallyBound(s.workers, w, Sleeping);
    }
  }

  lemma {:induction false} NobodyAwake(ws: seq<Pc>)
    requires forall w :: 0 <= w < |ws| ==> ws[w] !in {Contending, Locked, Passed, Popping}
    ensures Tally(ws, Awake) == 0
  {
    if ws != [] { NobodyAwake(ws[..|ws| - 1]); }
  }

  /** Before shutdown the pool never gets stuck over a waiting connection: as long as one is
      queued, a notification can be delivered, or a worker that is not asleep can go on. */
  lemma WorkGoesOn(n: nat, run: seq<Step>) returns (t: Step)
    requires Possible(Initial(n), run)
    requires var s := After(Initial(n), run); !s.flag && s.queue != [] && s.workers != []
    ensures Enabled(After(Initial(n), run), t)
    ensures t.Wake? || t.Lose? || t.Lock? || t.TestQueue? || t.TestFlag? || t.Pop? || t.Register? || t.Close?
  {
    InitialInv(n);
    KeepRun(Initial(n), run);
    t := GoOn(After(Initial(n), run));
  }

  lemma GoOn(s: State) returns (t: Step)
    requires Inv(s) && !s.flag && s.queue != [] && s.workers != []
    ensures Enabled(s, t)
    ensures t.Wake? || t.Lose? || t.Lock? || t.TestQueue? || t.TestFlag? || t.Pop? || t.Register? || t.Close?
  {
    if s.pending > 0 {
      t := Lose;
      if Asleep in s.workers {
        var w :| 0 <= w < |s.workers| && s.workers[w] == Asleep;
        t := Wake(w);
      }
    } else if s.owner.Worker? {
      t := Turn(s.workers[s.owner.w], s.owner.w);
    } else if Contending in s.workers {
      var w :| 0 <= w < |s.workers| && s.workers[w] == Contending;
      t := Lock(w);
    } else {
      NobodyAwake(s.workers);
      assert s.workers[0] in s.workers;
      TallyBound(s.workers, 0, Sleeping);
      t := Turn(s.workers[0], 0);
    }
  }

  /** Steps of workers, as opposed to callers; both kinds of wakeup belong to them. */
  function Moves(run: seq<Step>): nat {
    if run == [] then 0 else (if Moved(run[0]) >= 0 then 1 else 0) + Moves(run[1..])
  }

  lemma WithSentinelStep(s: State, t: Step)
    requires Inv(s) && Sentinel in s.queue && Enabled(s, t)
    ensures s.queue <= Next(s, t).queue
    ensures Tally(Next(s, t).workers, Effort) + (if Moved(t) >= 0 then 1 else 0) <= Tally(s.workers, Effort)
    ensures Asleep !in s.workers ==> Asleep !in Next(s, t).workers
  {
    if Moved(t) >= 0 {
      TallyStep(s, t, Effort);
    } else if t.NotifyAll? {
      WakeAllTally(s.workers, Effort);
      KeepShutdownSeen(s, t);
      assert Next(s, t).calls[t.k] == Notified;
    }
  }

  /** Once the sentinel is in the queue, nothing leaves the queue any more, and the workers
      together take only as many steps as `Effort` says. */
  lemma {:induction false} SentinelEndsWork(s: State, run: seq<Step>)
    requires Inv(s) && Sentinel in s.queue && Possible(s, run)
    ensures s.queue <= After(s, run).queue
    ensures Moves(run) + Tally(After(s, run).workers, Effort) <= Tally(s.workers, Effort)
    ensures Asleep !in s.workers ==> Asleep !in After(s, run).workers
    decreases |run|
  {
    if run != [] {
      WithSentinelStep(s, run[0]);
      Keep(s, run[0]);
      SentinelEndsWork(Next(s, run[0]), run[1..]);
    }
  }

  /** What a worker does when its turn comes. */
  function Turn(pc: Pc, w: nat): Step {
    match pc
    case Contending => Lock(w)
    case Locked => TestQueue(w)
    case Passed => TestFlag(w)
    case Popping => Pop(w)
    case Asleep => Spurious(w)
    case Holding(_) => Register(w)
    case _ => Close(w)
  }

  /** As long as some worker has not left its loop after notify_all, some worker can move. */
  lemma NoDeadlock(s: State, w: nat) returns (t: Step)
    requires Inv(s) && Notified in s.calls && w < |s.workers| && s.workers[w] != Exited
    ensures Enabled(s, t) && Moved(t) >= 0
  {
    var v := if s.owner.Worker? then s.owner.w else w;
    t := Turn(s.workers[v], v);
  }

  /** Shutdown: from any reachable state in which a shutdown call has notified everyone, no
      worker sleeps or will sleep, the queue keeps its entries for ever, the workers can take
      only finitely many more steps, and when they can take none they have all exited. */
  lemma ShutdownCompletes(n: nat, run: seq<Step>, more: seq<Step>)
    requires Possible(Initial(n), run) && Notified in After(Initial(n), run).calls
    requires Possible(After(Initial(n), run), more)
    ensures var s := After(Initial(n), run); var e := After(s, more);
            && s.queue != [] && s.queue <= e.queue
            && Asleep !in e.workers
            && Moves(more) <= Tally(s.workers, Effort)
            && ((forall t: Step :: Enabled(e, t) ==> Moved(t) < 0) ==> forall w :: 0 <= w < |e.workers| ==> e.workers[w] == Exited)
  {
    var s := After(Initial(n), run);
    InitialInv(n);
    KeepRun(Initial(n), run);
    SentinelEndsWork(s, more);
    var e := After(s, more);
    KeepRun(s, more);
    NotifiedStays(s, more);
    if forall t: Step :: Enabled(e, t) ==> Moved(t) < 0 {
      forall w | 0 <= w < |e.workers| ensures e.workers[w] == Exited {
        if e.workers[w] != Exited { var t := NoDeadlock(e, w); }
      }
    }
  }

  lemma {:induction false} NotifiedStays(s: State, run: seq<Step>)
    requires Possible(s, run) && Notified in s.calls
    ensures Notified in After(s, run).calls
    decreases |run|
  {
    if run != [] {
      var k :| 0 <= k < |s.calls| && s.calls[k] == Notified;
      assert Next(s, run[0]).calls[k] == Notified;
      NotifiedStays(Next(s, run[0]), run[1..]);
    }
  }

  /** Between visits to the queue without an entry in hand, or out of the loop. */
  predicate Unoccupied(pc: Pc) { pc in {Contending, Locked, Passed, Asleep, Exited} }

  lemma StaysUnoccupied(s: State, t: Step, w: nat)
    requires Inv(s) && Sentinel in s.queue && Enabled(s, t) && w < |s.workers| && Unoccupied(s.workers[w])
    ensures var n := Next(s, t);
            w < |n.workers| && Unoccupied(n.workers[w]) && (s.workers[w] == Exited ==> n.workers[w] == Exited)
  {
    if t.NotifyAll? { WakeAllAt(s.workers, w); }
  }

  /** Once the sentinel is in the queue, a worker without an entry in hand never gets one again,
      whatever the others do: its next visit to the queue can only end in its exit. */
  lemma {:induction false} NextVisitExits(s: State, run: seq<Step>, w: nat)
    requires Inv(s) && Sentinel in s.queue && Possible(s, run) && w < |s.workers| && Unoccupied(s.workers[w])
    ensures var e := After(s, run);
            w < |e.workers| && Unoccupied(e.workers[w]) && (s.workers[w] == Exited ==> e.workers[w] == Exited)
    decreases |run|
  {
    if run != [] {
      StaysUnoccupied(s, run[0], w);
      WithSentinelStep(s, run[0]);
      Keep(s, run[0]);
      NextVisitExits(Next(s, run[0]), run[1..], w);
    }
  }

  /** The same from the start: after any run that has pushed the sentinel and any further one. */
  lemma NextVisitExitsAfter(n: nat, run: seq<Step>, more: seq<Step>, w: nat)
    requires Possible(Initial(n), run) && Possible(After(Initial(n), run), more)
    requires var s := After(Initial(n), run); Sentinel in s.queue && w < |s.workers| && Unoccupied(s.workers[w])
    ensures var e := After(After(Initial(n), run), more); w < |e.workers| && Unoccupied(e.workers[w])
  {
    InitialInv(n);
    KeepRun(Initial(n), run);
    NextVisitExits(After(Initial(n), run), more, w);
  }
}
