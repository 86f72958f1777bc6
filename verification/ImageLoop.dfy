/** The image event loop: a producer, a local thread and a remote thread hand images to each
    other through two write buffers. The model is a step relation over their interleavings;
    every write-buffer access is one step (it is done under a lock), every unlocked read of
    the stop test is a step of its own. Runs are error-free: no operation fails and every
    remote reply decodes to an image. */
module ImageLoop {

  type Pixels = seq<int>
  type Id = string

  datatype Op = Local(code: nat) | Remote(code: nat)

  /** `transform` is what an operation does to pixels, locally or at the remote server. */
  datatype Config = Config(ops: seq<Op>, inputs: seq<Input>, transform: (Op, Pixels) -> Pixels)

  /** An image as the producer has it; enqueueing it makes a copy with nothing done. */
  datatype Input = Input(id: Id, pixels: Pixels)

  /** `done` counts completed operations: it is the position in the operation list. */
  datatype Image = Image(id: Id, pixels: Pixels, done: nat)

  /** Where the local thread is: waiting for work, inside a batch (`flag` tells whether it
      sent an image to the remote thread), at the three reads of the stop test, stopped. */
  datatype LocalPc = Waiting | Working(flag: bool) | ReadRemote | ReadMain | ReadRemoteBuffer | Stopping

  /** Where the remote thread is: idle, has taken a batch, is serving it (`updated` tells
      whether the first image in hand is already replied to). */
  datatype RemotePc = Idle | Taken | Serving(updated: bool)

  /** `quiet` is a note, made when the stop test finds the main buffer empty: had everything
      been enqueued by then, and had the remote thread nothing in hand? */
  datatype State = State(
    sent: nat,                    // images the producer has enqueued
    mainBuffer: seq<Image>,       // m_writeBuffer
    localBatch: seq<Image>,       // what is left of the local thread's readBuffer
    remoteBuffer: seq<Image>,     // r_writeBuffer
    hands: seq<Image>,            // what is left of the remote thread's readBuffer
    finished: seq<Image>,         // images the local thread has dropped as complete
    imageMap: map<Id, Image>,
    running: bool,                // m_running and r_running, which change together
    remoteRunning: bool,
    lpc: LocalPc,
    rpc: RemotePc,
    round: nat,                   // remote batches taken so far
    quiet: bool)

  function Initial(): State {
    State(0, [], [], [], [], [], map[], true, false, Waiting, Idle, 0, false)
  }

  datatype Step =
    | Enqueue                     // producer
    | SwapMain | RunLocal | SendRemote | Drop | EndBatch
    | TestRemote | TestMain | TestRemoteBuffer | Stop
    | SwapRemote | BeginServing | Reply | HandBack | EndServing

  predicate Complete(c: Config, img: Image) { img.done >= |c.ops| }

  predicate Enabled(c: Config, s: State, t: Step) {
    match t
    case Enqueue => s.sent < |c.inputs|
    case SwapMain => s.lpc == Waiting && s.running && s.mainBuffer != []
    case RunLocal => s.lpc.Working? && s.localBatch != [] && !Complete(c, s.localBatch[0]) && c.ops[s.localBatch[0].done].Local?
    case SendRemote => s.lpc.Working? && s.localBatch != [] && !Complete(c, s.localBatch[0]) && c.ops[s.localBatch[0].done].Remote?
    case Drop => s.lpc.Working? && s.localBatch != [] && Complete(c, s.localBatch[0])
    case EndBatch => s.lpc.Working? && s.localBatch == []
    case TestRemote => s.lpc == ReadRemote
    case TestMain => s.lpc == ReadMain
    case TestRemoteBuffer => s.lpc == ReadRemoteBuffer
    case Stop => s.lpc == Stopping
    case SwapRemote => s.rpc == Idle && s.running && s.remoteBuffer != [] && |s.remoteBuffer| == |c.inputs|
    case BeginServing => s.rpc == Taken
    case Reply => s.rpc == Serving(false) && s.hands != [] && s.hands[0].done < |c.ops|
    case HandBack => s.rpc == Serving(true) && s.hands != []
    case EndServing => s.rpc == Serving(false) && s.hands == []
  }

  function Advance(c: Config, img: Image): Image
    requires img.done < |c.ops|
  {
    Image(img.id, c.transform(c.ops[img.done], img.pixels), img.done + 1)
  }

  function Next(c: Config, s: State, t: Step): State
    requires Enabled(c, s, t)
  {
    match t
    case Enqueue => s.(sent := s.sent + 1, mainBuffer := s.mainBuffer + [Image(c.inputs[s.sent].id, c.inputs[s.sent].pixels, 0)])
    case SwapMain => s.(mainBuffer := [], localBatch := s.mainBuffer, lpc := Working(false))
    case RunLocal =>
      var img := Advance(c, s.localBatch[0]);
      s.(localBatch := [img] + s.localBatch[1..], imageMap := s.imageMap[img.id := img])
    case SendRemote =>
      s.(localBatch := s.localBatch[1..], remoteBuffer := s.remoteBuffer + [s.localBatch[0]], lpc := Working(true))
    case Drop => s.(localBatch := s.localBatch[1..], finished := s.finished + [s.localBatch[0]])
    case EndBatch => s.(lpc := if s.lpc.flag then Waiting else ReadRemote)
    case TestRemote => s.(lpc := if s.remoteRunning then Waiting else ReadMain)
    case TestMain =>
      s.(lpc := if s.mainBuffer == [] then ReadRemoteBuffer else Waiting,
         quiet := s.sent == |c.inputs| && s.hands == [])
    case TestRemoteBuffer => s.(lpc := if s.remoteBuffer == [] then Stopping else Waiting)
    case Stop => s.(running := false, lpc := Waiting)
    case SwapRemote => s.(remoteBuffer := [], hands := s.remoteBuffer, rpc := Taken, round := s.round + 1)
    case BeginServing => s.(remoteRunning := true, rpc := Serving(false))
    case Reply =>
      var img := Advance(c, s.hands[0]);
      s.(hands := [img] + s.hands[1..], imageMap := s.imageMap[img.id := img], rpc := Serving(true),
         remoteRunning := s.remoteRunning && |s.hands| != 1)
    case HandBack => s.(hands := s.hands[1..], mainBuffer := s.mainBuffer + [s.hands[0]], rpc := Serving(false))
    case EndServing => s.(remoteRunning := false, rpc := Idle)
  }

  // -------------------------------------------------------------------- runs

  ghost predicate Possible(c: Config, s: State, run: seq<Step>)
    decreases |run|
  {
    run == [] || (Enabled(c, s, run[0]) && Possible(c, Next(c, s, run[0]), run[1..]))
  }

  ghost function After(c: Config, s: State, run: seq<Step>): State
    requires Possible(c, s, run)
    decreases |run|
  {
    if run == [] then s else After(c, Next(c, s, run[0]), run[1..])
  }

  /** The first `n` operations applied one after the other. */
  function Fold(c: Config, p: Pixels, n: nat): Pixels
    requires n <= |c.ops|
  {
    if n == 0 then p else c.transform(c.ops[n - 1], Fold(c, p, n - 1))
  }

  /** How many of the first `n` operations are remote. */
  function Remotes(c: Config, n: nat): nat
    requires n <= |c.ops|
  {
    if n == 0 then 0 else Remotes(c, n - 1) + if c.ops[n - 1].Remote? then 1 else 0
  }

  ghost predicate Proper(c: Config) {
    forall i, j :: 0 <= i < j < |c.inputs| ==> c.inputs[i].id != c.inputs[j].id
  }

  /** How many images of a buffer carry `id`. */
  function Count(xs: seq<Image>, id: Id): nat {
    if xs == [] then 0 else (if xs[0].id == id then 1 else 0) + Count(xs[1..], id)
  }

  function InputCount(c: Config, n: nat, id: Id): nat
    requires n <= |c.inputs|
  {
    if n == 0 then 0 else InputCount(c, n - 1, id) + if c.inputs[n - 1].id == id then 1 else 0
  }

  /** The current copies of an image, wherever they are. */
  function Copies(s: State, id: Id): nat {
    Count(s.mainBuffer, id) + Count(s.localBatch, id) + Count(s.remoteBuffer, id) + Count(s.hands, id) + Count(s.finished, id)
  }

  // --------------------------------------------------------------- invariant

  /** An image in flight is what its input becomes after `done` operations, and the result map
      already knows that. */
  ghost predicate Tracked(c: Config, m: map<Id, Image>, img: Image) {
    && img.done <= |c.ops|
    && (forall k :: 0 <= k < |c.inputs| && c.inputs[k].id == img.id ==> img.pixels == Fold(c, c.inputs[k].pixels, img.done))
    && (img.done > 0 ==> img.id in m && m[img.id] == img)
  }

  /** All images of a buffer are tracked and have `r` remote operations behind them. */
  ghost predicate At(c: Config, m: map<Id, Image>, xs: seq<Image>, r: nat) {
    forall i :: 0 <= i < |xs| ==> Tracked(c, m, xs[i]) && Remotes(c, xs[i].done) == r
  }

  /** All images of a buffer wait for a remote operation. */
  ghost predicate AwaitRemote(c: Config, xs: seq<Image>) {
    forall i :: 0 <= i < |xs| ==> xs[i].done < |c.ops| && c.ops[xs[i].done].Remote?
  }

  ghost predicate AllComplete(c: Config, xs: seq<Image>) {
    forall i :: 0 <= i < |xs| ==> Complete(c, xs[i])
  }

  /** The images the remote thread still has to reply to. */
  function Unanswered(s: State): seq<Image> {
    if s.rpc == Serving(true) && s.hands != [] then s.hands[1..] else s.hands
  }

  function Answered(s: State): seq<Image> {
    if s.rpc == Serving(true) && s.hands != [] then s.hands[..1] else []
  }

  /** Every enqueued image has as many current copies as it was enqueued times. */
  ghost predicate Conserved(c: Config, s: State) {
    && s.sent <= |c.inputs|
    && |s.mainBuffer| + |s.localBatch| + |s.remoteBuffer| + |s.hands| + |s.finished| == s.sent
    && forall id :: Copies(s, id) == InputCount(c, s.sent, id)
  }

  /** All images outside the remote thread's hands have completed the same number of remote
      operations, and those it has still to reply to one less. */
  ghost predicate InStep(c: Config, s: State) {
    && At(c, s.imageMap, s.mainBuffer, s.round)
    && At(c, s.imageMap, s.localBatch, s.round)
    && At(c, s.imageMap, s.remoteBuffer, s.round) && AwaitRemote(c, s.remoteBuffer)
    && At(c, s.imageMap, s.finished, s.round) && AllComplete(c, s.finished)
    && At(c, s.imageMap, Answered(s), s.round)
    && (Unanswered(s) != [] ==> s.round > 0)
    && At(c, s.imageMap, Unanswered(s), if s.round > 0 then s.round - 1 else 0) && AwaitRemote(c, Unanswered(s))
  }

  ghost predicate Control(c: Config, s: State) {
    && (s.rpc == Idle ==> s.hands == [])
    && (s.rpc == Serving(true) ==> s.hands != [])
    && (s.round > 0 ==> s.sent == |c.inputs|)
    && (!s.lpc.Working? ==> s.localBatch == [])
    && (s.lpc == Working(false) ==> s.localBatch != [] || s.finished != [])
    && (s.lpc in {ReadRemote, ReadMain, ReadRemoteBuffer, Stopping} ==> s.finished != [])
    && (!s.running ==> s.finished != [])
    && (s.lpc in {ReadRemoteBuffer, Stopping} && s.quiet ==> s.sent == |c.inputs| && s.hands == [] && s.mainBuffer == [])
  }

  /** The flag that the stop test reads first is up as long as a batch has unanswered images, and
      once it was found down there are none. */
  ghost predicate Flagged(c: Config, s: State) {
    && (s.rpc == Taken ==> |s.hands| == |c.inputs|)
    && (s.rpc.Serving? && Unanswered(s) != [] ==> s.remoteRunning)
    && (s.lpc in {ReadMain, ReadRemoteBuffer, Stopping} ==> Unanswered(s) == [])
  }

  ghost predicate Inv(c: Config, s: State) {
    Conserved(c, s) && InStep(c, s) && Control(c, s) && Flagged(c, s)
  }

  // ------------------------------------------------------ facts about buffers

  lemma {:induction false} CountAppend(xs: seq<Image>, img: Image, id: Id)
    ensures Count(xs + [img], id) == Count(xs, id) + if img.id == id then 1 else 0
  {
    if xs != [] {
      CountAppend(xs[1..], img, id);
      assert (xs + [img])[1..] == xs[1..] + [img];
    }
  }

  lemma {:induction false} CountIn(xs: seq<Image>, i: nat)
    requires i < |xs|
    ensures Count(xs, xs[i].id) > 0
  {
    if i > 0 { CountIn(xs[1..], i - 1); }
  }

  lemma {:induction false} InputCountUnique(c: Config, n: nat, id: Id)
    requires Proper(c) && n <= |c.inputs|
    ensures InputCount(c, n, id) == if exists k :: 0 <= k < n && c.inputs[k].id == id then 1 else 0
  {
    if n > 0 { InputCountUnique(c, n - 1, id); }
  }

  /** Recording a new copy of one image leaves the other images tracked. */
  lemma AtKept(c: Config, m: map<Id, Image>, xs: seq<Image>, r: nat, img: Image)
    requires At(c, m, xs, r) && Count(xs, img.id) == 0
    ensures At(c, m[img.id := img], xs, r)
  {
    forall i | 0 <= i < |xs| ensures Tracked(c, m[img.id := img], xs[i]) {
      CountIn(xs, i);
    }
  }

  lemma AtAppend(c: Config, m: map<Id, Image>, xs: seq<Image>, r: nat, img: Image)
    requires At(c, m, xs, r) && Tracked(c, m, img) && Remotes(c, img.done) == r
    ensures At(c, m, xs + [img], r)
  {
  }

  lemma AtTail(c: Config, m: map<Id, Image>, xs: seq<Image>, r: nat)
    requires At(c, m, xs, r) && xs != []
    ensures At(c, m, xs[1..], r) && Tracked(c, m, xs[0]) && Remotes(c, xs[0].done) == r
  {
  }

  /** One operation on a tracked image gives a tracked image. */
  lemma AdvanceTracked(c: Config, m: map<Id, Image>, img: Image)
    requires Tracked(c, m, img) && img.done < |c.ops|
    ensures var n := Advance(c, img);
            Tracked(c, m[n.id := n], n) && Remotes(c, n.done) == Remotes(c, img.done) + if c.ops[img.done].Remote? then 1 else 0
  {
  }

  lemma {:induction false} RemotesMonotone(c: Config, m: nat, n: nat)
    requires m <= n <= |c.ops|
    ensures Remotes(c, m) <= Remotes(c, n)
    ensures m < n && c.ops[m].Remote? ==> Remotes(c, m) < Remotes(c, n)
  {
    if m < n { RemotesMonotone(c, m, n - 1); }
  }

  /** Two positions that are each at a remote operation with as many behind them are equal. */
  lemma SameStop(c: Config, m: nat, n: nat)
    requires m < |c.ops| && n < |c.ops| && c.ops[m].Remote? && c.ops[n].Remote?
    requires Remotes(c, m) == Remotes(c, n)
    ensures m == n
  {
    if m < n { RemotesMonotone(c, m, n); }
    if n < m { RemotesMonotone(c, n, m); }
  }

  /** Once an image is finished, no image waits for a remote operation any more. */
  lemma FinishedMeansNoRemote(c: Config, s: State)
    requires InStep(c, s) && s.finished != []
    ensures s.remoteBuffer == []
  {
    var last := s.finished[0];
    assert Tracked(c, s.imageMap, last) && Complete(c, last) && Remotes(c, |c.ops|) == s.round;
    if s.remoteBuffer != [] {
      var waiting := s.remoteBuffer[0];
      assert Tracked(c, s.imageMap, waiting) && Remotes(c, waiting.done) == s.round;
      RemotesMonotone(c, waiting.done, |c.ops|);
    }
  }

  // --------------------------------------------- preservation of conservation

  lemma KeepCopies(c: Config, s: State, t: Step, id: Id)
    requires s.sent <= |c.inputs| && Enabled(c, s, t)
    requires t == SwapMain ==> s.localBatch == []
    requires t == SwapRemote ==> s.hands == []
    ensures var n := Next(c, s, t);
            Copies(n, id) == Copies(s, id) + InputCount(c, n.sent, id) - InputCount(c, s.sent, id)
  {
    var n := Next(c, s, t);
    match t
    case Enqueue => CountAppend(s.mainBuffer, Image(c.inputs[s.sent].id, c.inputs[s.sent].pixels, 0), id);
    case RunLocal => assert n.localBatch[1..] == s.localBatch[1..];
    case SendRemote => CountAppend(s.remoteBuffer, s.localBatch[0], id);
    case Drop => CountAppend(s.finished, s.localBatch[0], id);
    case Reply => assert n.hands[1..] == s.hands[1..];
    case HandBack => CountAppend(s.mainBuffer, s.hands[0], id);
    case _ =>
  }

  lemma KeepConserved(c: Config, s: State, t: Step)
    requires Conserved(c, s) && Control(c, s) && Enabled(c, s, t)
    ensures Conserved(c, Next(c, s, t))
  {
    var n := Next(c, s, t);
    forall id ensures Copies(n, id) == InputCount(c, n.sent, id) {
      KeepCopies(c, s, t, id);
    }
  }

  // ------------------------------------------------ preservation of the order

  /** An image that is being worked on has no other copy. */
  lemma NoOtherCopy(c: Config, s: State, id: Id)
    requires Proper(c) && Conserved(c, s)
    ensures Copies(s, id) <= 1
  {
    InputCountUnique(c, s.sent, id);
  }

  lemma KeepInStepEnqueue(c: Config, s: State)
    requires Proper(c) && Inv(c, s) && Enabled(c, s, Enqueue)
    ensures InStep(c, Next(c, s, Enqueue))
  {
    var img := Image(c.inputs[s.sent].id, c.inputs[s.sent].pixels, 0);
    assert Tracked(c, s.imageMap, img);
    AtAppend(c, s.imageMap, s.mainBuffer, 0, img);
  }

  lemma KeepInStepLocal(c: Config, s: State, t: Step)
    requires InStep(c, s) && Control(c, s) && Enabled(c, s, t) && t in {SendRemote, Drop}
    ensures InStep(c, Next(c, s, t))
  {
    var img := s.localBatch[0];
    AtTail(c, s.imageMap, s.localBatch, s.round);
    AtAppend(c, s.imageMap, s.remoteBuffer, s.round, img);
    AtAppend(c, s.imageMap, s.finished, s.round, img);
  }

  lemma CountSplit(s: State, id: Id)
    requires s.rpc == Serving(true) ==> s.hands != []
    ensures Count(s.hands, id) == Count(Answered(s), id) + Count(Unanswered(s), id)
  {
    if s.rpc == Serving(true) {
      assert Answered(s)[1..] == [];
    }
  }

  /** The copies kept elsewhere survive the update of the result map. */
  lemma OthersKept(c: Config, s: State, img: Image)
    requires InStep(c, s) && (s.rpc == Serving(true) ==> s.hands != [])
    requires Count(s.mainBuffer, img.id) == 0 && Count(s.remoteBuffer, img.id) == 0 && Count(s.finished, img.id) == 0
    ensures At(c, s.imageMap[img.id := img], s.mainBuffer, s.round)
    ensures At(c, s.imageMap[img.id := img], s.remoteBuffer, s.round)
    ensures At(c, s.imageMap[img.id := img], s.finished, s.round)
  {
    AtKept(c, s.imageMap, s.mainBuffer, s.round, img);
    AtKept(c, s.imageMap, s.remoteBuffer, s.round, img);
    AtKept(c, s.imageMap, s.finished, s.round, img);
  }

  lemma AtPrepend(c: Config, m: map<Id, Image>, img: Image, xs: seq<Image>, r: nat)
    requires At(c, m, xs, r) && Tracked(c, m, img) && Remotes(c, img.done) == r
    ensures At(c, m, [img] + xs, r)
  {
  }

  lemma KeepInStepRunLocal(c: Config, s: State)
    requires Proper(c) && Inv(c, s) && Enabled(c, s, RunLocal)
    ensures InStep(c, Next(c, s, RunLocal))
  {
    var img := Advance(c, s.localBatch[0]);
    NoOtherCopy(c, s, img.id);
    CountSplit(s, img.id);
    AtTail(c, s.imageMap, s.localBatch, s.round);
    AdvanceTracked(c, s.imageMap, s.localBatch[0]);
    OthersKept(c, s, img);
    AtKept(c, s.imageMap, s.localBatch[1..], s.round, img);
    AtPrepend(c, s.imageMap[img.id := img], img, s.localBatch[1..], s.round);
    AtKept(c, s.imageMap, Answered(s), s.round, img);
    AtKept(c, s.imageMap, Unanswered(s), if s.round > 0 then s.round - 1 else 0, img);
  }

  lemma KeepInStepReply(c: Config, s: State)
    requires Proper(c) && Inv(c, s) && Enabled(c, s, Reply)
    ensures InStep(c, Next(c, s, Reply))
  {
    var img := Advance(c, s.hands[0]);
    NoOtherCopy(c, s, img.id);
    AtTail(c, s.imageMap, s.hands, s.round - 1);
    AdvanceTracked(c, s.imageMap, s.hands[0]);
    OthersKept(c, s, img);
    AtKept(c, s.imageMap, s.localBatch, s.round, img);
    AtKept(c, s.imageMap, s.hands[1..], s.round - 1, img);
    var n := Next(c, s, Reply);
    assert Answered(n) == [img] && Unanswered(n) == s.hands[1..];
    assert c.ops[s.hands[0].done].Remote?;
  }

  lemma KeepInStepHandBack(c: Config, s: State)
    requires InStep(c, s) && Control(c, s) && Enabled(c, s, HandBack)
    ensures InStep(c, Next(c, s, HandBack))
  {
    AtTail(c, s.imageMap, Answered(s), s.round);
    AtAppend(c, s.imageMap, s.mainBuffer, s.round, s.hands[0]);
    assert Unanswered(Next(c, s, HandBack)) == Unanswered(s);
  }

  lemma KeepInStepSwapRemote(c: Config, s: State)
    requires Inv(c, s) && Enabled(c, s, SwapRemote)
    ensures InStep(c, Next(c, s, SwapRemote))
  {
    assert s.mainBuffer == [] && s.localBatch == [] && s.finished == [];
  }

  lemma KeepControl(c: Config, s: State, t: Step)
    requires Inv(c, s) && Enabled(c, s, t)
    ensures Control(c, Next(c, s, t))
  {
  }

  lemma KeepFlagged(c: Config, s: State, t: Step)
    requires Control(c, s) && Flagged(c, s) && Enabled(c, s, t)
    requires |s.mainBuffer| + |s.localBatch| + |s.remoteBuffer| + |s.hands| + |s.finished| == s.sent <= |c.inputs|
    requires s.finished != [] ==> s.remoteBuffer == []
    ensures Flagged(c, Next(c, s, t))
  {
    if t == HandBack { assert Unanswered(Next(c, s, t)) == Unanswered(s); }
  }

  /** Every step of every thread keeps the invariant. */
  lemma Keep(c: Config, s: State, t: Step)
    requires Proper(c) && Inv(c, s) && Enabled(c, s, t)
    ensures Inv(c, Next(c, s, t))
  {
    KeepConserved(c, s, t);
    KeepControl(c, s, t);
    if s.finished != [] { FinishedMeansNoRemote(c, s); }
    KeepFlagged(c, s, t);
    match t
    case Enqueue => KeepInStepEnqueue(c, s);
    case RunLocal => KeepInStepRunLocal(c, s);
    case SendRemote | Drop => KeepInStepLocal(c, s, t);
    case SwapRemote => KeepInStepSwapRemote(c, s);
    case Reply => KeepInStepReply(c, s);
    case HandBack => KeepInStepHandBack(c, s);
    case _ =>
  }

  lemma {:induction false} KeepRun(c: Config, s: State, run: seq<Step>)
    requires Proper(c) && Inv(c, s) && Possible(c, s, run)
    ensures Inv(c, After(c, s, run))
    decreases |run|
  {
    if run != [] {
      Keep(c, s, run[0]);
      KeepRun(c, Next(c, s, run[0]), run[1..]);
    }
  }

  lemma InitialInv(c: Config)
    ensures Inv(c, Initial())
  {
  }

  // ---------------------------------------------------------------- results

  ghost predicate Reached(c: Config, s: State, run: seq<Step>) {
    Possible(c, Initial(), run) && After(c, Initial(), run) == s
  }

  lemma ReachedInv(c: Config, s: State, run: seq<Step>)
    requires Proper(c) && Reached(c, s, run)
    ensures Inv(c, s)
  {
    InitialInv(c);
    KeepRun(c, Initial(), run);
  }

  /** Whatever the interleaving, a finished image is the operation list applied in order, each
      operation once, to what the producer enqueued. */
  lemma FinishedIsFold(c: Config, s: State, run: seq<Step>, i: nat)
    requires Proper(c) && Reached(c, s, run) && i < |s.finished|
    ensures exists k :: 0 <= k < s.sent <= |c.inputs| && c.inputs[k].id == s.finished[i].id
                        && s.finished[i].pixels == Fold(c, c.inputs[k].pixels, |c.ops|)
  {
    ReachedInv(c, s, run);
    var img := s.finished[i];
    CountIn(s.finished, i);
    InputCountUnique(c, s.sent, img.id);
    assert Copies(s, img.id) == InputCount(c, s.sent, img.id);
    var k :| 0 <= k < s.sent && c.inputs[k].id == img.id;
    assert Tracked(c, s.imageMap, img) && Complete(c, img);
  }

  /** The fold is the last of the pixels got by one operation after the other. */
  lemma {:induction false} FoldIsTrace(c: Config, trace: seq<Pixels>, n: nat)
    requires n <= |c.ops| && |trace| > n
    requires forall k :: 0 <= k < n ==> trace[k + 1] == c.transform(c.ops[k], trace[k])
    ensures Fold(c, trace[0], n) == trace[n]
  {
    if n > 0 { FoldIsTrace(c, trace, n - 1); }
  }

  /** When a remote batch is taken it holds all images, each waiting at the same remote
      operation; while it is served, the images not yet replied to stay together. */
  lemma RemoteBatchInStep(c: Config, s: State, run: seq<Step>)
    requires Proper(c) && Reached(c, s, run)
    ensures Enabled(c, s, SwapRemote) ==>
              && |s.remoteBuffer| == |c.inputs|
              && forall i, j :: 0 <= i < j < |s.remoteBuffer| ==> s.remoteBuffer[i].done == s.remoteBuffer[j].done
    ensures forall i, j :: 0 <= i < j < |Unanswered(s)| ==> Unanswered(s)[i].done == Unanswered(s)[j].done
    ensures AwaitRemote(c, s.remoteBuffer) && AwaitRemote(c, Unanswered(s))
  {
    ReachedInv(c, s, run);
    SameStopAll(c, s.imageMap, s.remoteBuffer, s.round);
    SameStopAll(c, s.imageMap, Unanswered(s), if s.round > 0 then s.round - 1 else 0);
  }

  lemma SameStopAll(c: Config, m: map<Id, Image>, xs: seq<Image>, r: nat)
    requires At(c, m, xs, r) && AwaitRemote(c, xs)
    ensures forall i, j :: 0 <= i < j < |xs| ==> xs[i].done == xs[j].done
  {
    forall i, j | 0 <= i < j < |xs| ensures xs[i].done == xs[j].done {
      SameStop(c, xs[i].done, xs[j].done);
    }
  }

  /** Every enqueued image has exactly one current copy, and nothing else has any. */
  lemma OneCopyEach(c: Config, s: State, run: seq<Step>, id: Id)
    requires Proper(c) && Reached(c, s, run)
    ensures Copies(s, id) == if exists k :: 0 <= k < s.sent <= |c.inputs| && c.inputs[k].id == id then 1 else 0
    ensures |s.mainBuffer| + |s.localBatch| + |s.remoteBuffer| + |s.hands| + |s.finished| == s.sent <= |c.inputs|
  {
    ReachedInv(c, s, run);
    InputCountUnique(c, s.sent, id);
  }

  /** The loop never stops while the remote thread has an image to reply to: at a self-stop it
      holds at most one image, and has replied to that one. */
  lemma StopLeavesNothingUnanswered(c: Config, s: State, run: seq<Step>)
    requires Proper(c) && Reached(c, s, run) && Enabled(c, s, Stop)
    ensures s.hands == [] || (|s.hands| == 1 && s.rpc == Serving(true))
    ensures s.remoteBuffer == [] && s.localBatch == []
    ensures |s.finished| + |s.mainBuffer| <= s.sent <= |s.finished| + |s.mainBuffer| + 1
  {
    ReachedInv(c, s, run);
    FinishedMeansNoRemote(c, s);
  }

  /** At a self-stop everything is finished exactly when the producer is done, nothing waits in
      the main buffer and the remote thread has nothing in hand. */
  lemma StopCompletesIff(c: Config, s: State, run: seq<Step>)
    requires Proper(c) && Reached(c, s, run) && Enabled(c, s, Stop)
    ensures |s.finished| == |c.inputs| <==> s.sent == |c.inputs| && s.mainBuffer == [] && s.hands == []
  {
    ReachedInv(c, s, run);
    FinishedMeansNoRemote(c, s);
  }

  /** A stop whose test found the main buffer empty after everything was enqueued and while the
      remote thread had nothing in hand leaves every image finished, and the result map holds
      the complete result of every input. */
  lemma QuietStopCompletes(c: Config, s: State, run: seq<Step>, k: nat)
    requires Proper(c) && Reached(c, s, run) && Enabled(c, s, Stop) && s.quiet && k < |c.inputs|
    ensures |s.finished| == |c.inputs|
    ensures c.ops != [] ==>
              && c.inputs[k].id in s.imageMap
              && s.imageMap[c.inputs[k].id].pixels == Fold(c, c.inputs[k].pixels, |c.ops|)
  {
    ReachedInv(c, s, run);
    StopCompletesIff(c, s, run);
    InputCountUnique(c, s.sent, c.inputs[k].id);
    assert Copies(s, c.inputs[k].id) == InputCount(c, s.sent, c.inputs[k].id) == 1;
    FinishedMeansNoRemote(c, s);
    var i := CountWitness(s.finished, c.inputs[k].id);
    assert Tracked(c, s.imageMap, s.finished[i]) && Complete(c, s.finished[i]);
  }

  lemma {:induction false} CountWitness(xs: seq<Image>, id: Id) returns (i: nat)
    requires Count(xs, id) > 0
    ensures i < |xs| && xs[i].id == id
  {
    if xs[0].id == id {
      i := 0;
    } else {
      i := CountWitness(xs[1..], id);
      i := i + 1;
    }
  }

  lemma {:induction false} Extend(c: Config, s: State, run: seq<Step>, t: Step)
    requires Possible(c, s, run) && Enabled(c, After(c, s, run), t)
    ensures Possible(c, s, run + [t]) && After(c, s, run + [t]) == Next(c, After(c, s, run), t)
    decreases |run|
  {
    if run != [] {
      Extend(c, Next(c, s, run[0]), run[1..], t);
      assert (run + [t])[1..] == run[1..] + [t];
    } else {
      assert ([] + [t])[1..] == [];
    }
  }

  lemma Take(c: Config, s: State, run: seq<Step>, t: Step) returns (n: State, r: seq<Step>)
    requires Reached(c, s, run) && Enabled(c, s, t)
    ensures n == Next(c, s, t) && r == run + [t] && Reached(c, n, r)
  {
    Extend(c, Initial(), run, t);
    n, r := Next(c, s, t), run + [t];
  }

  lemma BothTaken(c: Config) returns (s: State, r: seq<Step>)
    requires c.ops == [Remote(0)] && c.inputs == [Input("a", [1]), Input("b", [2])]
    ensures Reached(c, s, r)
    ensures s == Initial().(sent := 2, hands := [Image("a", [1], 0), Image("b", [2], 0)], rpc := Taken, round := 1)
  {
    s, r := Initial(), [];
    s, r := Take(c, s, r, Enqueue);
    s, r := Take(c, s, r, Enqueue);
    s, r := Take(c, s, r, SwapMain);
    s, r := Take(c, s, r, SendRemote);
    s, r := Take(c, s, r, SendRemote);
    s, r := Take(c, s, r, EndBatch);
    s, r := Take(c, s, r, SwapRemote);
  }

  lemma OneReturned(c: Config) returns (s: State, r: seq<Step>)
    requires c.ops == [Remote(0)] && c.inputs == [Input("a", [1]), Input("b", [2])]
    ensures Reached(c, s, r)
    ensures s.sent == 2 && s.mainBuffer == [] && s.remoteBuffer == [] && |s.finished| == 1 && |s.hands| == 1
    ensures s.hands[0].done == 0 && s.rpc == Serving(false) && s.running && s.lpc == ReadRemote
  {
    s, r := BothTaken(c);
    s, r := Take(c, s, r, BeginServing);
    s, r := Take(c, s, r, Reply);
    s, r := Take(c, s, r, HandBack);
    s, r := Take(c, s, r, SwapMain);
    s, r := Take(c, s, r, Drop);
    s, r := Take(c, s, r, EndBatch);
  }

  /** The stop test is not enough by itself: it can fire while the remote thread is about to
      hand back the last image of a batch, which then is never finished. */
  lemma StopCanLoseAnImage(c: Config) returns (s: State, r: seq<Step>)
    requires c.ops == [Remote(0)] && c.inputs == [Input("a", [1]), Input("b", [2])]
    ensures Reached(c, s, r) && !s.running && s.sent == 2 && |s.finished| == 1 && |s.hands| == 1
  {
    s, r := OneReturned(c);
    s, r := Take(c, s, r, Reply);
    s, r := Take(c, s, r, TestRemote);
    s, r := Take(c, s, r, TestMain);
    s, r := Take(c, s, r, TestRemoteBuffer);
    s, r := Take(c, s, r, Stop);
  }

  // ------------------------------------------------------------ every run ends

  /** What is left to do for one image: twenty for each operation, and something for the place. */
  function Left(c: Config, img: Image, place: nat): nat {
    20 * (if img.done < |c.ops| then |c.ops| - img.done else 0) + place
  }

  function AllLeft(c: Config, xs: seq<Image>, place: nat): nat {
    if xs == [] then 0 else Left(c, xs[0], place) + AllLeft(c, xs[1..], place)
  }

  lemma {:induction false} AllLeftAppend(c: Config, xs: seq<Image>, img: Image, place: nat)
    ensures AllLeft(c, xs + [img], place) == AllLeft(c, xs, place) + Left(c, img, place)
  {
    if xs != [] {
      AllLeftAppend(c, xs[1..], img, place);
      assert (xs + [img])[1..] == xs[1..] + [img];
    }
  }

  lemma {:induction false} AllLeftMoves(c: Config, xs: seq<Image>, from: nat, to: nat)
    requires to <= from
    ensures AllLeft(c, xs, from) == AllLeft(c, xs, to) + |xs| * (from - to)
  {
    if xs != [] {
      AllLeftMoves(c, xs[1..], from, to);
      assert |xs| * (from - to) == (|xs| - 1) * (from - to) + (from - to);
    }
  }

  /** What is left to do for `n` images that are still to be enqueued. */
  function Unsent(c: Config, n: nat): nat {
    if n == 0 then 0 else Unsent(c, n - 1) + 20 * |c.ops| + 18
  }

  lemma {:induction false} UnsentIs(c: Config, n: nat)
    ensures Unsent(c, n) == n * (20 * |c.ops| + 18)
  {
    if n > 0 {
      UnsentIs(c, n - 1);
      assert n * (20 * |c.ops| + 18) == (n - 1) * (20 * |c.ops| + 18) + (20 * |c.ops| + 18);
    }
  }

  function LocalLeft(pc: LocalPc): nat {
    match pc case Waiting => 0 case Stopping => 1 case ReadRemoteBuffer => 2 case ReadMain => 3 case ReadRemote => 4 case Working(_) => 5
  }

  function RemoteLeft(pc: RemotePc): nat {
    match pc case Idle => 0 case Taken => 2 case Serving(updated) => if updated then 13 else 1
  }

  /** A bound on the steps that all threads together can still take. */
  function Work(c: Config, s: State): nat
    requires s.sent <= |c.inputs|
  {
    Unsent(c, |c.inputs| - s.sent)
    + AllLeft(c, s.mainBuffer, 17) + AllLeft(c, s.localBatch, 11) + AllLeft(c, s.remoteBuffer, 10) + AllLeft(c, s.hands, 6)
    + LocalLeft(s.lpc) + RemoteLeft(s.rpc)
  }

  lemma LocalWorks(c: Config, s: State, t: Step)
    requires s.sent <= |c.inputs| && Enabled(c, s, t) && t in {RunLocal, SendRemote, Drop, EndBatch, TestRemote, TestMain, TestRemoteBuffer, Stop}
    ensures Work(c, Next(c, s, t)) < Work(c, s)
  {
    match t
    case RunLocal => assert Next(c, s, t).localBatch[1..] == s.localBatch[1..];
    case SendRemote => AllLeftAppend(c, s.remoteBuffer, s.localBatch[0], 10);
    case _ =>
  }

  lemma RemoteWorks(c: Config, s: State, t: Step)
    requires s.sent <= |c.inputs| && Enabled(c, s, t) && t in {BeginServing, Reply, HandBack, EndServing}
    ensures Work(c, Next(c, s, t)) < Work(c, s)
  {
    match t
    case Reply => assert Next(c, s, t).hands[1..] == s.hands[1..];
    case HandBack => AllLeftAppend(c, s.mainBuffer, s.hands[0], 17);
    case _ =>
  }

  lemma BufferWorks(c: Config, s: State, t: Step)
    requires s.sent <= |c.inputs| && Enabled(c, s, t) && t in {Enqueue, SwapMain, SwapRemote}
    requires (t == SwapMain ==> s.localBatch == []) && (t == SwapRemote ==> s.hands == [])
    ensures Next(c, s, t).sent <= |c.inputs| && Work(c, Next(c, s, t)) < Work(c, s)
  {
    match t
    case Enqueue => AllLeftAppend(c, s.mainBuffer, Image(c.inputs[s.sent].id, c.inputs[s.sent].pixels, 0), 17);
    case SwapMain => AllLeftMoves(c, s.mainBuffer, 17, 11);
    case SwapRemote => AllLeftMoves(c, s.remoteBuffer, 10, 6);
  }

  lemma StepWorks(c: Config, s: State, t: Step)
    requires Conserved(c, s) && Control(c, s) && Enabled(c, s, t)
    ensures Next(c, s, t).sent <= |c.inputs| && Work(c, Next(c, s, t)) < Work(c, s)
  {
    if t in {Enqueue, SwapMain, SwapRemote} {
      BufferWorks(c, s, t);
    } else if t in {BeginServing, Reply, HandBack, EndServing} {
      RemoteWorks(c, s, t);
    } else {
      LocalWorks(c, s, t);
    }
  }

  lemma {:induction false} RunWorks(c: Config, s: State, run: seq<Step>)
    requires Proper(c) && Inv(c, s) && Possible(c, s, run)
    ensures After(c, s, run).sent <= |c.inputs| && |run| + Work(c, After(c, s, run)) <= Work(c, s)
    decreases |run|
  {
    if run != [] {
      StepWorks(c, s, run[0]);
      Keep(c, s, run[0]);
      RunWorks(c, Next(c, s, run[0]), run[1..]);
    }
  }

  /** Every run ends, after at most so many steps. */
  lemma EveryRunEnds(c: Config, run: seq<Step>)
    requires Proper(c) && Possible(c, Initial(), run)
    ensures |run| <= |c.inputs| * (20 * |c.ops| + 18)
  {
    InitialInv(c);
    RunWorks(c, Initial(), run);
    UnsentIs(c, |c.inputs|);
  }

  /** When no thread can take a step any more, everything was enqueued and nothing is left in a
      batch or in hand. If the loop has not stopped, every image is finished; if it has stopped,
      only images in the main buffer are unfinished. */
  lemma QuiescentIsDone(c: Config, s: State, run: seq<Step>)
    requires Proper(c) && Reached(c, s, run) && forall t: Step :: !Enabled(c, s, t)
    ensures s.sent == |c.inputs| && s.localBatch == [] && s.hands == []
    ensures s.running ==> |s.finished| == |c.inputs|
    ensures |s.finished| + |s.mainBuffer| == |c.inputs|
  {
    ReachedInv(c, s, run);
    assert !Enabled(c, s, Enqueue) && !Enabled(c, s, SwapMain) && !Enabled(c, s, SwapRemote);
    LocalIsQuiet(c, s);
    RemoteIsQuiet(c, s);
    if s.finished != [] { FinishedMeansNoRemote(c, s); }
  }

  lemma LocalIsQuiet(c: Config, s: State)
    requires Inv(c, s) && forall t: Step :: !Enabled(c, s, t)
    ensures s.lpc == Waiting && s.localBatch == []
  {
    assert !Enabled(c, s, RunLocal) && !Enabled(c, s, SendRemote) && !Enabled(c, s, Drop) && !Enabled(c, s, EndBatch);
    assert !Enabled(c, s, TestRemote) && !Enabled(c, s, TestMain) && !Enabled(c, s, TestRemoteBuffer) && !Enabled(c, s, Stop);
  }

  lemma RemoteIsQuiet(c: Config, s: State)
    requires Inv(c, s) && forall t: Step :: !Enabled(c, s, t)
    ensures s.rpc == Idle && s.hands == []
  {
    assert !Enabled(c, s, BeginServing) && !Enabled(c, s, Reply) && !Enabled(c, s, HandBack) && !Enabled(c, s, EndServing);
  }

  // ------------------------------------------------- batches of remote requests

  /** Range `i` starts where range `i - 1` ends; all but the last have ten elements, and they
      end with `n`. */
  ghost predicate Ranges(bs: seq<(nat, nat)>, n: nat) {
    && (forall i :: 0 <= i < |bs| ==> bs[i] == (10 * i, if 10 * i + 10 < n then 10 * i + 10 else n) && 10 * i < n)
    && n <= 10 * |bs|
  }

  /** How the remote thread cuts the images in hand into groups of requests. */
  method RequestRanges(n: nat) returns (ranges: seq<(nat, nat)>)
    ensures Ranges(ranges, n)
  {
    var start, step := 0, 10;
    var end := if n > step then step else n;
    ranges := [];
    while start != n
      invariant start == (if 10 * |ranges| < n then 10 * |ranges| else n)
      invariant end == if start + step < n then start + step else n
      invariant forall i :: 0 <= i < |ranges| ==> ranges[i] == (10 * i, if 10 * i + 10 < n then 10 * i + 10 else n) && 10 * i < n
      decreases n - start
    {
      ranges := ranges + [(start, end)];
      start := end;
      end := if n > end + step then end + step else n;
    }
  }

  /** Every image of the batch is in exactly one range, and no range has more than ten. */
  lemma RangesPartition(bs: seq<(nat, nat)>, n: nat, x: nat)
    requires Ranges(bs, n) && x < n
    ensures x / 10 < |bs| && bs[x / 10].0 <= x < bs[x / 10].1
    ensures forall i :: 0 <= i < |bs| && bs[i].0 <= x < bs[i].1 ==> i == x / 10
    ensures forall i :: 0 <= i < |bs| ==> bs[i].0 < bs[i].1 <= bs[i].0 + 10
  {
  }
}
