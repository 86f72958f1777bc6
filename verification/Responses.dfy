/** How a request's commands, their blobs, their graph commands and the replies stay aligned:
    the two passes over the commands and the groups of the transaction in between. What a
    command builds, how the graph answers and what a command makes of the replies are
    parameters; the graph's answer may depend on everything it was sent before. */
module Responses {

  import opened Sequences

  type Blob = string
  type Payload = nat
  type Reply = nat
  type Response = nat

  datatype Command = Command(name: nat, needsBlob: bool)

  datatype Kind = TxBegin | TxCommit | Graph(payload: Payload)

  /** A command for the graph and the group its reply belongs to. */
  datatype Cmd = Cmd(kind: Kind, group: nat)

  datatype Construct = Construct(code: int, payloads: seq<Payload>)
  datatype Answer = Answer(reply: Reply, failed: bool)

  /** A command's response; one with a status at the top ends the request. */
  datatype Made = Made(response: Response, hasStatus: bool)

  /** `execute` is given all commands up to the one it answers. */
  datatype Backend = Backend(
    construct: (Command, Blob) -> Construct,
    execute: seq<Cmd> -> Answer,
    respond: (Command, seq<Reply>, Blob) -> Made)

  /** What becomes of the transaction: groups of replies, the reply of the command that failed,
      or nothing at all. */
  datatype TxResponse = Groups(groups: seq<seq<Reply>>) | Failure(reply: Reply) | Unexpected | Nothing

  datatype Result =
    | WrongBlobs(expected: nat, received: nat)
    | NotBuilt(j: nat)
    | TxFailed(tx: TxResponse)
    | BadResponse(j: nat)
    | Answered(responses: seq<Response>)

  // ---------------------------------------------------------------------- blobs

  /** How many of the first `j` commands need a blob. */
  function Needed(request: seq<Command>, j: nat): nat
    requires j <= |request|
  {
    if j == 0 then 0 else Needed(request, j - 1) + if request[j - 1].needsBlob then 1 else 0
  }

  lemma {:induction false} NeededMonotone(request: seq<Command>, i: nat, j: nat)
    requires i <= j <= |request|
    ensures Needed(request, i) <= Needed(request, j)
  {
    if i < j { NeededMonotone(request, i, j - 1); }
  }

  /** The blobs are as many as the commands need. */
  predicate BlobsMatch(request: seq<Command>, blobs: seq<Blob>) { Needed(request, |request|) == |blobs| }

  /** The blob of command `j`: the commands that need one take them in order. */
  function BlobOf(request: seq<Command>, blobs: seq<Blob>, j: nat): Blob
    requires j < |request| && BlobsMatch(request, blobs)
  {
    NeededMonotone(request, j + 1, |request|);
    if request[j].needsBlob then blobs[Needed(request, j)] else ""
  }

  /** Every blob goes to exactly one command. */
  lemma {:induction false} BlobHasOwner(request: seq<Command>, n: nat, i: nat) returns (j: nat)
    requires n <= |request| && i < Needed(request, n)
    ensures j < n && request[j].needsBlob && Needed(request, j) == i
    ensures forall k :: 0 <= k < n && request[k].needsBlob && Needed(request, k) == i ==> k == j
  {
    if i == Needed(request, n - 1) {
      j := n - 1;
      forall k | 0 <= k < n - 1 && request[k].needsBlob ensures Needed(request, k) != i {
        NeededMonotone(request, k + 1, n - 1);
      }
    } else {
      j := BlobHasOwner(request, n - 1, i);
    }
  }

  /** Of one blob per command, those of the commands that need one, in command order. */
  function Handed(request: seq<Command>, given: seq<Blob>): seq<Blob>
    requires |given| == |request|
  {
    if request == [] then []
    else
      var n := |request| - 1;
      Handed(request[..n], given[..n]) + if request[n].needsBlob then [given[n]] else []
  }

  /** Handing out blobs: the commands that need one get, in command order, exactly the blobs that
      were received, and the others get an empty one. */
  ghost predicate HandOut(request: seq<Command>, blobs: seq<Blob>, given: seq<Blob>) {
    && |given| == |request| && Handed(request, given) == blobs
    && forall j :: 0 <= j < |request| && !request[j].needsBlob ==> given[j] == ""
  }

  lemma {:induction false} NeededOfPrefix(request: seq<Command>, n: nat, j: nat)
    requires j <= n <= |request|
    ensures Needed(request[..n], j) == Needed(request, j)
  {
    if j > 0 { NeededOfPrefix(request, n, j - 1); }
  }

  /** The command with index `j` finds its blob behind those handed to the commands before it. */
  lemma {:induction false} HandedAt(request: seq<Command>, given: seq<Blob>, j: nat)
    requires |given| == |request|
    ensures |Handed(request, given)| == Needed(request, |request|)
    ensures j < |request| && request[j].needsBlob ==> Needed(request, j) < |Handed(request, given)| && Handed(request, given)[Needed(request, j)] == given[j]
  {
    if request != [] {
      var n := |request| - 1;
      HandedAt(request[..n], given[..n], j);
      NeededOfPrefix(request, n, n);
      if j < n { NeededOfPrefix(request, n, j); }
    }
  }

  /** Blobs can be handed out exactly if they are as many as the commands need, and then there is
      one way to do so: the one by which each command gets its blob. */
  lemma HandOutIs(request: seq<Command>, blobs: seq<Blob>, given: seq<Blob>)
    ensures HandOut(request, blobs, given) <==>
            BlobsMatch(request, blobs) && |given| == |request| && forall j :: 0 <= j < |request| ==> given[j] == BlobOf(request, blobs, j)
  {
    if |given| == |request| {
      forall j ensures |Handed(request, given)| == Needed(request, |request|)
               ensures 0 <= j < |request| && request[j].needsBlob ==> Needed(request, j) < |Handed(request, given)| && Handed(request, given)[Needed(request, j)] == given[j]
      {
        HandedAt(request, given, if j < 0 then 0 else j);
      }
      if BlobsMatch(request, blobs) && forall j :: 0 <= j < |request| ==> given[j] == BlobOf(request, blobs, j) {
        forall i | 0 <= i < |blobs| ensures Handed(request, given)[i] == blobs[i] {
          var j := BlobHasOwner(request, |request|, i);
          assert given[j] == BlobOf(request, blobs, j);
        }
      }
    }
  }

  lemma HandOutExists(request: seq<Command>, blobs: seq<Blob>)
    ensures BlobsMatch(request, blobs) <==> exists given :: HandOut(request, blobs, given)
  {
    if BlobsMatch(request, blobs) {
      var given := seq(|request|, j requires 0 <= j < |request| => BlobOf(request, blobs, j));
      HandOutIs(request, blobs, given);
    }
    if given :| HandOut(request, blobs, given) { HandOutIs(request, blobs, given); }
  }

  // ------------------------------------------------------------- the transaction

  function Tagged(payloads: seq<Payload>, g: nat): seq<Cmd> {
    if payloads == [] then [] else Tagged(payloads[..|payloads| - 1], g) + [Cmd(Graph(payloads[|payloads| - 1]), g)]
  }

  function Built(b: Backend, request: seq<Command>, blobs: seq<Blob>, j: nat): Construct
    requires j < |request| && BlobsMatch(request, blobs)
  {
    (b.construct)(request[j], BlobOf(request, blobs, j))
  }

  /** The graph commands of the first `j` commands, each command's in a group of its own. */
  function Cmds(b: Backend, request: seq<Command>, blobs: seq<Blob>, j: nat): seq<Cmd>
    requires j <= |request| && BlobsMatch(request, blobs)
  {
    if j == 0 then [Cmd(TxBegin, 0)]
    else Cmds(b, request, blobs, j - 1) + Tagged(Built(b, request, blobs, j - 1).payloads, j)
  }

  /** The whole transaction. */
  function Transaction(b: Backend, request: seq<Command>, blobs: seq<Blob>): seq<Cmd>
    requires BlobsMatch(request, blobs)
  {
    Cmds(b, request, blobs, |request|) + [Cmd(TxCommit, |request| + 1)]
  }

  function At(b: Backend, cmds: seq<Cmd>, k: nat): Answer
    requires k < |cmds|
  {
    (b.execute)(cmds[..k + 1])
  }

  predicate NoneFailed(b: Backend, cmds: seq<Cmd>, n: nat)
    requires n <= |cmds|
  {
    forall k :: 0 <= k < n ==> !At(b, cmds, k).failed
  }

  /** The replies, in order, to those of the first `n` commands that are in group `g`. */
  function InGroup(b: Backend, cmds: seq<Cmd>, n: nat, g: nat): seq<Reply>
    requires n <= |cmds|
  {
    if n == 0 then []
    else InGroup(b, cmds, n - 1, g) + if cmds[n - 1].group == g then [At(b, cmds, n - 1).reply] else []
  }

  /** The replies to the commands from position `from` to position `to`. */
  function Span(b: Backend, cmds: seq<Cmd>, from: nat, to: nat): seq<Reply>
    requires from <= to <= |cmds|
  {
    if from == to then [] else Span(b, cmds, from, to - 1) + [At(b, cmds, to - 1).reply]
  }

  /** Where the graph commands of command `j` start in the transaction. */
  function Start(b: Backend, request: seq<Command>, blobs: seq<Blob>, j: nat): nat
    requires j <= |request| && BlobsMatch(request, blobs)
  {
    |Cmds(b, request, blobs, j)|
  }

  lemma {:induction false} TaggedGroups(payloads: seq<Payload>, g: nat)
    ensures |Tagged(payloads, g)| == |payloads|
    ensures forall k :: 0 <= k < |payloads| ==> Tagged(payloads, g)[k] == Cmd(Graph(payloads[k]), g)
  {
    if payloads != [] { TaggedGroups(payloads[..|payloads| - 1], g); }
  }

  lemma {:induction false} CmdsPrefix(b: Backend, request: seq<Command>, blobs: seq<Blob>, i: nat, j: nat)
    requires i <= j <= |request| && BlobsMatch(request, blobs)
    ensures Cmds(b, request, blobs, i) <= Cmds(b, request, blobs, j)
  {
    if i < j { CmdsPrefix(b, request, blobs, i, j - 1); }
  }

  /** Groups never exceed the command they belong to. */
  lemma {:induction false} GroupsUpTo(b: Backend, request: seq<Command>, blobs: seq<Blob>, j: nat, k: nat)
    requires j <= |request| && BlobsMatch(request, blobs) && k < Start(b, request, blobs, j)
    ensures Cmds(b, request, blobs, j)[k].group <= j
  {
    if j > 0 {
      TaggedGroups(Built(b, request, blobs, j - 1).payloads, j);
      if k < Start(b, request, blobs, j - 1) { GroupsUpTo(b, request, blobs, j - 1, k); }
    }
  }

  /** A position belongs to the group of the command in whose part it lies. */
  lemma {:induction false} GroupAt(b: Backend, request: seq<Command>, blobs: seq<Blob>, i: nat, j: nat, k: nat)
    requires i < j <= |request| && BlobsMatch(request, blobs)
    requires Start(b, request, blobs, i) <= k < Start(b, request, blobs, j)
    ensures i < Cmds(b, request, blobs, j)[k].group <= j
  {
    TaggedGroups(Built(b, request, blobs, j - 1).payloads, j);
    if k < Start(b, request, blobs, j - 1) { GroupAt(b, request, blobs, i, j - 1, k); }
  }

  lemma {:induction false} NotInGroup(b: Backend, cmds: seq<Cmd>, m: nat, n: nat, g: nat)
    requires m <= n <= |cmds| && forall k :: m <= k < n ==> cmds[k].group != g
    ensures InGroup(b, cmds, n, g) == InGroup(b, cmds, m, g)
  {
    if m < n { NotInGroup(b, cmds, m, n - 1, g); }
  }

  lemma {:induction false} AllInGroup(b: Backend, cmds: seq<Cmd>, m: nat, n: nat, g: nat)
    requires m <= n <= |cmds| && InGroup(b, cmds, m, g) == [] && forall k :: m <= k < n ==> cmds[k].group == g
    ensures InGroup(b, cmds, n, g) == Span(b, cmds, m, n)
  {
    if m < n { AllInGroup(b, cmds, m, n - 1, g); }
  }

  /** The positions in group `j + 1` are those of command `j`'s part. */
  lemma GroupIsPart(b: Backend, request: seq<Command>, blobs: seq<Blob>, j: nat, k: nat)
    requires j < |request| && BlobsMatch(request, blobs) && k < |Transaction(b, request, blobs)|
    ensures Transaction(b, request, blobs)[k].group == j + 1 <==> Start(b, request, blobs, j) <= k < Start(b, request, blobs, j + 1)
  {
    var n := |request|;
    var from, to := Start(b, request, blobs, j), Start(b, request, blobs, j + 1);
    CmdsPrefix(b, request, blobs, j, j + 1);
    CmdsPrefix(b, request, blobs, j + 1, n);
    if k < from {
      GroupsUpTo(b, request, blobs, j, k);
    } else if k < to {
      GroupAt(b, request, blobs, j, j + 1, k);
    } else if k < Start(b, request, blobs, n) {
      GroupAt(b, request, blobs, j + 1, n, k);
    }
  }

  /** Group `j + 1` holds exactly the replies to command `j`'s graph commands, in order. */
  lemma GroupsAlign(b: Backend, request: seq<Command>, blobs: seq<Blob>, j: nat)
    requires j < |request| && BlobsMatch(request, blobs)
    ensures var cmds := Transaction(b, request, blobs);
            && Start(b, request, blobs, j) <= Start(b, request, blobs, j + 1) < |cmds|
            && InGroup(b, cmds, |cmds|, j + 1) == Span(b, cmds, Start(b, request, blobs, j), Start(b, request, blobs, j + 1))
  {
    var cmds := Transaction(b, request, blobs);
    var from, to := Start(b, request, blobs, j), Start(b, request, blobs, j + 1);
    CmdsPrefix(b, request, blobs, j, j + 1);
    CmdsPrefix(b, request, blobs, j + 1, |request|);
    forall k | 0 <= k < |cmds| ensures cmds[k].group == j + 1 <==> from <= k < to {
      GroupIsPart(b, request, blobs, j, k);
    }
    NotInGroup(b, cmds, 0, from, j + 1);
    AllInGroup(b, cmds, from, to, j + 1);
    NotInGroup(b, cmds, to, |cmds|, j + 1);
  }

  // ------------------------------------------------------------ what a request gets

  predicate AllBuilt(b: Backend, request: seq<Command>, blobs: seq<Blob>, n: nat)
    requires n <= |request| && BlobsMatch(request, blobs)
  {
    forall j :: 0 <= j < n ==> Built(b, request, blobs, j).code == 0
  }

  /** What command `j` makes of its own replies and its own blob. */
  function MadeOf(b: Backend, request: seq<Command>, blobs: seq<Blob>, j: nat): Made
    requires j < |request| && BlobsMatch(request, blobs)
  {
    GroupsAlign(b, request, blobs, j);
    var cmds := Transaction(b, request, blobs);
    (b.respond)(request[j],
                Span(b, cmds, Start(b, request, blobs, j), Start(b, request, blobs, j + 1)),
                BlobOf(request, blobs, j))
  }

  /** Are these the responses, none of them with a status, of the first commands? */
  predicate AreMade(b: Backend, request: seq<Command>, blobs: seq<Blob>, responses: seq<Response>)
    requires |responses| <= |request| && BlobsMatch(request, blobs)
  {
    forall j :: 0 <= j < |responses| ==> MadeOf(b, request, blobs, j) == Made(responses[j], false)
  }

  predicate FirstFailed(b: Backend, cmds: seq<Cmd>, k: nat) {
    k < |cmds| && NoneFailed(b, cmds, k) && At(b, cmds, k).failed
  }

  /** The transaction as a whole failed, with the reply of the first command that did; a request
      without commands counts as failed too. */
  ghost predicate TxFails(b: Backend, request: seq<Command>, blobs: seq<Blob>, tx: TxResponse)
    requires BlobsMatch(request, blobs)
  {
    var cmds := Transaction(b, request, blobs);
    if NoneFailed(b, cmds, |cmds|) then request == [] && tx == Nothing
    else exists k :: FirstFailed(b, cmds, k) && tx == Failure(At(b, cmds, k).reply)
  }

  ghost predicate Correct(b: Backend, request: seq<Command>, blobs: seq<Blob>, r: Result) {
    var n := |request|;
    match r
    case WrongBlobs(expected, received) =>
      !BlobsMatch(request, blobs) && expected == Needed(request, n) && received == |blobs|
    case NotBuilt(j) =>
      BlobsMatch(request, blobs) && j < n && AllBuilt(b, request, blobs, j) && Built(b, request, blobs, j).code != 0
    case TxFailed(tx) =>
      BlobsMatch(request, blobs) && AllBuilt(b, request, blobs, n) && TxFails(b, request, blobs, tx)
    case BadResponse(j) =>
      && BlobsMatch(request, blobs) && AllBuilt(b, request, blobs, n) && Succeeds(b, request, blobs)
      && j < n && MadeOf(b, request, blobs, j).hasStatus
      && forall i :: 0 <= i < j ==> !MadeOf(b, request, blobs, i).hasStatus
    case Answered(responses) =>
      && BlobsMatch(request, blobs) && AllBuilt(b, request, blobs, n) && Succeeds(b, request, blobs)
      && n > 0 && |responses| == n && AreMade(b, request, blobs, responses)
  }

  predicate Succeeds(b: Backend, request: seq<Command>, blobs: seq<Blob>)
    requires BlobsMatch(request, blobs)
  {
    NoneFailed(b, Transaction(b, request, blobs), |Transaction(b, request, blobs)|)
  }

  /** A request has only one correct result. */
  lemma CorrectIsUnique(b: Backend, request: seq<Command>, blobs: seq<Blob>, r: Result, s: Result)
    requires Correct(b, request, blobs, r) && Correct(b, request, blobs, s)
    ensures r == s
  {
    if r.TxFailed? && s.TxFailed? {
      var cmds := Transaction(b, request, blobs);
      if !NoneFailed(b, cmds, |cmds|) {
        var k :| FirstFailed(b, cmds, k) && r.tx == Failure(At(b, cmds, k).reply);
        var l :| FirstFailed(b, cmds, l) && s.tx == Failure(At(b, cmds, l).reply);
        assert k == l;
      }
    } else if r.Answered? && s.Answered? {
      assert r.responses == s.responses;
    }
  }

  /** The layout of the transaction, with the blobs handed out as above: it begins and commits
      once, and in between stand, in a group of their own, the graph commands that each command
      builds from its blob. */
  lemma TransactionLayout(b: Backend, request: seq<Command>, blobs: seq<Blob>, given: seq<Blob>, j: nat)
    requires BlobsMatch(request, blobs) && HandOut(request, blobs, given) && j < |request|
    ensures var cmds, built := Transaction(b, request, blobs), (b.construct)(request[j], given[j]).payloads;
            var from := Start(b, request, blobs, j);
            && cmds[0] == Cmd(TxBegin, 0) && cmds[|cmds| - 1] == Cmd(TxCommit, |request| + 1)
            && Start(b, request, blobs, 0) == 1 && Start(b, request, blobs, |request|) == |cmds| - 1
            && Start(b, request, blobs, j + 1) == from + |built| < |cmds|
            && forall k :: 0 <= k < |built| ==> cmds[from + k] == Cmd(Graph(built[k]), j + 1)
  {
    HandOutIs(request, blobs, given);
    var built := Built(b, request, blobs, j).payloads;
    TaggedGroups(built, j + 1);
    CmdsPrefix(b, request, blobs, 0, |request|);
    CmdsPrefix(b, request, blobs, j + 1, |request|);
    var part := Cmds(b, request, blobs, j + 1);
    assert part == Cmds(b, request, blobs, j) + Tagged(built, j + 1);
    var cmds := Transaction(b, request, blobs);
    assert part <= cmds;
    forall k | 0 <= k < |built| ensures cmds[Start(b, request, blobs, j) + k] == Cmd(Graph(built[k]), j + 1) {
      assert part[Start(b, request, blobs, j) + k] == Tagged(built, j + 1)[k];
    }
  }

  /** What a correct result says when the blobs are handed out as above: which command was the
      first that could not be built from its blob, or what every command made of the replies to
      its own graph commands and of its blob. */
  lemma CorrectSays(b: Backend, request: seq<Command>, blobs: seq<Blob>, given: seq<Blob>, r: Result)
    requires Correct(b, request, blobs, r) && HandOut(request, blobs, given)
    ensures !r.WrongBlobs?
    ensures r.NotBuilt? ==>
              && r.j < |request| && (b.construct)(request[r.j], given[r.j]).code != 0
              && forall i :: 0 <= i < r.j ==> (b.construct)(request[i], given[i]).code == 0
    ensures r.Answered? ==>
              && |r.responses| == |request|
              && forall j :: 0 <= j < |request| ==>
                   var cmds, from, to := Transaction(b, request, blobs), Start(b, request, blobs, j), Start(b, request, blobs, j + 1);
                   from <= to <= |cmds| && (b.respond)(request[j], Span(b, cmds, from, to), given[j]) == Made(r.responses[j], false)
  {
    HandOutIs(request, blobs, given);
    if r.NotBuilt? {
      assert given[r.j] == BlobOf(request, blobs, r.j);
      forall i | 0 <= i < r.j ensures (b.construct)(request[i], given[i]).code == 0 {
        assert Built(b, request, blobs, i).code == 0;
      }
    }
    if r.Answered? {
      forall j | 0 <= j < |request|
        ensures var cmds, from, to := Transaction(b, request, blobs), Start(b, request, blobs, j), Start(b, request, blobs, j + 1);
                from <= to <= |cmds| && (b.respond)(request[j], Span(b, cmds, from, to), given[j]) == Made(r.responses[j], false)
      {
        GroupsAlign(b, request, blobs, j);
        assert MadeOf(b, request, blobs, j) == Made(r.responses[j], false);
      }
    }
  }

  // ------------------------------------------------------------- implementation

  ghost predicate AreGroups(b: Backend, cmds: seq<Cmd>, groups: seq<seq<Reply>>, n: nat) {
    |groups| == n && forall g :: 0 <= g < n ==> groups[g] == InGroup(b, cmds, |cmds|, g)
  }

  /** Runs the commands; replies go to their groups. If one fails, all replies are dropped and
      one group with its reply is left. */
  method ProcessQueries(b: Backend, cmds: seq<Cmd>, numGroups: nat) returns (groups: seq<seq<Reply>>)
    requires forall k :: 0 <= k < |cmds| ==> cmds[k].group < numGroups
    ensures NoneFailed(b, cmds, |cmds|) ==> AreGroups(b, cmds, groups, numGroups)
    ensures !NoneFailed(b, cmds, |cmds|) ==> exists k :: FirstFailed(b, cmds, k) && groups == [[At(b, cmds, k).reply]]
  {
    groups := seq(numGroups, g => []);
    for k := 0 to |cmds|
      invariant NoneFailed(b, cmds, k) && |groups| == numGroups
      invariant forall g :: 0 <= g < numGroups ==> groups[g] == InGroup(b, cmds, k, g)
    {
      var answer := (b.execute)(cmds[..k + 1]);
      if answer.failed {
        assert FirstFailed(b, cmds, k);
        return [[answer.reply]];
      }
      var g := cmds[k].group;
      groups := groups[g := groups[g] + [answer.reply]];
    }
  }

  class PmgdQuery {
    var cmds: seq<Cmd>
    var group: nat

    ghost predicate Valid()
      reads this
    {
      forall k :: 0 <= k < |cmds| ==> cmds[k].group <= group
    }

    constructor ()
      ensures Valid() && cmds == [Cmd(TxBegin, 0)] && group == 0
    {
      group := 0;
      cmds := [Cmd(TxBegin, 0)];
    }

    method AddGroup()
      requires Valid()
      modifies this`group
      ensures Valid() && group == old(group) + 1
    {
      group := group + 1;
    }

    /** The graph commands of one command of the request. */
    method Push(payloads: seq<Payload>)
      requires Valid()
      modifies this`cmds
      ensures Valid() && cmds == old(cmds) + Tagged(payloads, group)
    {
      ghost var before := cmds;
      ConcatEmpty(cmds);
      for i := 0 to |payloads|
        invariant cmds == before + Tagged(payloads[..i], group)
      {
        PrefixStep(payloads, i);
        assert payloads[..i + 1][..i] == payloads[..i];
        ConcatAssociates(before, Tagged(payloads[..i], group), [Cmd(Graph(payloads[i]), group)]);
        cmds := cmds + [Cmd(Graph(payloads[i]), group)];
      }
      PrefixAll(payloads);
      TaggedGroups(payloads, group);
    }

    /** Ends the transaction and sends it. A failed one is never taken for a success: it comes
        back as one group, and there are always at least two. */
    method Run(b: Backend) returns (r: TxResponse)
      requires Valid()
      modifies this
      ensures cmds == old(cmds) + [Cmd(TxCommit, old(group) + 1)]
      ensures NoneFailed(b, cmds, |cmds|) ==>
        if old(group) == 0 then r == Nothing
        else r.Groups? && |r.groups| == old(group) && forall j :: 0 <= j < old(group) ==> r.groups[j] == InGroup(b, cmds, |cmds|, j + 1)
      ensures !NoneFailed(b, cmds, |cmds|) ==> exists k :: FirstFailed(b, cmds, k) && r == Failure(At(b, cmds, k).reply)
    {
      AddGroup();
      cmds := cmds + [Cmd(TxCommit, group)];
      var responses := ProcessQueries(b, cmds, group + 1);
      if |responses| != group + 1 {
        if |responses| == 1 && |responses[0]| == 1 {
          return Failure(responses[0][0]);
        }
        return Unexpected;
      }
      r := Nothing;
      for i := 1 to |responses| - 1
        invariant if i == 1 then r == Nothing else r.Groups? && r.groups == responses[1..i]
      {
        r := Groups((if r == Nothing then [] else r.groups) + [responses[i]]);
      }
    }
  }

  /** Counts the commands that need a blob and compares with the blobs received. */
  method ParseCommands(request: seq<Command>, blobs: seq<Blob>) returns (ok: bool, expected: nat)
    ensures ok <==> BlobsMatch(request, blobs)
    ensures expected == Needed(request, |request|)
  {
    expected := 0;
    for j := 0 to |request|
      invariant expected == Needed(request, j)
    {
      if request[j].needsBlob {
        expected := expected + 1;
      }
    }
    ok := expected == |blobs|;
  }

  /** The blob for the next command, and how many are used up then. */
  method TakeBlob(request: seq<Command>, blobs: seq<Blob>, j: nat, blobCount: nat) returns (blob: Blob, used: nat)
    requires j < |request| && BlobsMatch(request, blobs) && blobCount == Needed(request, j)
    ensures blob == BlobOf(request, blobs, j) && used == Needed(request, j + 1)
  {
    NeededMonotone(request, j + 1, |request|);
    if request[j].needsBlob {
      return blobs[blobCount], blobCount + 1;
    }
    return "", blobCount;
  }

  /** The first pass: every command adds its graph commands, in a group of its own. */
  method Build(b: Backend, request: seq<Command>, blobs: seq<Blob>, query: PmgdQuery)
    returns (built: bool, failed: nat, blobCount: nat)
    requires BlobsMatch(request, blobs)
    requires query.Valid() && query.group == 0 && query.cmds == Cmds(b, request, blobs, 0)
    modifies query
    ensures built ==> AllBuilt(b, request, blobs, |request|) && blobCount == |blobs|
    ensures built ==> query.Valid() && query.group == |request| && query.cmds == Cmds(b, request, blobs, |request|)
    ensures !built ==> Correct(b, request, blobs, NotBuilt(failed))
  {
    blobCount, failed := 0, 0;
    for j := 0 to |request|
      invariant AllBuilt(b, request, blobs, j) && blobCount == Needed(request, j)
      invariant query.Valid() && query.group == j && query.cmds == Cmds(b, request, blobs, j)
    {
      query.AddGroup();
      var blob: Blob;
      blob, blobCount := TakeBlob(request, blobs, j, blobCount);
      var made := (b.construct)(request[j], blob);
      if made.code != 0 {
        return false, j, blobCount;
      }
      query.Push(made.payloads);
    }
    built := true;
  }

  /** Does a group hold the replies to command `j`? */
  ghost predicate IsGroup(b: Backend, request: seq<Command>, blobs: seq<Blob>, j: nat, group: seq<Reply>)
    requires BlobsMatch(request, blobs)
  {
    group == InGroup(b, Transaction(b, request, blobs), |Transaction(b, request, blobs)|, j + 1)
  }

  method RespondOne(b: Backend, request: seq<Command>, ghost blobs: seq<Blob>, j: nat, group: seq<Reply>, blob: Blob)
    returns (made: Made)
    requires j < |request| && BlobsMatch(request, blobs)
    requires IsGroup(b, request, blobs, j, group) && blob == BlobOf(request, blobs, j)
    ensures made == MadeOf(b, request, blobs, j)
  {
    GroupsAlign(b, request, blobs, j);
    made := (b.respond)(request[j], group, blob);
  }

  lemma OneMoreMade(b: Backend, request: seq<Command>, blobs: seq<Blob>, responses: seq<Response>, made: Made)
    requires |responses| < |request| && BlobsMatch(request, blobs) && AreMade(b, request, blobs, responses)
    requires MadeOf(b, request, blobs, |responses|) == made && !made.hasStatus
    ensures AreMade(b, request, blobs, responses + [made.response])
  {
  }

  /** The second pass: every command makes its response from its group's replies. */
  method Respond(b: Backend, request: seq<Command>, blobs: seq<Blob>, groups: seq<seq<Reply>>)
    returns (responses: seq<Response>, blobCount: nat)
    requires BlobsMatch(request, blobs) && |groups| == |request|
    requires forall j :: 0 <= j < |groups| ==> IsGroup(b, request, blobs, j, groups[j])
    ensures |responses| <= |request| && AreMade(b, request, blobs, responses)
    ensures |responses| == |request| ==> blobCount == |blobs|
    ensures |responses| < |request| ==> MadeOf(b, request, blobs, |responses|).hasStatus
  {
    blobCount := 0;
    responses := [];
    for j := 0 to |request|
      invariant blobCount == Needed(request, j)
      invariant |responses| == j && AreMade(b, request, blobs, responses)
    {
      var blob: Blob;
      blob, blobCount := TakeBlob(request, blobs, j, blobCount);
      var made := RespondOne(b, request, blobs, j, groups[j], blob);
      if made.hasStatus {
        return;
      }
      OneMoreMade(b, request, blobs, responses, made);
      responses := responses + [made.response];
    }
  }

  method ProcessQuery(b: Backend, request: seq<Command>, blobs: seq<Blob>) returns (r: Result)
    ensures Correct(b, request, blobs, r)
    ensures r.WrongBlobs? <==> !exists given :: HandOut(request, blobs, given)
  {
    HandOutExists(request, blobs);
    var ok, expected := ParseCommands(request, blobs);
    if !ok {
      return WrongBlobs(expected, |blobs|);
    }
    var query := new PmgdQuery();
    var built, failed, used := Build(b, request, blobs, query);
    if !built {
      return NotBuilt(failed);
    }
    var tx := query.Run(b);
    if !tx.Groups? || |tx.groups| != |request| {
      return TxFailed(tx);
    }
    var responses: seq<Response>;
    responses, used := Respond(b, request, blobs, tx.groups);
    r := if |responses| < |request| then BadResponse(|responses|) else Answered(responses);
  }
}
