/** One image of the event loop as an object: its operation list, how many operations are
    completed, its pixels and its error text. A failed operation does not count as completed. */
module ImageObject {
  import opened ImageLoop

  datatype Operation = Read | Apply(op: Op)

  /** What an operation makes of non-empty pixels: new pixels or an error text. */
  datatype Outcome = Good(pixels: Pixels) | Bad(message: string)

  type Transform = (Op, Pixels) -> Outcome

  const EMPTY_IMAGE := "Image object is empty"

  ghost predicate Meaningful(f: Transform) {
    forall op, p :: f(op, p).Bad? ==> f(op, p).message != ""
  }

  /** The operation on any pixels: an image without pixels is an error. */
  function Run(f: Transform, op: Op, p: Pixels): Outcome {
    if p == [] then Bad(EMPTY_IMAGE) else f(op, p)
  }

  /** The operations from `i` up to `j`, one after the other, all of them successful. */
  ghost predicate Leads(f: Transform, ops: seq<Operation>, i: nat, j: nat, p: Pixels, q: Pixels)
    requires i <= j <= |ops|
    decreases j - i
  {
    if i == j then p == q
    else ops[i].Apply? && ops[i].op.Local? && Run(f, ops[i].op, p).Good? && Leads(f, ops, i + 1, j, Run(f, ops[i].op, p).pixels, q)
  }

  lemma {:induction false} LeadsOn(f: Transform, ops: seq<Operation>, i: nat, j: nat, p: Pixels, q: Pixels)
    requires i <= j < |ops| && Leads(f, ops, i, j, p, q)
    requires ops[j].Apply? && ops[j].op.Local? && Run(f, ops[j].op, q).Good?
    ensures Leads(f, ops, i, j + 1, p, Run(f, ops[j].op, q).pixels)
    decreases j - i
  {
    if i < j {
      LeadsOn(f, ops, i + 1, j, Run(f, ops[i].op, p).pixels, q);
    }
  }

  class VclImage {
    var ops: seq<Operation>
    var completed: nat
    var pixels: Pixels
    var error: string

    /** A copy of another image: it has no error, and a read at the head of the list is
        carried out instead of copied. */
    constructor Copy(img: VclImage, file: Pixels)
      ensures error == "" && completed == img.completed
      ensures if img.ops != [] && img.ops[0].Read? then ops == img.ops[1..] && pixels == file
              else ops == img.ops && pixels == img.pixels
    {
      ops, completed, pixels, error := img.ops, img.completed, img.pixels, "";
      if img.ops != [] && img.ops[0].Read? {
        ops, pixels := img.ops[1..], file;
      }
    }

    /** Runs the next operation: 0 for a local one, -1 for a remote one (which is only noted),
        -2 when the image has an error. */
    method ExecuteOperation(f: Transform, file: Pixels) returns (code: int)
      requires completed < |ops| && Meaningful(f)
      modifies this
      ensures ops == old(ops)
      ensures old(error) != "" ==> code == -2
      ensures old(error) == "" && ops[old(completed)].Read? ==>
                code == 0 && completed == old(completed) && pixels == file && error == ""
      ensures old(error) == "" && ops[old(completed)].Apply? ==>
                var op := ops[old(completed)].op;
                var r := if old(pixels) == [] then Bad("Image object is empty") else f(op, old(pixels));
                if op.Remote? then
                  && completed == old(completed) && pixels == old(pixels)
                  && (if old(pixels) == [] then code == -2 && error == "Image object is empty" else code == -1 && error == "")
                else if r.Good? then code == 0 && completed == old(completed) + 1 && pixels == r.pixels && error == ""
                else code == -2 && completed == old(completed) && pixels == old(pixels) && error == r.message
    {
      var next := ops[completed];
      match next {
        case Read => pixels := file;
        case Apply(op) =>
          if op.Remote? {
            if pixels == [] {
              error := EMPTY_IMAGE;
            }
          } else {
            var r := Run(f, op, pixels);
            if r.Good? {
              pixels, completed := r.pixels, completed + 1;
            } else {
              error := r.message;
            }
          }
      }
      code := if error != "" then -2 else if next.Apply? && next.op.Remote? then -1 else 0;
    }

    /** The local thread's loop over one image without a pending read: it stops at the first
        remote operation, at the first error, or when the list is complete, and everything up
        to there has been applied once and in order. */
    method RunLocally(f: Transform) returns (code: int)
      requires completed <= |ops| && error == "" && Meaningful(f)
      requires forall i :: completed <= i < |ops| ==> ops[i].Apply?
      modifies this
      ensures ops == old(ops) && old(completed) <= completed <= |ops|
      ensures Leads(f, ops, old(completed), completed, old(pixels), pixels)
      ensures code == 0 ==> completed == |ops| && error == ""
      ensures code == -1 ==> completed < |ops| && ops[completed].op.Remote? && pixels != [] && error == ""
      ensures code == -2 ==> completed < |ops| && error != ""
                             && (if ops[completed].op.Remote? then pixels == [] else Run(f, ops[completed].op, pixels).Bad?)
      ensures code in {0, -1, -2}
    {
      code := 0;
      var i := completed;
      while i < |ops|
        invariant ops == old(ops) && old(completed) <= i == completed <= |ops|
        invariant code == 0 && error == ""
        invariant Leads(f, ops, old(completed), completed, old(pixels), pixels)
      {
        ghost var before := pixels;
        code := ExecuteOperation(f, []);
        if code != 0 {
          return;
        }
        LeadsOn(f, ops, old(completed), i, old(pixels), before);
        i := i + 1;
      }
    }

    /** The remote thread's side: new pixels arrive and the operation counts as completed. */
    method TakeReply(reply: Pixels)
      requires completed < |ops|
      modifies this
      ensures ops == old(ops) && error == old(error) && pixels == reply && completed == old(completed) + 1
    {
      pixels := reply;
      completed := completed + 1;
    }
  }

  /** In an error-free configuration a stretch of local operations is a stretch of the event
      loop's fold. */
  lemma {:induction false} LeadsIsFold(c: Config, f: Transform, ops: seq<Operation>, i: nat, j: nat, p: Pixels, q: Pixels, input: Pixels)
    requires |ops| == |c.ops| && i <= j <= |ops|
    requires forall k :: 0 <= k < |ops| ==> ops[k] == Apply(c.ops[k])
    requires forall op, x :: x != [] ==> f(op, x) == Good(c.transform(op, x))
    requires Leads(f, ops, i, j, p, q) && p == Fold(c, input, i)
    ensures q == Fold(c, input, j)
    decreases j - i
  {
    if i < j {
      LeadsIsFold(c, f, ops, i + 1, j, Run(f, ops[i].op, p).pixels, q, input);
    }
  }

  /** In an error-free configuration every operation succeeds on an image that is not empty and
      leaves one that is not empty. */
  ghost predicate ErrorFree(c: Config, f: Transform) {
    && Meaningful(f)
    && forall op, x :: x != [] ==> f(op, x) == Good(c.transform(op, x)) && c.transform(op, x) != []
  }

  predicate Lists(ops: seq<Operation>, c: Config) {
    |ops| == |c.ops| && forall k :: 0 <= k < |ops| ==> ops[k] == Apply(c.ops[k])
  }

  /** What the event loop's copies start from: a pending read is carried out by the first copy. */
  function Input(ops: seq<Operation>, pixels: Pixels, file: Pixels): Pixels {
    if ops != [] && ops[0].Read? then file else pixels
  }

  function AfterRead(ops: seq<Operation>): seq<Operation> {
    if ops != [] && ops[0].Read? then ops[1..] else ops
  }

  lemma {:induction false} FoldNonempty(c: Config, f: Transform, p: Pixels, n: nat)
    requires ErrorFree(c, f) && p != [] && n <= |c.ops|
    ensures Fold(c, p, n) != []
  {
    if n > 0 { FoldNonempty(c, f, p, n - 1); }
  }

  /** One image on its way through the loop, alone: it is copied when it is enqueued, run by the
      local thread up to a remote operation, copied to the remote thread, given the reply, copied
      back, and so on until the list is complete. Across all hand-overs every operation has been
      applied once and in order. */
  method ProcessOne(c: Config, f: Transform, img: VclImage, file: Pixels) returns (out: VclImage)
    requires ErrorFree(c, f) && Lists(AfterRead(img.ops), c) && img.completed == 0
    requires Input(img.ops, img.pixels, file) != []
    ensures fresh(out) && out.error == "" && out.completed == |c.ops|
    ensures out.pixels == Fold(c, Input(img.ops, img.pixels, file), |c.ops|)
  {
    ghost var input := Input(img.ops, img.pixels, file);
    out := new VclImage.Copy(img, file);
    var done := false;
    while !done
      invariant fresh(out) && out.error == "" && Lists(out.ops, c) && out.completed <= |c.ops|
      invariant out.pixels == Fold(c, input, out.completed)
      invariant done ==> out.completed == |c.ops|
      decreases |c.ops| - out.completed, !done
    {
      ghost var from, before := out.completed, out.pixels;
      var code := out.RunLocally(f);
      LeadsIsFold(c, f, out.ops, from, out.completed, before, out.pixels, input);
      FoldNonempty(c, f, input, out.completed);
      if code == 0 {
        done := true;
      } else {
        out := RunRemotely(c, f, out, input);
      }
    }
  }

  /** The way to the remote thread and back. */
  method RunRemotely(c: Config, f: Transform, img: VclImage, ghost input: Pixels) returns (out: VclImage)
    requires img.error == "" && Lists(img.ops, c) && img.completed < |c.ops|
    requires img.pixels == Fold(c, input, img.completed)
    ensures fresh(out) && out.error == "" && Lists(out.ops, c) && out.completed == img.completed + 1
    ensures out.pixels == Fold(c, input, out.completed)
  {
    var away := new VclImage.Copy(img, []);
    away.TakeReply(c.transform(c.ops[away.completed], away.pixels));
    out := new VclImage.Copy(away, []);
  }
}
